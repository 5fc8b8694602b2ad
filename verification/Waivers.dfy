/**
 The waivers of scripts/portal-catalogue-drift.py: which findings of a night are excused,
 and which waivers have to be narrowed or deleted because what they excuse is gone.
 */
module Waivers {
  import opened Text

  type Key = (string, string)

  datatype Finding = Finding(server: string, kind: string, names: set<string>, message: string)

  datatype Waiver = Waiver(until: string, tools: set<string>)

  // KNOWN_STALE, the date, and the servers that could be compared.
  datatype Night = Night(table: map<Key, Waiver>, today: string, compared: set<string>)

  // What has to be done about a waiver: name fewer tools, or go.
  datatype Note = Narrow(key: Key, gone: set<string>) | Delete(key: Key)

  function KeyOf(f: Finding): Key {
    (f.server, f.kind)
  }

  /** An unexpired waiver covers everything the finding names; on its last day it still holds. */
  predicate IsExcused(night: Night, f: Finding) {
    && KeyOf(f) in night.table
    && !StrLess(night.table[KeyOf(f)].until, night.today)
    && f.names <= night.table[KeyOf(f)].tools
  }

  function Failing(night: Night, findings: seq<Finding>): seq<Finding> {
    if findings == [] then []
    else
      var (front, f) := (Failing(night, findings[..|findings| - 1]), findings[|findings| - 1]);
      if IsExcused(night, f) then front else front + [f]
  }

  function Excused(night: Night, findings: seq<Finding>): seq<Finding> {
    if findings == [] then []
    else
      var (front, f) := (Excused(night, findings[..|findings| - 1]), findings[|findings| - 1]);
      if IsExcused(night, f) then front + [f] else front
  }

  /** Every name that is excused under a key, in whichever findings. */
  function Covered(night: Night, findings: seq<Finding>, key: Key): set<string> {
    set f, n | f in findings && KeyOf(f) == key && IsExcused(night, f) && n in f.names :: n
  }

  predicate Fires(findings: seq<Finding>, key: Key) {
    exists f :: f in findings && KeyOf(f) == key
  }

  predicate FiresExcused(night: Night, findings: seq<Finding>, key: Key) {
    exists f :: f in findings && KeyOf(f) == key && IsExcused(night, f)
  }

  /** What the night asks for: a waiver wider than what it excused, or one that nothing needed. */
  predicate IsDue(night: Night, findings: seq<Finding>, note: Note) {
    match note
    case Narrow(key, gone) =>
      && FiresExcused(night, findings, key)
      && gone == night.table[key].tools - Covered(night, findings, key) != {}
    case Delete(key) =>
      key in night.table && key.0 in night.compared && !Fires(findings, key)
  }

  // ---------------------------------------------------------------- apply_waivers

  /** apply_waivers() */
  method ApplyWaivers(night: Night, findings: seq<Finding>)
    returns (failing: seq<Finding>, waived: seq<Finding>, maintenance: set<Note>)
    ensures failing == Failing(night, findings) && waived == Excused(night, findings)
    ensures forall note :: note in maintenance <==> IsDue(night, findings, note)
  {
    failing, waived := [], [];
    var used: set<Key>, seen: map<Key, set<string>> := {}, map[];
    for i := 0 to |findings|
      invariant failing == Failing(night, findings[..i]) && waived == Excused(night, findings[..i])
      invariant Tracked(night, findings[..i], used, seen)
    {
      var f := findings[i];
      assert findings[..i + 1][..i] == findings[..i];
      if KeyOf(f) !in night.table {
        failing := failing + [f];
        Unwaived(night, findings[..i], f, used, seen);
      } else {
        var w := night.table[KeyOf(f)];
        if StrLess(w.until, night.today) || f.names - w.tools != {} {
          failing := failing + [f];
          Refused(night, findings[..i], f, used, seen);
          used := used + {KeyOf(f)};
        } else {
          assert f.names <= (f.names - w.tools) + w.tools;
          waived := waived + [f];
          Granted(night, findings[..i], f, used, seen);
          used := used + {KeyOf(f)};
          seen := seen[KeyOf(f) := (if KeyOf(f) in seen then seen[KeyOf(f)] else {}) + f.names];
        }
      }
      assert findings[..i + 1] == findings[..i] + [f];
    }
    assert findings[..|findings|] == findings;
    var narrow := TooWide(night, findings, used, seen);
    var delete := Unneeded(night, findings, used, seen);
    maintenance := narrow + delete;
  }

  /** What the loop keeps: the keys with a waiver that fired, and the names excused under each. */
  ghost predicate Tracked(night: Night, findings: seq<Finding>, used: set<Key>, seen: map<Key, set<string>>) {
    && (forall k :: k in used <==> k in night.table && Fires(findings, k))
    && (forall k :: k in seen <==> FiresExcused(night, findings, k))
    && (forall k :: k in seen ==> seen[k] == Covered(night, findings, k))
  }

  lemma Grows(night: Night, findings: seq<Finding>, f: Finding)
    ensures forall k :: Fires(findings + [f], k) <==> Fires(findings, k) || k == KeyOf(f)
    ensures forall k :: FiresExcused(night, findings + [f], k)
                   <==> FiresExcused(night, findings, k) || (k == KeyOf(f) && IsExcused(night, f))
    ensures forall k :: Covered(night, findings + [f], k)
                     == Covered(night, findings, k) + (if k == KeyOf(f) && IsExcused(night, f) then f.names else {})
  {
    assert forall g :: g in findings + [f] <==> g in findings || g == f;
  }

  lemma Unwaived(night: Night, findings: seq<Finding>, f: Finding, used: set<Key>, seen: map<Key, set<string>>)
    requires Tracked(night, findings, used, seen) && KeyOf(f) !in night.table
    ensures Tracked(night, findings + [f], used, seen)
  {
    Grows(night, findings, f);
  }

  lemma Refused(night: Night, findings: seq<Finding>, f: Finding, used: set<Key>, seen: map<Key, set<string>>)
    requires Tracked(night, findings, used, seen) && KeyOf(f) in night.table && !IsExcused(night, f)
    ensures Tracked(night, findings + [f], used + {KeyOf(f)}, seen)
  {
    Grows(night, findings, f);
  }

  lemma Granted(night: Night, findings: seq<Finding>, f: Finding, used: set<Key>, seen: map<Key, set<string>>)
    requires Tracked(night, findings, used, seen) && IsExcused(night, f)
    ensures Tracked(night, findings + [f], used + {KeyOf(f)},
                    seen[KeyOf(f) := (if KeyOf(f) in seen then seen[KeyOf(f)] else {}) + f.names])
  {
    Grows(night, findings, f);
    if KeyOf(f) !in seen {
      assert Covered(night, findings, KeyOf(f)) == {};
    }
  }

  /** The waivers that still name tools which no longer fire. */
  method TooWide(night: Night, findings: seq<Finding>, used: set<Key>, seen: map<Key, set<string>>) returns (notes: set<Note>)
    requires Tracked(night, findings, used, seen)
    ensures forall note :: note in notes <==> note.Narrow? && IsDue(night, findings, note)
  {
    notes := {};
    var left := seen.Keys;
    while left != {}
      invariant left <= seen.Keys
      invariant forall note :: note in notes <==>
                  note.Narrow? && IsDue(night, findings, note) && note.key !in left
      decreases |left|
    {
      var key :| key in left;
      var gone := night.table[key].tools - seen[key];
      if gone != {} {
        notes := notes + {Narrow(key, gone)};
      }
      left := left - {key};
    }
  }

  /** The waivers of compared servers that excused nothing. */
  method Unneeded(night: Night, findings: seq<Finding>, used: set<Key>, seen: map<Key, set<string>>) returns (notes: set<Note>)
    requires Tracked(night, findings, used, seen)
    ensures forall note :: note in notes <==> note.Delete? && IsDue(night, findings, note)
  {
    notes := {};
    var left := night.table.Keys;
    while left != {}
      invariant left <= night.table.Keys
      invariant forall note :: note in notes <==>
                  note.Delete? && IsDue(night, findings, note) && note.key !in left
      decreases |left|
    {
      var key :| key in left;
      if key.0 in night.compared && key !in used {
        notes := notes + {Delete(key)};
      }
      left := left - {key};
    }
  }

  // ---------------------------------------------------------------- the split

  /** Every finding is in exactly one of the two lists, and in the one its waiver says. */
  lemma {:induction false} FindingsArePartitioned(night: Night, findings: seq<Finding>)
    ensures multiset(Failing(night, findings)) + multiset(Excused(night, findings)) == multiset(findings)
    ensures forall f :: f in Failing(night, findings) <==> f in findings && !IsExcused(night, f)
    ensures forall f :: f in Excused(night, findings) <==> f in findings && IsExcused(night, f)
  {
    if findings != [] {
      var front := findings[..|findings| - 1];
      FindingsArePartitioned(night, front);
      assert findings == front + [findings[|findings| - 1]];
    }
  }

  /** The notes depend on which findings there are, not on their order or repetition. */
  lemma OrderDoesNotMatter(night: Night, findings: seq<Finding>, others: seq<Finding>, note: Note)
    requires forall f :: f in findings <==> f in others
    ensures IsDue(night, findings, note) <==> IsDue(night, others, note)
  {
    assert Fires(findings, note.key) <==> Fires(others, note.key);
    assert Covered(night, findings, note.key) == Covered(night, others, note.key);
  }

  /** Parts of a finding: of its server and kind, together naming what it names. */
  predicate AreParts(f: Finding, parts: seq<Finding>) {
    && parts != []
    && (forall p :: p in parts ==> KeyOf(p) == KeyOf(f) && p.names <= f.names)
    && (forall n :: n in f.names ==> exists p :: p in parts && n in p.names)
  }

  lemma PartsAreExcused(night: Night, f: Finding, parts: seq<Finding>)
    requires IsExcused(night, f) && AreParts(f, parts)
    ensures forall p :: p in parts ==> IsExcused(night, p)
  {
  }

  /**
   A covered finding that arrives in several, one per tool for instance, fails as little and
   asks for the same maintenance as when it arrives in one.
   */
  lemma SplittingDoesNotMatter(night: Night, before: seq<Finding>, f: Finding, parts: seq<Finding>, after: seq<Finding>)
    requires IsExcused(night, f) && AreParts(f, parts)
    ensures Failing(night, before + parts + after) == Failing(night, before + [f] + after)
    ensures forall note :: IsDue(night, before + parts + after, note) <==> IsDue(night, before + [f] + after, note)
  {
    PartsAreExcused(night, f, parts);
    FailingOfBoth(night, before, parts);
    FailingOfBoth(night, before + parts, after);
    FailingOfBoth(night, before, [f]);
    FailingOfBoth(night, before + [f], after);
    NoneFails(night, parts);
    NoneFails(night, [f]);
    forall note ensures IsDue(night, before + parts + after, note) <==> IsDue(night, before + [f] + after, note) {
      SameNotes(night, before, f, parts, after, note);
    }
  }

  lemma SameNotes(night: Night, before: seq<Finding>, f: Finding, parts: seq<Finding>, after: seq<Finding>, note: Note)
    requires IsExcused(night, f) && AreParts(f, parts)
    ensures IsDue(night, before + parts + after, note) <==> IsDue(night, before + [f] + after, note)
  {
    var (split, whole, key) := (before + parts + after, before + [f] + after, note.key);
    assert parts[0] in parts;
    assert forall g :: g in split <==> g in before || g in parts || g in after;
    assert forall g :: g in whole <==> g in before || g == f || g in after;
    PartsAreExcused(night, f, parts);
    assert FiresExcused(night, split, key) <==> FiresExcused(night, whole, key);
    assert Fires(split, key) <==> Fires(whole, key);
    forall n | n in Covered(night, whole, key) ensures n in Covered(night, split, key) {
      var g :| g in whole && KeyOf(g) == key && IsExcused(night, g) && n in g.names;
      if g == f {
        var p :| p in parts && n in p.names;
        assert p in split;
      }
    }
    assert Covered(night, split, key) == Covered(night, whole, key);
  }

  lemma {:induction false} FailingOfBoth(night: Night, a: seq<Finding>, b: seq<Finding>)
    ensures Failing(night, a + b) == Failing(night, a) + Failing(night, b)
  {
    if b == [] {
      assert a + b == a;
    } else {
      FailingOfBoth(night, a, b[..|b| - 1]);
      assert (a + b)[..|a + b| - 1] == a + b[..|b| - 1];
    }
  }

  lemma {:induction false} NoneFails(night: Night, findings: seq<Finding>)
    requires forall f :: f in findings ==> IsExcused(night, f)
    ensures Failing(night, findings) == []
  {
    if findings != [] {
      NoneFails(night, findings[..|findings| - 1]);
    }
  }

  /** A server that could not be compared, and so has no findings, has none of its waivers condemned. */
  lemma UncomparedCondemnsNothing(night: Night, findings: seq<Finding>, server: string, note: Note)
    requires server !in night.compared && (forall f :: f in findings ==> f.server != server)
    requires IsDue(night, findings, note)
    ensures note.key.0 != server
  {
  }
}

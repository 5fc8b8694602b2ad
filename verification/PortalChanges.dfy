/**
 When scripts/portal-catalogue-land.py decides a change, said without its code: element by
 element of the live list, main's list and the allowlist, and why it refuses otherwise.
 */
module PortalChanges {
  import opened Wrappers
  import opened JsonDocs
  import opened PortalDecision
  import opened PortalValidator
  import opened PortalLander
  import opened PortalCrashes
  import opened Seqs
  import opened Text

  // ---------------------------------------------------------------- the allowlist, entry by entry

  predicate HasNameAndSwitch(tool: Json) {
    Get(tool, "name").Some? && Get(tool, "name").value.Str? && Get(tool, "enabled").Some?
  }

  predicate IsNamed(tool: Json, name: string) {
    Get(tool, "name") == Some(Str(name))
  }

  /** The last entry of that name has this switch. */
  predicate LastSays(tools: seq<Json>, name: string, enabled: Json) {
    exists i :: 0 <= i < |tools| && IsNamed(tools[i], name) && Get(tools[i], "enabled") == Some(enabled)
                && forall j :: i < j < |tools| ==> !IsNamed(tools[j], name)
  }

  lemma LastSaysOneMore(front: seq<Json>, last: Json, name: string, enabled: Json)
    ensures LastSays(front + [last], name, enabled)
       <==> if IsNamed(last, name) then Get(last, "enabled") == Some(enabled) else LastSays(front, name, enabled)
  {
    var (tools, n) := (front + [last], |front|);
    if IsNamed(last, name) {
      assert IsNamed(tools[n], name);
      if Get(last, "enabled") == Some(enabled) {
        assert Get(tools[n], "enabled") == Some(enabled);
      }
    } else {
      if LastSays(tools, name, enabled) {
        NotTheLast(front, last, name, enabled);
      }
      if LastSays(front, name, enabled) {
        StillTheLast(front, last, name, enabled);
      }
    }
  }

  lemma NotTheLast(front: seq<Json>, last: Json, name: string, enabled: Json)
    requires LastSays(front + [last], name, enabled) && !IsNamed(last, name)
    ensures LastSays(front, name, enabled)
  {
    var (tools, n) := (front + [last], |front|);
    var i :| 0 <= i < |tools| && IsNamed(tools[i], name) && Get(tools[i], "enabled") == Some(enabled)
             && forall j :: i < j < |tools| ==> !IsNamed(tools[j], name);
    assert i < n && front[i] == tools[i];
    assert forall j :: i < j < n ==> front[j] == tools[j];
  }

  lemma StillTheLast(front: seq<Json>, last: Json, name: string, enabled: Json)
    requires LastSays(front, name, enabled) && !IsNamed(last, name)
    ensures LastSays(front + [last], name, enabled)
  {
    var (tools, n) := (front + [last], |front|);
    var i :| 0 <= i < n && IsNamed(front[i], name) && Get(front[i], "enabled") == Some(enabled)
             && forall j :: i < j < n ==> !IsNamed(front[j], name);
    assert tools[i] == front[i] && tools[n] == last;
    assert forall j :: i < j < n ==> tools[j] == front[j];
  }

  lemma {:induction false} LastEnabledExactly(tools: seq<Json>)
    ensures LastEnabled(tools).Some? <==> forall i :: 0 <= i < |tools| ==> HasNameAndSwitch(tools[i])
    ensures LastEnabled(tools).Some? ==>
              (forall name, enabled :: LastSays(tools, name, enabled)
                                  <==> name in LastEnabled(tools).value && LastEnabled(tools).value[name] == enabled)
  {
    if tools != [] {
      var n := |tools| - 1;
      var (front, last) := (tools[..n], tools[n]);
      assert tools == front + [last];
      LastEnabledExactly(front);
      if LastEnabled(tools).Some? {
        forall name, enabled
          ensures LastSays(tools, name, enabled)
             <==> name in LastEnabled(tools).value && LastEnabled(tools).value[name] == enabled
        {
          LastSaysOneMore(front, last, name, enabled);
        }
      }
    }
  }

  /** The entries are a list of tools with a name and a switch, the last switch of every name a boolean. */
  ghost predicate IsAllowlist(tools: Json) {
    && tools.Arr? && tools.items != []
    && (forall i :: 0 <= i < |tools.items| ==> HasNameAndSwitch(tools.items[i]) && IsName(Get(tools.items[i], "name").value))
    && forall name, enabled :: LastSays(tools.items, name, enabled) ==> enabled.Bool?
  }

  lemma EveryNameHasALast(tools: seq<Json>, i: nat) returns (enabled: Json)
    requires i < |tools| && forall k :: 0 <= k < |tools| ==> HasNameAndSwitch(tools[k])
    ensures HasNameAndSwitch(tools[i]) && LastSays(tools, Get(tools[i], "name").value.s, enabled)
    decreases |tools| - i
  {
    var name := Get(tools[i], "name").value.s;
    if j :| i < j < |tools| && IsNamed(tools[j], name) {
      enabled := EveryNameHasALast(tools, j);
    } else {
      enabled := Get(tools[i], "enabled").value;
      assert IsNamed(tools[i], name);
    }
  }

  /** The decisions of an allowlist are the last switches in it. */
  lemma DecisionsExactly(allowlist: Json)
    ensures Decisions(allowlist).Some? <==> Get(allowlist, "tools").Some? && IsAllowlist(Get(allowlist, "tools").value)
    ensures Decisions(allowlist).Some? ==>
              (forall name, on :: LastSays(Get(allowlist, "tools").value.items, name, Bool(on))
                             <==> name in Decisions(allowlist).value && Decisions(allowlist).value[name] == on)
  {
    NamesExactly();
    if Get(allowlist, "tools").Some? && Get(allowlist, "tools").value.Arr? {
      var tools := Get(allowlist, "tools").value.items;
      LastEnabledExactly(tools);
      if LastEnabled(tools).Some? {
        var last := LastEnabled(tools).value;
        if Decisions(allowlist).Some? {
          forall i | 0 <= i < |tools| ensures IsToolName(Get(tools[i], "name").value) {
            var enabled := EveryNameHasALast(tools, i);
          }
        }
        if IsAllowlist(Get(allowlist, "tools").value) {
          forall name | name in last ensures last[name].Bool? && IsToolName(Str(name)) {
            assert LastSays(tools, name, last[name]);
          }
        }
      }
    }
  }

  // ---------------------------------------------------------------- names

  const OTHERS := "_.:-"

  /** One to 128 of the characters that a tool name may be made of. */
  predicate IsName(j: Json) {
    j.Str? && 1 <= |j.s| <= 128
    && forall i :: 0 <= i < |j.s| ==> j.s[i] in UPPER || j.s[i] in LOWER || j.s[i] in DIGITS || j.s[i] in OTHERS
  }

  lemma NameExactly(j: Json)
    ensures IsToolName(j) <==> IsName(j)
  {
    AreAlphabets();
    forall c ensures IsToolChar(c) <==> c in UPPER || c in LOWER || c in DIGITS || c in OTHERS {
      InAlphabet(UPPER, 'A', c);
      InAlphabet(LOWER, 'a', c);
      InAlphabet(DIGITS, '0', c);
      OtherChars(c);
    }
  }

  lemma NamesExactly()
    ensures forall j :: IsToolName(j) <==> IsName(j)
  {
    forall j ensures IsToolName(j) <==> IsName(j) {
      NameExactly(j);
    }
  }

  lemma OtherChars(c: char)
    ensures c in OTHERS <==> c == '_' || c == '.' || c == ':' || c == '-'
  {
    var others := OTHERS;
    assert others[0] == '_' && others[1] == '.' && others[2] == ':' && others[3] == '-';
  }

  // ---------------------------------------------------------------- when a change is decided

  /** doc["servers"][server] is there, and is this. */
  predicate Holds(doc: Json, server: string, entry: Json) {
    && doc.Obj? && "servers" in doc.fields && doc.fields["servers"].Obj?
    && server in doc.fields["servers"].fields && doc.fields["servers"].fields[server] == entry
  }

  ghost predicate IsNameList(names: Json) {
    names.Arr? && forall n :: n in names.items ==> IsName(n)
  }

  /** Python's `name in set(names)`, for a collection that can be made a set. */
  predicate IsIn(name: string, names: Json) {
    match names
    case Arr(items) => Str(name) in items
    case Str(s) => |name| == 1 && name[0] in s
    case Obj(fields) => name in fields
    case _ => false
  }

  ghost predicate IsCollection(names: Json) {
    names.Str? || names.Obj? || (names.Arr? && forall n :: n in names.items ==> !n.Arr? && !n.Obj?)
  }

  /** The entries of the server in the documents. */
  ghost predicate AreEntries(server: string, docs: Inputs, current: Json, merged: Json, entry: Json, ref: Json) {
    && Holds(docs.catalogue, server, current) && Holds(docs.mainCatalogue, server, merged)
    && Holds(docs.baseline, server, entry) && Holds(docs.reference, server, ref)
  }

  /** What has to be there and of the right shape. */
  ghost predicate AreReadable(live: Json, allowlist: Json, current: Json, merged: Json, entry: Json, ref: Json) {
    && live.Arr? && live.items != [] && IsNameList(live)
    && (forall i, j :: 0 <= i < j < |live.items| ==> live.items[i] != live.items[j])
    && Get(allowlist, "tools").Some? && IsAllowlist(Get(allowlist, "tools").value)
    && IsNameList(current) && IsNameList(merged) && entry.Obj? && ref.Obj?
    && "enabled_tools" in ref.fields && IsCollection(ref.fields["enabled_tools"])
    && "tools_enabled" in ref.fields && (ref.fields["tools_enabled"].Num? || ref.fields["tools_enabled"].Bool?)
  }

  /** No person has edited the entry: but for the two fields that the script writes it is main's. */
  ghost predicate IsUnedited(entry: Json, ref: Json)
    requires entry.Obj? && ref.Obj?
  {
    forall key :: key != "tools_total" && key != "recorded" ==>
      && (key in entry.fields <==> key in ref.fields)
      && (key in entry.fields ==> PyEq(entry.fields[key], ref.fields[key]))
  }

  /** The last switch of the name is on, or off. */
  predicate Says(allowlist: Json, name: Json, on: bool) {
    && Get(allowlist, "tools").Some? && Get(allowlist, "tools").value.Arr? && name.Str?
    && LastSays(Get(allowlist, "tools").value.items, name.s, Bool(on))
  }

  function AllowedCount(ref: Json): int
    requires ref.Obj? && "tools_enabled" in ref.fields
    requires ref.fields["tools_enabled"].Num? || ref.fields["tools_enabled"].Bool?
  {
    var n := ref.fields["tools_enabled"];
    if n.Num? then n.n else if n.b then 1 else 0
  }

  /** Nothing that the live list adds is undecided or on, nothing that it drops is on, and main allows what is on. */
  ghost predicate NeedsNobody(live: Json, allowlist: Json, merged: Json, ref: Json, enabled: set<string>)
    requires live.Arr? && merged.Arr? && ref.Obj? && "enabled_tools" in ref.fields && "tools_enabled" in ref.fields
    requires ref.fields["tools_enabled"].Num? || ref.fields["tools_enabled"].Bool?
  {
    && (forall n :: n in live.items && n !in merged.items ==> Says(allowlist, n, false))
    && (forall n :: n in merged.items && n !in live.items ==> !Says(allowlist, n, true))
    && (forall name :: name in enabled ==> IsIn(name, ref.fields["enabled_tools"]))
    && |enabled| <= AllowedCount(ref)
  }

  lemma EntryHolds(doc: Json, server: string)
    ensures Entry(doc, server).Some? ==> Holds(doc, server, Entry(doc, server).value)
    ensures forall entry :: Holds(doc, server, entry) ==> Entry(doc, server) == Some(entry)
  {
  }

  lemma StringsOfExactly(names: Json)
    ensures StringsOf(names).Some? <==> IsCollection(names)
    ensures StringsOf(names).Some? ==> forall name :: name in StringsOf(names).value <==> IsIn(name, names)
  {
    match names
    case Arr(items) =>
      if StringsOf(names).Some? {
        forall name ensures name in StringsOf(names).value <==> IsIn(name, names) {
          if Str(name) in items {
            var i :| 0 <= i < |items| && items[i] == Str(name);
          }
        }
      }
    case Str(s) =>
      forall name ensures name in StringsOf(names).value <==> IsIn(name, names) {
        if |name| == 1 && name[0] in s {
          var i :| 0 <= i < |s| && s[i] == name[0];
          assert name == [s[i]];
        }
      }
    case _ =>
  }

  /** Readable is what has to be there, spelled out. */
  lemma ReadableExactly(server: string, live: Json, docs: Inputs, current: Json, merged: Json, entry: Json, ref: Json)
    requires AreEntries(server, docs, current, merged, entry, ref)
    ensures Readable(server, live, docs) <==> AreReadable(live, docs.allowlist, current, merged, entry, ref)
  {
    EntryHolds(docs.catalogue, server);
    EntryHolds(docs.mainCatalogue, server);
    EntryHolds(docs.baseline, server);
    EntryHolds(docs.reference, server);
    DecisionsExactly(docs.allowlist);
    NamesListed(live);
    NamesListed(current);
    NamesListed(merged);
    if Get(ref, "enabled_tools").Some? {
      StringsOfExactly(Get(ref, "enabled_tools").value);
    }
  }

  lemma NamesListed(names: Json)
    ensures IsNameList(names) <==> names.Arr? && AllToolNames(names.items)
  {
    NamesExactly();
    if IsNameList(names) {
      forall i | 0 <= i < |names.items| ensures IsToolName(names.items[i]) {
        assert names.items[i] in names.items;
      }
    }
  }

  lemma UneditedExactly(entry: Json, ref: Json)
    requires entry.Obj? && ref.Obj?
    ensures PyEq(Obj(DecisionFields(entry)), Obj(DecisionFields(ref))) <==> IsUnedited(entry, ref)
  {
    var (f, g) := (DecisionFields(entry), DecisionFields(ref));
    FieldsEqualExactly(f, g);
    if FieldsAgree(f, g) {
      forall key | key != "tools_total" && key != "recorded"
        ensures key in entry.fields <==> key in ref.fields
        ensures key in entry.fields ==> PyEq(entry.fields[key], ref.fields[key])
      {
        assert key in f <==> key in g;
      }
    }
    if IsUnedited(entry, ref) {
      forall key ensures (key in f <==> key in g) && (key in f ==> PyEq(f[key], g[key])) {
      }
    }
  }

  ghost predicate FieldsAgree(f: map<string, Json>, g: map<string, Json>) {
    forall key :: (key in f <==> key in g) && (key in f ==> PyEq(f[key], g[key]))
  }

  /** Two objects are equal exactly when their fields are, key by key. */
  lemma FieldsEqualExactly(f: map<string, Json>, g: map<string, Json>)
    ensures PyEq(Obj(f), Obj(g)) <==> FieldsAgree(f, g)
  {
    var (cf, cg) := (Canonical(Obj(f)).fields, Canonical(Obj(g)).fields);
    assert cf.Keys == f.Keys && cg.Keys == g.Keys;
    assert forall key :: key in f ==> cf[key] == Canonical(f[key]);
    assert forall key :: key in g ==> cg[key] == Canonical(g[key]);
    if cf == cg {
      forall key ensures (key in f <==> key in g) && (key in f ==> PyEq(f[key], g[key])) {
        assert key in f <==> key in cf;
        assert key in g <==> key in cg;
      }
    }
    if FieldsAgree(f, g) {
      assert forall key :: key in cf <==> key in cg;
      assert cf == cg;
    }
  }

  lemma NoMember<T>(xs: seq<T>)
    ensures xs == [] <==> forall x :: x !in xs
  {
    if xs != [] {
      assert xs[0] in xs;
    }
  }

  lemma AdditionsExactly(live: seq<Json>, merged: seq<Json>, allowlist: Json)
    requires Decisions(allowlist).Some?
    requires forall n :: n in live ==> n.Str?
    ensures var (added, decisions) := (Missing(live, merged), Decisions(allowlist).value);
      NotDecided(added, decisions) == [] && DecidedAndOn(added, decisions) == []
      <==> forall n :: n in live && n !in merged ==> Says(allowlist, n, false)
  {
    var (added, decisions) := (Missing(live, merged), Decisions(allowlist).value);
    UndecidedExactly(added, allowlist);
    NamesOnExactly(added, allowlist);
    NoMember(NotDecided(added, decisions));
    NoMember(DecidedAndOn(added, decisions));
    forall n | n in added ensures !(Says(allowlist, n, true) && Says(allowlist, n, false)) {
      SaysOneThing(allowlist, n);
    }
  }

  lemma SaysOneThing(allowlist: Json, n: Json)
    requires Decisions(allowlist).Some?
    ensures !(Says(allowlist, n, true) && Says(allowlist, n, false))
  {
    DecisionsExactly(allowlist);
  }

  lemma RemovalsExactly(live: seq<Json>, merged: seq<Json>, allowlist: Json)
    requires Decisions(allowlist).Some?
    requires forall n :: n in merged ==> n.Str?
    ensures var (gone, decisions) := (Missing(merged, live), Decisions(allowlist).value);
      DecidedAndOn(gone, decisions) == [] <==> forall n :: n in merged && n !in live ==> !Says(allowlist, n, true)
  {
    var (gone, decisions) := (Missing(merged, live), Decisions(allowlist).value);
    NamesOnExactly(gone, allowlist);
    NoMember(DecidedAndOn(gone, decisions));
  }

  /** The names whose last switch is on. */
  ghost predicate AreEnabled(enabled: set<string>, allowlist: Json) {
    forall name :: name in enabled <==> Says(allowlist, Str(name), true)
  }

  lemma EnabledExactly(allowlist: Json)
    requires Decisions(allowlist).Some?
    ensures AreEnabled(EnabledTools(Decisions(allowlist).value), allowlist)
  {
    DecisionsExactly(allowlist);
  }

  lemma WithinExactly(enabled: set<string>, names: Json)
    requires StringsOf(names).Some?
    ensures enabled <= StringsOf(names).value <==> forall name :: name in enabled ==> IsIn(name, names)
  {
    StringsOfExactly(names);
  }

  /** No objection is nobody needed. */
  lemma ObjectionExactly(server: string, live: Json, docs: Inputs, merged: Json, entry: Json, ref: Json)
    requires Readable(server, live, docs)
    requires Entry(docs.mainCatalogue, server) == Some(merged)
    requires Entry(docs.baseline, server) == Some(entry) && Entry(docs.reference, server) == Some(ref)
    ensures ref.Obj? && "enabled_tools" in ref.fields && "tools_enabled" in ref.fields
    ensures ref.fields["tools_enabled"].Num? || ref.fields["tools_enabled"].Bool?
    ensures ObjectionTo(server, live, docs).None? <==>
      IsUnedited(entry, ref)
      && NeedsNobody(live, docs.allowlist, merged, ref, EnabledTools(Decisions(docs.allowlist).value))
  {
    var decisions := Decisions(docs.allowlist).value;
    NoReason(live.items, merged.items, DecisionFields(entry), DecisionFields(ref), decisions,
             StringsOf(Get(ref, "enabled_tools").value).value, AllowedCount(ref));
    UneditedExactly(entry, ref);
    AdditionsExactly(live.items, merged.items, docs.allowlist);
    RemovalsExactly(live.items, merged.items, docs.allowlist);
    WithinExactly(EnabledTools(decisions), Get(ref, "enabled_tools").value);
  }

  lemma NoReason(live: seq<Json>, merged: seq<Json>, fields: map<string, Json>, refFields: map<string, Json>,
                 decisions: map<string, bool>, allowed: set<string>, count: int)
    ensures Objection(live, merged, fields, refFields, decisions, allowed, count).None? <==>
      && PyEq(Obj(fields), Obj(refFields))
      && NotDecided(Missing(live, merged), decisions) == [] && DecidedAndOn(Missing(live, merged), decisions) == []
      && DecidedAndOn(Missing(merged, live), decisions) == []
      && EnabledTools(decisions) <= allowed && |EnabledTools(decisions)| <= count
  {
  }

  /**
   A change is decided exactly when everything can be read and no person is needed: nobody
   has edited the entry, what the live list adds is decided off, what it drops is not on,
   and the enabled names are in main's list and no more than main's count.
   */
  lemma ChangeExactly(
    server: string, live: Json, docs: Inputs, today: string, current: Json, merged: Json, entry: Json, ref: Json,
    enabled: set<string>)
    requires AreEntries(server, docs, current, merged, entry, ref) && AreEnabled(enabled, docs.allowlist)
    ensures Decide(server, live, docs, today).Change? <==>
      && AreReadable(live, docs.allowlist, current, merged, entry, ref)
      && IsUnedited(entry, ref)
      && NeedsNobody(live, docs.allowlist, merged, ref, enabled)
    ensures Decide(server, live, docs, today).Unknown? <==> !AreReadable(live, docs.allowlist, current, merged, entry, ref)
  {
    ReadableExactly(server, live, docs, current, merged, entry, ref);
    if Readable(server, live, docs) {
      EntryHolds(docs.mainCatalogue, server);
      EntryHolds(docs.baseline, server);
      EntryHolds(docs.reference, server);
      ObjectionExactly(server, live, docs, merged, entry, ref);
      EnabledExactly(docs.allowlist);
      assert enabled == EnabledTools(Decisions(docs.allowlist).value);
    }
  }

  /** What is not there is unknown. */
  lemma MissingEntryIsUnknown(server: string, live: Json, docs: Inputs, today: string)
    returns (current: Json, merged: Json, entry: Json, ref: Json)
    requires !Decide(server, live, docs, today).Unknown?
    ensures AreEntries(server, docs, current, merged, entry, ref)
  {
    EntryHolds(docs.catalogue, server);
    EntryHolds(docs.mainCatalogue, server);
    EntryHolds(docs.baseline, server);
    EntryHolds(docs.reference, server);
    current, merged := Entry(docs.catalogue, server).value, Entry(docs.mainCatalogue, server).value;
    entry, ref := Entry(docs.baseline, server).value, Entry(docs.reference, server).value;
  }

  // ---------------------------------------------------------------- what a change reports

  lemma {:induction false} MissingCounts(xs: seq<Json>, ys: seq<Json>, n: Json)
    ensures multiset(Missing(xs, ys))[n] == if n in ys then 0 else multiset(xs)[n]
  {
    if xs != [] {
      MissingCounts(xs[1..], ys, n);
      FirstAndRest(xs);
      assert multiset(xs)[n] == multiset([xs[0]])[n] + multiset(xs[1..])[n];
    }
  }

  /** A change reports as added the live names that main's list does not have, and as gone those of main that are not live. */
  lemma AddedAndGone(server: string, live: Json, docs: Inputs, today: string, merged: Json, n: Json)
    requires Decide(server, live, docs, today).Change? && Holds(docs.mainCatalogue, server, merged)
    ensures live.Arr? && merged.Arr?
    ensures var c := Decide(server, live, docs, today);
      && multiset(c.added)[n] == (if n in merged.items then 0 else multiset(live.items)[n])
      && multiset(c.gone)[n] == (if n in live.items then 0 else multiset(merged.items)[n])
  {
    EntryHolds(docs.mainCatalogue, server);
    MissingCounts(live.items, merged.items, n);
    MissingCounts(merged.items, live.items, n);
  }

  /** The reason given is so, and names everything that it is about. */
  ghost predicate IsSo(reason: Reason, live: Json, allowlist: Json, merged: Json, entry: Json, ref: Json, enabled: set<string>)
    requires live.Arr? && merged.Arr? && entry.Obj? && ref.Obj?
    requires "enabled_tools" in ref.fields && "tools_enabled" in ref.fields
    requires ref.fields["tools_enabled"].Num? || ref.fields["tools_enabled"].Bool?
  {
    match reason
    case BaselineEdited => !IsUnedited(entry, ref)
    case Undecided(names) =>
      names != [] && forall n :: n in names <==>
        n in live.items && n !in merged.items && !Says(allowlist, n, true) && !Says(allowlist, n, false)
    case TurnsOn(names) =>
      names != [] && forall n :: n in names <==> n in live.items && n !in merged.items && Says(allowlist, n, true)
    case EnabledLeft(names) =>
      names != [] && forall n :: n in names <==> n in merged.items && n !in live.items && Says(allowlist, n, true)
    case Widens(tools) =>
      tools != {} && forall name :: name in tools <==> name in enabled && !IsIn(name, ref.fields["enabled_tools"])
    case TooMany(on, allowed) => on == |enabled| && allowed == AllowedCount(ref) && on > allowed
  }

  lemma RefusalIsSo(
    server: string, live: Json, docs: Inputs, today: string, current: Json, merged: Json, entry: Json, ref: Json,
    enabled: set<string>)
    requires AreEntries(server, docs, current, merged, entry, ref) && AreEnabled(enabled, docs.allowlist)
    requires Decide(server, live, docs, today).Refusal?
    ensures AreReadable(live, docs.allowlist, current, merged, entry, ref)
    ensures IsSo(Decide(server, live, docs, today).reason, live, docs.allowlist, merged, entry, ref, enabled)
  {
    ReadableExactly(server, live, docs, current, merged, entry, ref);
    EntryHolds(docs.mainCatalogue, server);
    EntryHolds(docs.baseline, server);
    EntryHolds(docs.reference, server);
    EnabledExactly(docs.allowlist);
    assert enabled == EnabledTools(Decisions(docs.allowlist).value);
    ObjectionIsSo(server, live, docs, merged, entry, ref);
  }

  lemma NamesOnExactly(names: seq<Json>, allowlist: Json)
    requires Decisions(allowlist).Some?
    ensures forall n :: n in DecidedAndOn(names, Decisions(allowlist).value) <==> n in names && Says(allowlist, n, true)
  {
    DecisionsExactly(allowlist);
  }

  lemma UndecidedExactly(names: seq<Json>, allowlist: Json)
    requires Decisions(allowlist).Some?
    ensures forall n :: n in NotDecided(names, Decisions(allowlist).value)
                   <==> n in names && !Says(allowlist, n, true) && !Says(allowlist, n, false)
  {
    DecisionsExactly(allowlist);
    var decisions := Decisions(allowlist).value;
    forall n: Json ensures n.Str? && n.s in decisions <==> Says(allowlist, n, true) || Says(allowlist, n, false) {
      if n.Str? && n.s in decisions {
        assert Says(allowlist, n, decisions[n.s]);
      }
    }
  }

  lemma ObjectionIsSo(server: string, live: Json, docs: Inputs, merged: Json, entry: Json, ref: Json)
    requires Readable(server, live, docs) && ObjectionTo(server, live, docs).Some?
    requires Entry(docs.mainCatalogue, server) == Some(merged)
    requires Entry(docs.baseline, server) == Some(entry) && Entry(docs.reference, server) == Some(ref)
    requires ref.Obj? && "enabled_tools" in ref.fields && "tools_enabled" in ref.fields
    requires ref.fields["tools_enabled"].Num? || ref.fields["tools_enabled"].Bool?
    ensures IsSo(ObjectionTo(server, live, docs).value, live, docs.allowlist, merged, entry, ref,
                 EnabledTools(Decisions(docs.allowlist).value))
  {
    var decisions := Decisions(docs.allowlist).value;
    var (added, gone) := (Missing(live.items, merged.items), Missing(merged.items, live.items));
    var (fields, refFields) := (DecisionFields(entry), DecisionFields(ref));
    ReasonIs(live.items, merged.items, fields, refFields, decisions, StringsOf(ref.fields["enabled_tools"]).value,
             IntOf(ref.fields["tools_enabled"]).value);
    match ObjectionTo(server, live, docs).value
    case BaselineEdited => UneditedExactly(entry, ref);
    case Undecided(_) => UndecidedExactly(added, docs.allowlist);
    case TurnsOn(_) => NamesOnExactly(added, docs.allowlist);
    case EnabledLeft(_) => NamesOnExactly(gone, docs.allowlist);
    case Widens(_) => StringsOfExactly(ref.fields["enabled_tools"]);
    case TooMany(_, _) =>
  }

  /** What each reason carries. */
  lemma ReasonIs(live: seq<Json>, merged: seq<Json>, fields: map<string, Json>, refFields: map<string, Json>,
                 decisions: map<string, bool>, allowed: set<string>, count: int)
    requires Objection(live, merged, fields, refFields, decisions, allowed, count).Some?
    ensures match Objection(live, merged, fields, refFields, decisions, allowed, count).value
            case BaselineEdited => !PyEq(Obj(fields), Obj(refFields))
            case Undecided(names) => names != [] && names == NotDecided(Missing(live, merged), decisions)
            case TurnsOn(names) => names != [] && names == DecidedAndOn(Missing(live, merged), decisions)
            case EnabledLeft(names) => names != [] && names == DecidedAndOn(Missing(merged, live), decisions)
            case Widens(tools) => tools != {} && tools == EnabledTools(decisions) - allowed
            case TooMany(on, most) => on == |EnabledTools(decisions)| && most == count && on > most
  {
    var enabled := EnabledTools(decisions);
    if !(enabled <= allowed) {
      var name :| name in enabled && name !in allowed;
      assert name in enabled - allowed;
    }
  }

  // ---------------------------------------------------------------- the lag report

  /** The live names: of each mapping its name, nothing for a missing one. */
  ghost predicate IsLiveName(tools: seq<Json>, n: Json) {
    exists i :: 0 <= i < |tools| && tools[i].Obj? && n == if "name" in tools[i].fields then tools[i].fields["name"] else Null
  }

  lemma {:induction false} LiveNamesExactly(tools: seq<Json>)
    ensures forall n :: n in LiveNames(tools) <==> IsLiveName(tools, n)
  {
    if tools != [] {
      LiveNamesExactly(tools[1..]);
      assert forall i :: 0 < i < |tools| ==> tools[i] == tools[1..][i - 1];
      forall n ensures n in LiveNames(tools) <==> IsLiveName(tools, n) {
        if IsLiveName(tools[1..], n) {
          var i :| 0 <= i < |tools| - 1 && tools[1..][i].Obj?
                   && n == if "name" in tools[1..][i].fields then tools[1..][i].fields["name"] else Null;
          assert tools[i + 1] == tools[1..][i];
        }
      }
    }
  }

  /** What is reported of a server whose committed entry is this list of names. */
  lemma LagExactly(server: string, tools: seq<Json>, catalogue: Json, want: seq<Json>)
    requires Holds(catalogue, server, Arr(want))
    ensures var (lag, live) := (CatalogueFileLag(server, tools, catalogue), LiveNames(tools));
      && (lag == None <==> live == [] || PyEq(Arr(want), Arr(live)))
      && (lag == Some(Differs) <==>
            live != [] && !PyEq(Arr(want), Arr(live)) && exists n :: (n in want) != IsLiveName(tools, n))
      && (lag == Some(Reordered) <==>
            live != [] && !PyEq(Arr(want), Arr(live)) && forall n :: n in want <==> IsLiveName(tools, n))
  {
    EntryHolds(catalogue, server);
    LiveNamesExactly(tools);
    var live := LiveNames(tools);
    NoMember(Missing(live, want));
    NoMember(Missing(want, live));
  }

  /** A server that the committed file does not have is reported with the number of its live tools. */
  lemma UncommittedLags(server: string, tools: seq<Json>, catalogue: Json)
    requires LiveNames(tools) != [] && forall entry :: !Holds(catalogue, server, entry)
    ensures CatalogueFileLag(server, tools, catalogue) == Some(NotCommitted(|LiveNames(tools)|))
  {
    EntryHolds(catalogue, server);
  }

  // ---------------------------------------------------------------- a tool that is added, and stays off

  /** One tool on, and a new one off. */
  function OneMore(live: string, added: string): Json {
    Allowlist([Tool(live, true), Tool(added, false)])
  }

  lemma OneMoreDecides(live: string, added: string)
    requires IsToolName(Str(live)) && IsToolName(Str(added)) && live != added
    ensures Decisions(OneMore(live, added)) == Some(map[live := true, added := false])
  {
    var tools := [Tool(live, true), Tool(added, false)];
    OneToolLast(live, true);
    LastToolReads([Tool(live, true)], added, false);
    assert [Tool(live, true)] + [Tool(added, false)] == tools;
    SwitchesDecide(tools, map[live := Bool(true)][added := Bool(false)], map[live := true, added := false]);
  }

  lemma AdditionIsAChange(server: string, live: string, added: string, today: string)
    requires IsToolName(Str(live)) && IsToolName(Str(added)) && live != added
    ensures var c := Decide(server, Arr([Str(live), Str(added)]), OneLiveTool(server, live, OneMore(live, added)), today);
      && c.Change? && c.added == [Str(added)] && c.gone == []
      && Holds(c.catalogue, server, Arr([Str(live), Str(added)]))
  {
    var (list, allowlist) := ([Str(live), Str(added)], OneMore(live, added));
    var docs := OneLiveTool(server, live, allowlist);
    OneMoreDecides(live, added);
    OneLiveToolIsReadable(server, live, allowlist);
    OneMoreIsMissing(Str(live), Str(added));
    ListIsReadable(server, list, live, allowlist);
    AdmitsOneMore(server, list, live, added, docs);
    EntryHolds(Decide(server, Arr(list), docs, today).catalogue, server);
    ChangeWritesOnlyItsEntries(server, Arr(list), docs, today);
  }

  lemma OneMoreIsMissing(live: Json, added: Json)
    requires live != added
    ensures Missing([live, added], [live]) == [added] && Missing([live], [live, added]) == []
  {
    var list := [live, added];
    assert list[1..] == [added] && [added][1..] == [] && [live][1..] == [];
    assert Missing([added], [live]) == [added] + Missing([], [live]);
    assert Missing(list, [live]) == [] + Missing([added], [live]);
  }

  lemma ListIsReadable(server: string, list: seq<Json>, live: string, allowlist: Json)
    requires Readable(server, Arr([Str(live)]), OneLiveTool(server, live, allowlist)) && IsLiveList(Arr(list))
    ensures Readable(server, Arr(list), OneLiveTool(server, live, allowlist))
  {
  }

  lemma AdmitsOneMore(server: string, list: seq<Json>, live: string, added: string, docs: Inputs)
    requires docs == OneLiveTool(server, live, OneMore(live, added)) && live != added
    requires Readable(server, Arr(list), docs) && Missing(list, [Str(live)]) == [Str(added)] && Missing([Str(live)], list) == []
    requires Decisions(docs.allowlist) == Some(map[live := true, added := false])
    ensures ObjectionTo(server, Arr(list), docs).None?
  {
    OneLiveToolIsReadable(server, live, docs.allowlist);
    OneMoreIsAdmitted(list, live, added, DecisionFields(Entry(docs.reference, server).value));
  }

  lemma OneMoreIsAdmitted(list: seq<Json>, live: string, added: string, fields: map<string, Json>)
    requires live != added && Missing(list, [Str(live)]) == [Str(added)] && Missing([Str(live)], list) == []
    ensures Objection(list, [Str(live)], fields, fields, map[live := true, added := false], {live}, 1) == None
  {
    var decisions := map[live := true, added := false];
    assert EnabledTools(decisions) == {live};
    assert [Str(added)][1..] == [];
    assert NotDecided([Str(added)], decisions) == [] && DecidedAndOn([Str(added)], decisions) == [];
  }

  /** Each server, and each new tool that the allowlist keeps off, has a repository in which a run adds the tool. */
  lemma SomeAdditionIsReady(server: string, live: string, added: string, digest: string) returns (repo: Repo, job: Job)
    requires IsServerId(server) && IsToolName(Str(live)) && IsToolName(Str(added)) && live != added
    ensures Ready(repo.main, job) && Lags(repo.main, job) && Unproposed(repo, job)
    ensures job == JobOf(server, Arr([Str(live), Str(added)]), digest)
    ensures Holds(repo.main[CatalogueFile].doc, server, Arr([Str(live)]))
  {
    var allowlist := OneMore(live, added);
    job := JobOf(server, Arr([Str(live), Str(added)]), digest);
    repo := Repo(MainWith(server, live, allowlist), map[], []);
    ProposalIsNoBump(server, digest);
    MainReads(server, live, allowlist);
    OneToolFiles(server, live, allowlist);
    OneEntryReads(server, live);
    OneMoreDecides(live, added);
    AdditionIsAChange(server, live, added, "");
    EntryHolds(repo.main[CatalogueFile].doc, server);
    AdditionLags(server, live, added, repo.main, job);
    NothingIsProposed(repo.main, job);
  }

  lemma AdditionLags(server: string, live: string, added: string, main: Docs, job: Job)
    requires HasEntries(main, server) && job.server == server && job.live == Arr([Str(live), Str(added)])
    requires Entry(main[CatalogueFile].doc, server) == Some(Arr([Str(live)]))
    ensures Lags(main, job)
  {
    SetEntryReads(main[CatalogueFile].doc, server, job.live, server);
    assert |[Str(live)]| != |[Str(live), Str(added)]|;
  }
}

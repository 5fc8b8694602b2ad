/**
 Versions and version constraints of scripts/validate-agent-platform.py: a constraint such
 as ">=1.2 <2" is found piece by piece by a regular expression that skips what it does not
 know, so a second check has to make sure that nothing was skipped.
 */
module VersionConstraint {
  import opened Wrappers
  import opened Text
  import opened Seqs

  type Version = seq<nat>

  // ---------------------------------------------------------------- versions

  predicate IsComponent(part: string) {
    part != "" && AllDigits(part)
  }

  predicate AreComponents(parts: seq<string>) {
    forall i :: 0 <= i < |parts| ==> IsComponent(parts[i])
  }

  function Values(parts: seq<string>): (v: Version)
    requires AreComponents(parts)
    ensures |v| == |parts| && forall i :: 0 <= i < |v| ==> v[i] == Value(parts[i])
  {
    if parts == [] then [] else [Value(parts[0])] + Values(parts[1..])
  }

  /** A dotted list of decimal numbers, read. */
  function VersionOf(s: string): Option<Version> {
    if AreComponents(Split(s, '.')) then Some(Values(Split(s, '.'))) else None
  }

  /** parse_version() */
  method ParseVersion(s: string) returns (version: Option<Version>)
    ensures version == VersionOf(s)
  {
    var parts, out := Split(s, '.'), [];
    for i := 0 to |parts|
      invariant AreComponents(parts[..i])
      invariant |out| == i && forall j :: 0 <= j < i ==> out[j] == Value(parts[j])
    {
      if !IsComponent(parts[i]) {
        assert !AreComponents(parts);
        return None;
      }
      out := out + [Value(parts[i])];
    }
    assert parts[..|parts|] == parts;
    assert out == Values(parts);
    version := Some(out);
  }

  // ---------------------------------------------------------------- comparing

  function Max(a: nat, b: nat): nat {
    if a < b then b else a
  }

  function Zeros(n: nat): (z: Version)
    ensures |z| == n && forall i :: 0 <= i < n ==> z[i] == 0
  {
    if n == 0 then [] else Zeros(n - 1) + [0]
  }

  /** _pad() */
  function Pad(a: Version, b: Version): (Version, Version) {
    var n := Max(|a|, |b|);
    (a + Zeros(n - |a|), b + Zeros(n - |b|))
  }

  /** Python's < on tuples. */
  predicate TupleLess(a: Version, b: Version) {
    b != [] && (a == [] || a[0] < b[0] || (a[0] == b[0] && TupleLess(a[1..], b[1..])))
  }

  predicate Less(a: Version, b: Version) {
    TupleLess(Pad(a, b).0, Pad(a, b).1)
  }

  predicate Same(a: Version, b: Version) {
    Pad(a, b).0 == Pad(a, b).1
  }

  datatype Op = Ge | Le | Eq | Gt | Lt

  /** One comparison of version_satisfies. */
  predicate Holds(op: Op, a: Version, b: Version) {
    match op
    case Ge => !Less(a, b)
    case Le => Less(a, b) || Same(a, b)
    case Gt => !Less(a, b) && !Same(a, b)
    case Lt => Less(a, b)
    case Eq => Same(a, b)
  }

  /** The component at k, zero where there is none. */
  function At(v: Version, k: nat): nat {
    if k < |v| then v[k] else 0
  }

  ghost predicate SameAs(a: Version, b: Version) {
    forall k: nat :: At(a, k) == At(b, k)
  }

  /** a is smaller at the first component where the two differ. */
  predicate SmallerAt(a: Version, b: Version, k: nat) {
    At(a, k) < At(b, k) && forall j :: 0 <= j < k ==> At(a, j) == At(b, j)
  }

  predicate Smaller(a: Version, b: Version) {
    exists k :: 0 <= k < Max(|a|, |b|) && SmallerAt(a, b, k)
  }

  lemma {:induction false} LessIsSmaller(a: Version, b: Version) returns (k: nat)
    requires |a| == |b| && TupleLess(a, b)
    ensures k < |a| && SmallerAt(a, b, k)
  {
    if a[0] < b[0] {
      k := 0;
    } else {
      var j := LessIsSmaller(a[1..], b[1..]);
      TailSmaller(a, b, j);
      k := j + 1;
    }
  }

  lemma {:induction false} SmallerIsLess(a: Version, b: Version, k: nat)
    requires k < |a| == |b| && SmallerAt(a, b, k)
    ensures TupleLess(a, b)
  {
    if k > 0 {
      assert At(a, 0) == At(b, 0);
      TailSmaller(a, b, k - 1);
      SmallerIsLess(a[1..], b[1..], k - 1);
    }
  }

  lemma TupleLessAt(a: Version, b: Version)
    requires |a| == |b|
    ensures TupleLess(a, b) <==> exists k :: 0 <= k < |a| && SmallerAt(a, b, k)
  {
    if TupleLess(a, b) {
      var k := LessIsSmaller(a, b);
    }
    if k :| 0 <= k < |a| && SmallerAt(a, b, k) {
      SmallerIsLess(a, b, k);
    }
  }

  lemma TailSmaller(a: Version, b: Version, k: nat)
    requires |a| == |b| > 0 && a[0] == b[0]
    ensures SmallerAt(a[1..], b[1..], k) == SmallerAt(a, b, k + 1)
  {
    assert forall j: nat :: At(a, j + 1) == At(a[1..], j) && At(b, j + 1) == At(b[1..], j);
    assert forall j :: 0 < j <= k ==> At(a, j) == At(a[1..], j - 1) && At(b, j) == At(b[1..], j - 1);
  }

  /** The padded comparison is that of the two sequences continued by zeros. */
  lemma PaddingIsZeros(a: Version, b: Version)
    ensures Less(a, b) == Smaller(a, b)
    ensures Same(a, b) == SameAs(a, b)
  {
    var (x, y) := Pad(a, b);
    TupleLessAt(x, y);
    assert forall k: nat :: At(x, k) == At(a, k) && At(y, k) == At(b, k);
    assert forall k: nat :: SmallerAt(x, y, k) == SmallerAt(a, b, k);
    if Same(a, b) {
      assert forall k: nat :: At(a, k) == At(x, k) == At(y, k) == At(b, k);
    }
    if SameAs(a, b) {
      assert forall k :: 0 <= k < |x| ==> x[k] == At(a, k) == At(b, k) == y[k];
    }
  }

  /** The first component below `to` where they differ. */
  lemma {:induction false} Difference(a: Version, b: Version, to: nat) returns (k: nat)
    ensures k <= to && forall j :: 0 <= j < k ==> At(a, j) == At(b, j)
    ensures k < to ==> At(a, k) != At(b, k)
  {
    if to == 0 {
      return 0;
    }
    k := Difference(a, b, to - 1);
    if k == to - 1 && At(a, k) == At(b, k) {
      k := to;
    }
  }

  /** Any two versions are comparable, in exactly one way. */
  lemma ComparisonIsTotal(a: Version, b: Version)
    ensures Less(a, b) || Same(a, b) || Less(b, a)
    ensures !(Less(a, b) && Same(a, b)) && !(Less(a, b) && Less(b, a))
    ensures Same(a, b) == Same(b, a)
  {
    PaddingIsZeros(a, b);
    PaddingIsZeros(b, a);
    var n := Max(|a|, |b|);
    var k := Difference(a, b, n);
    assert Max(|b|, |a|) == n;
    if k == n {
      assert forall j: nat :: j >= n ==> At(a, j) == 0 && At(b, j) == 0;
    } else if At(a, k) < At(b, k) {
      assert SmallerAt(a, b, k);
    } else {
      assert SmallerAt(b, a, k);
    }
  }

  /** a <= b <= c, so a <= c, and strictly when one of the two is strict. */
  lemma ComparisonIsTransitive(a: Version, b: Version, c: Version)
    requires (Less(a, b) || Same(a, b)) && (Less(b, c) || Same(b, c))
    ensures if Same(a, b) && Same(b, c) then Same(a, c) else Less(a, c)
  {
    PaddingIsZeros(a, b);
    PaddingIsZeros(b, c);
    PaddingIsZeros(a, c);
    if Same(a, b) && Same(b, c) {
      assert forall k: nat :: At(a, k) == At(b, k) == At(c, k);
    } else {
      SmallerChain(a, b, c);
    }
  }

  lemma SmallerChain(a: Version, b: Version, c: Version)
    requires (Smaller(a, b) || SameAs(a, b)) && (Smaller(b, c) || SameAs(b, c))
    requires Smaller(a, b) || Smaller(b, c)
    ensures Smaller(a, c)
  {
    var k: nat;
    if Smaller(a, b) && Smaller(b, c) {
      var i :| 0 <= i < Max(|a|, |b|) && SmallerAt(a, b, i);
      var j :| 0 <= j < Max(|b|, |c|) && SmallerAt(b, c, j);
      k := if i < j then i else j;
    } else if Smaller(a, b) {
      k :| 0 <= k < Max(|a|, |b|) && SmallerAt(a, b, k);
    } else {
      k :| 0 <= k < Max(|b|, |c|) && SmallerAt(b, c, k);
    }
    assert SmallerAt(a, c, k);
    // A component above zero is a component that is there.
    assert k < |c|;
  }

  // ---------------------------------------------------------------- comparators in a text

  // One match of COMPAT_RE: the operator, the whitespace after it, the number as written.
  datatype Comparator = Comparator(op: Op, spaces: string, number: string)

  // A comparator and the text that was skipped before it.
  datatype Piece = Piece(skipped: string, comparator: Comparator)

  function OpText(op: Op): string {
    match op
    case Ge => ['>', '=']
    case Le => ['<', '=']
    case Eq => ['=', '=']
    case Gt => ['>']
    case Lt => ['<']
  }

  function ComparatorText(c: Comparator): string {
    OpText(c.op) + (c.spaces + c.number)
  }

  function CountDigits(s: string): (n: nat)
    ensures n <= |s| && (forall i :: 0 <= i < n ==> IsDigit(s[i])) && (n < |s| ==> !IsDigit(s[n]))
  {
    if s == "" || !IsDigit(s[0]) then 0 else 1 + CountDigits(s[1..])
  }

  function CountSpaces(s: string): (n: nat)
    ensures n <= |s| && (forall i :: 0 <= i < n ==> IsSpace(s[i])) && (n < |s| ==> !IsSpace(s[n]))
  {
    if s == "" || !IsSpace(s[0]) then 0 else 1 + CountSpaces(s[1..])
  }

  /** The longest dotted list of numbers at the head of s, zero when there is none. */
  function CountNumber(s: string): (n: nat)
    ensures n <= |s|
    decreases |s|
  {
    var d := CountDigits(s);
    if d > 0 && d < |s| && s[d] == '.' && CountDigits(s[d + 1..]) > 0
    then d + 1 + CountNumber(s[d + 1..]) else d
  }

  /** The operator at the head of s: the two-character ones are tried first. */
  function ReadOp(s: string): Option<Op> {
    if |s| >= 2 && s[0] == '>' && s[1] == '=' then Some(Ge)
    else if |s| >= 2 && s[0] == '<' && s[1] == '=' then Some(Le)
    else if |s| >= 2 && s[0] == '=' && s[1] == '=' then Some(Eq)
    else if |s| >= 1 && s[0] == '>' then Some(Gt)
    else if |s| >= 1 && s[0] == '<' then Some(Lt)
    else None
  }

  lemma PutTogether(op: string, s: string, i: nat, n: nat)
    requires i <= |s| && n <= |s[i..]|
    ensures op + s == (op + (s[..i] + s[i..][..n])) + s[i..][n..]
  {
    CutAt(s, i);
    CutAt(s[i..], n);
    Regroup(s[..i], s[i..][..n], s[i..][n..]);
    Regroup(op, s[..i] + s[i..][..n], s[i..][n..]);
  }

  function ReadNumber(op: Op, s: string): (r: Option<(Comparator, string)>)
    ensures r.Some? ==> |r.value.1| < |s|
  {
    var spaces := CountSpaces(s);
    var n := CountNumber(s[spaces..]);
    if n == 0 then None
    else Some((Comparator(op, s[..spaces], s[spaces..][..n]), s[spaces..][n..]))
  }

  /** COMPAT_RE at the head of s: the comparator and what follows it. */
  function Match(s: string): (r: Option<(Comparator, string)>)
    ensures r.Some? ==> |r.value.1| < |s|
  {
    match ReadOp(s)
    case None => None
    case Some(op) => ReadNumber(op, s[|OpText(op)|..])
  }

  lemma OpStands(s: string)
    requires ReadOp(s).Some?
    ensures OpText(ReadOp(s).value) <= s
  {
  }

  /** What a match takes, put back together. */
  lemma MatchIsTheText(s: string)
    requires Match(s).Some?
    ensures s == ComparatorText(Match(s).value.0) + Match(s).value.1
  {
    var op := ReadOp(s).value;
    OpStands(s);
    AfterPrefix(OpText(op), s);
    var rest := s[|OpText(op)|..];
    PutTogether(OpText(op), rest, CountSpaces(rest), CountNumber(rest[CountSpaces(rest)..]));
  }

  /** Where the next match starts, the length of s when there is none. */
  function Seek(s: string): (i: nat)
    ensures i <= |s|
  {
    if s == "" || Match(s).Some? then 0 else 1 + Seek(s[1..])
  }

  lemma RestOfTail(s: string, j: nat)
    requires s != "" && j < |s|
    ensures s[1..][j..] == s[j + 1..]
  {
  }

  /** The search stops at a match, and passes over none. */
  lemma {:induction false} SeekFinds(s: string)
    ensures Seek(s) < |s| ==> Match(s[Seek(s)..]).Some?
    ensures forall j :: 0 <= j < Seek(s) ==> Match(s[j..]).None?
  {
    if s != "" {
      WholeOf(s);
      if Match(s).None? {
        SeekFinds(s[1..]);
        NoEarlierMatch(s, Seek(s[1..]));
      }
    }
  }

  lemma WholeOf(s: string)
    ensures s[0..] == s
  {
  }

  /** A search that finds nothing at the head of s goes on behind it. */
  lemma NoEarlierMatch(s: string, i: nat)
    requires s != "" && i <= |s| - 1 && Match(s).None? && forall j :: 0 <= j < i ==> Match(s[1..][j..]).None?
    ensures s[1..][i..] == s[i + 1..]
    ensures forall j :: 0 <= j < i + 1 ==> Match(s[j..]).None?
  {
    RestOfTail(s, i);
    forall j | 0 <= j < i + 1 ensures Match(s[j..]).None? {
      if j == 0 {
        WholeOf(s);
      } else {
        RestOfTail(s, j - 1);
      }
    }
  }

  // finditer: the matches, each with the text skipped before it, and the text after the last.
  datatype Found = Found(pieces: seq<Piece>, tail: string)

  function FindAll(s: string): Found
    decreases |s|
  {
    var i := Seek(s);
    if i == |s| then Found([], s)
    else
      SeekFinds(s);
      var (c, rest) := Match(s[i..]).value;
      var found := FindAll(rest);
      Found([Piece(s[..i], c)] + found.pieces, found.tail)
  }

  /** re.sub(r"\s+", "", s) */
  function Strip(s: string): string {
    if s == "" then "" else (if IsSpace(s[0]) then "" else [s[0]]) + Strip(s[1..])
  }

  /** The matched text put together. */
  function Consumed(pieces: seq<Piece>): string {
    if pieces == [] then "" else ComparatorText(pieces[0].comparator) + Consumed(pieces[1..])
  }

  predicate AreRead(pieces: seq<Piece>) {
    forall i :: 0 <= i < |pieces| ==> VersionOf(pieces[i].comparator.number).Some?
  }

  function Bounds(pieces: seq<Piece>): (r: seq<(Op, Version)>)
    requires AreRead(pieces)
    ensures |r| == |pieces|
    ensures forall i :: 0 <= i < |r| ==>
              r[i] == (pieces[i].comparator.op, VersionOf(pieces[i].comparator.number).value)
  {
    if pieces == [] then []
    else [(pieces[0].comparator.op, VersionOf(pieces[0].comparator.number).value)] + Bounds(pieces[1..])
  }

  /** parse_compatibility() */
  function ParseCompatibility(s: string): Option<seq<(Op, Version)>> {
    var pieces := FindAll(s).pieces;
    if pieces == [] || Strip(s) != Strip(Consumed(pieces)) || !AreRead(pieces) then None else Some(Bounds(pieces))
  }

  predicate AllHold(v: Version, bounds: seq<(Op, Version)>) {
    forall i :: 0 <= i < |bounds| ==> Holds(bounds[i].0, v, bounds[i].1)
  }

  /** The answer for a version and a constraint, None when one of the two is refused. */
  function Answer(version: Option<Version>, bounds: Option<seq<(Op, Version)>>): Option<bool> {
    if version.None? || bounds.None? then None else Some(AllHold(version.value, bounds.value))
  }

  function Satisfies(version: string, constraint: string): Option<bool> {
    Answer(VersionOf(version), ParseCompatibility(constraint))
  }

  /** version_satisfies() */
  method VersionSatisfies(version: string, constraint: string) returns (r: Option<bool>)
    ensures r == Satisfies(version, constraint)
  {
    var v := ParseVersion(version);
    var bounds := ParseCompatibility(constraint);
    if v.None? || bounds.None? {
      return None;
    }
    var all := HoldAll(v.value, bounds.value);
    r := Some(all);
  }

  method HoldAll(v: Version, bounds: seq<(Op, Version)>) returns (all: bool)
    ensures all == AllHold(v, bounds)
  {
    for i := 0 to |bounds|
      invariant forall j :: 0 <= j < i ==> Holds(bounds[j].0, v, bounds[j].1)
    {
      if !Holds(bounds[i].0, v, bounds[i].1) {
        return false;
      }
    }
    all := true;
  }

  // ---------------------------------------------------------------- what a constraint accepts

  lemma SameAreInterchangeable(op: Op, a: Version, b: Version, bound: Version)
    requires Same(a, b)
    ensures Holds(op, a, bound) == Holds(op, b, bound)
    ensures Holds(op, bound, a) == Holds(op, bound, b)
  {
    PaddingIsZeros(a, b);
    PaddingIsZeros(a, bound);
    PaddingIsZeros(b, bound);
    PaddingIsZeros(bound, a);
    PaddingIsZeros(bound, b);
    assert forall k: nat :: At(a, k) == At(b, k);
    assert forall k: nat :: SmallerAt(a, bound, k) == SmallerAt(b, bound, k);
    assert forall k: nat :: SmallerAt(bound, a, k) == SmallerAt(bound, b, k);
    SmallerIsShort(a, bound);
    SmallerIsShort(b, bound);
    SmallerIsShort(bound, a);
    SmallerIsShort(bound, b);
  }

  /** A component above zero is one that is there. */
  lemma SmallerIsShort(a: Version, b: Version)
    ensures forall k: nat :: SmallerAt(a, b, k) ==> k < |b|
  {
  }

  lemma SplitAfterFirst(first: string, rest: string, part: string)
    requires '.' !in first && Split(rest + (['.'] + part), '.') == Split(rest, '.') + [part]
    ensures Split((first + ['.'] + rest) + (['.'] + part), '.') == Split(first + ['.'] + rest, '.') + [part]
  {
    SplitAfter(first, '.', rest);
    SplitAfter(first, '.', rest + (['.'] + part));
    Regroup(first + ['.'], rest, ['.'] + part);
  }

  lemma {:induction false} ComponentsAppend(s: string, part: string)
    requires '.' !in part
    ensures Split(s + (['.'] + part), '.') == Split(s, '.') + [part]
    decreases |s|
  {
    var i := Index(s, '.');
    if i == |s| {
      SplitWhole(part, '.');
      SplitAfter(s, '.', part);
      Regroup(s, ['.'], part);
    } else {
      ComponentsAppend(s[i + 1..], part);
      assert s == s[..i] + ['.'] + s[i + 1..];
      SplitAfterFirst(s[..i], s[i + 1..], part);
    }
  }

  lemma ValuesAppend(parts: seq<string>, part: string)
    requires AreComponents(parts) && IsComponent(part)
    ensures AreComponents(parts + [part]) && Values(parts + [part]) == Values(parts) + [Value(part)]
  {
    var (l, r) := (Values(parts + [part]), Values(parts) + [Value(part)]);
    assert forall i :: 0 <= i < |l| ==> l[i] == r[i];
  }

  /** A version continued by ".0", read. */
  lemma TrailingZero(version: string, longer: string)
    requires longer == version + (['.'] + ['0'])
    ensures VersionOf(longer).Some? == VersionOf(version).Some?
    ensures VersionOf(longer).Some? ==> VersionOf(longer).value == VersionOf(version).value + [0]
  {
    var parts := Split(version, '.');
    ComponentsAppend(version, ['0']);
    if AreComponents(parts) {
      ValuesAppend(parts, ['0']);
      assert Value(['0'][..0]) == 0;
    } else {
      var i :| 0 <= i < |parts| && !IsComponent(parts[i]);
      assert !IsComponent((parts + [['0']])[i]);
    }
  }

  lemma AnswerWithZero(v: Version, bounds: Option<seq<(Op, Version)>>)
    ensures Answer(Some(v + [0]), bounds) == Answer(Some(v), bounds)
  {
    var w := v + [0];
    PaddingIsZeros(v, w);
    assert Same(v, w);
    forall op, bound ensures Holds(op, v, bound) == Holds(op, w, bound) {
      SameAreInterchangeable(op, v, w, bound);
    }
  }

  /** Appending ".0" to a version changes neither whether it is one nor what it satisfies. */
  lemma TrailingZeroIsNothing(version: string, constraint: string)
    ensures Satisfies(version + (['.'] + ['0']), constraint) == Satisfies(version, constraint)
  {
    TrailingZero(version, version + (['.'] + ['0']));
    if VersionOf(version).Some? {
      AnswerWithZero(VersionOf(version).value, ParseCompatibility(constraint));
    }
  }

  predicate AtMost(a: Version, b: Version) {
    Less(a, b) || Same(a, b)
  }

  lemma HoldsBetween(op: Op, low: Version, v: Version, high: Version, bound: Version)
    requires AtMost(low, v) && AtMost(v, high) && Holds(op, low, bound) && Holds(op, high, bound)
    ensures Holds(op, v, bound)
  {
    ComparisonIsTotal(v, bound);
    ComparisonIsTotal(low, bound);
    ComparisonIsTotal(high, bound);
    if AtMost(v, bound) {
      ComparisonIsTransitive(low, v, bound);
    }
    if AtMost(bound, v) {
      ComparisonIsTransitive(bound, v, high);
    }
    ComparisonIsTotal(bound, high);
  }

  lemma AnswerBetween(low: Version, v: Version, high: Version, bounds: Option<seq<(Op, Version)>>)
    requires AtMost(low, v) && AtMost(v, high)
    requires Answer(Some(low), bounds) == Some(true) && Answer(Some(high), bounds) == Some(true)
    ensures Answer(Some(v), bounds) == Some(true)
  {
    forall i | 0 <= i < |bounds.value| ensures Holds(bounds.value[i].0, v, bounds.value[i].1) {
      HoldsBetween(bounds.value[i].0, low, v, high, bounds.value[i].1);
    }
  }

  /** The versions a constraint accepts have no hole: what lies between two of them is accepted too. */
  lemma SatisfyingSetIsConvex(low: string, version: string, high: string, constraint: string)
    requires Satisfies(low, constraint) == Some(true) && Satisfies(high, constraint) == Some(true)
    requires VersionOf(version).Some?
    requires AtMost(VersionOf(low).value, VersionOf(version).value)
    requires AtMost(VersionOf(version).value, VersionOf(high).value)
    ensures Satisfies(version, constraint) == Some(true)
  {
    AnswerBetween(VersionOf(low).value, VersionOf(version).value, VersionOf(high).value, ParseCompatibility(constraint));
  }

  // ---------------------------------------------------------------- the grammar of constraints

  /** An operator, optional whitespace, a version. */
  predicate IsComparator(c: Comparator) {
    IsBlank(c.spaces) && VersionOf(c.number).Some?
  }

  predicate AreComparators(pieces: seq<Piece>) {
    forall i :: 0 <= i < |pieces| ==> IsComparator(pieces[i].comparator)
  }

  predicate AllBlank(pieces: seq<Piece>, tail: string) {
    (forall i :: 0 <= i < |pieces| ==> IsBlank(pieces[i].skipped)) && IsBlank(tail)
  }

  function Write(pieces: seq<Piece>, tail: string): string {
    if pieces == [] then tail
    else pieces[0].skipped + (ComparatorText(pieces[0].comparator) + Write(pieces[1..], tail))
  }

  /** Comparators, at least one, with optional whitespace before, between and after them. */
  predicate IsConstraintText(s: string, pieces: seq<Piece>, tail: string) {
    pieces != [] && AreComparators(pieces) && AllBlank(pieces, tail) && s == Write(pieces, tail)
  }

  /** A version starts with a digit. */
  lemma VersionStarts(w: string)
    requires VersionOf(w).Some?
    ensures w != "" && IsDigit(w[0])
  {
    assert IsComponent(Split(w, '.')[0]);
  }

  lemma VersionAfter(first: string, rest: string)
    requires '.' !in first
    ensures VersionOf(first + ['.'] + rest).Some? <==> IsComponent(first) && VersionOf(rest).Some?
  {
    SplitAfter(first, '.', rest);
    var parts := [first] + Split(rest, '.');
    if AreComponents(parts) {
      assert parts[0] == first && forall i :: 0 <= i < |parts| - 1 ==> parts[i + 1] == Split(rest, '.')[i];
    }
  }

  lemma TakeAcross(s: string, d: nat, c: char, m: nat)
    requires d < |s| && s[d] == c && m <= |s[d + 1..]|
    ensures s[..d + 1 + m] == s[..d] + [c] + s[d + 1..][..m]
  {
  }

  lemma LongerVersion(s: string, d: nat, m: nat)
    requires 0 < d < |s| && m <= |s[d + 1..]| && s[d] == '.' && AllDigits(s[..d])
    requires VersionOf(s[d + 1..][..m]).Some?
    ensures VersionOf(s[..d + 1 + m]).Some?
  {
    TakeAcross(s, d, '.', m);
    VersionAfter(s[..d], s[d + 1..][..m]);
  }

  lemma OneNumberIsAVersion(w: string)
    requires IsComponent(w)
    ensures VersionOf(w).Some?
  {
    SplitWhole(w, '.');
  }

  lemma CountedFurther(s: string, d: nat)
    requires d == CountDigits(s) && 0 < d < |s| && s[d] == '.' && CountDigits(s[d + 1..]) > 0
    ensures CountNumber(s) == d + 1 + CountNumber(s[d + 1..])
  {
  }

  /** What the number pattern takes is a version. */
  lemma {:induction false} CountedIsAVersion(s: string)
    requires CountNumber(s) > 0
    ensures VersionOf(s[..CountNumber(s)]).Some?
    decreases |s|
  {
    var d := CountDigits(s);
    CountedDigits(s);
    if d < |s| && s[d] == '.' && CountDigits(s[d + 1..]) > 0 {
      CountedDigits(s[d + 1..]);
      CountedIsAVersion(s[d + 1..]);
      LongerVersion(s, d, CountNumber(s[d + 1..]));
      CountedFurther(s, d);
    } else {
      OneNumberIsAVersion(s[..d]);
    }
  }

  lemma CountedDigits(s: string)
    ensures AllDigits(s[..CountDigits(s)])
    ensures CountNumber(s) > 0 <==> CountDigits(s) > 0
  {
  }

  lemma {:induction false} DigitsCounted(w: string, rest: string)
    requires AllDigits(w) && (rest != "" ==> !IsDigit(rest[0]))
    ensures CountDigits(w + rest) == |w|
  {
    if w == "" {
      assert w + rest == rest;
    } else {
      DigitsCounted(w[1..], rest);
      assert (w + rest)[1..] == w[1..] + rest;
    }
  }

  lemma NumberGoesOn(first: string, more: string)
    requires IsComponent(first) && more != "" && IsDigit(more[0])
    ensures CountNumber(first + (['.'] + more)) == |first| + 1 + CountNumber(more)
  {
    DigitsCounted(first, ['.'] + more);
    Regroup(first, ['.'], more);
    AfterFirst(first + ['.'], more);
    assert (first + ['.'] + more)[|first|] == '.';
  }

  lemma NumberEnds(w: string, rest: string)
    requires IsComponent(w) && (rest != "" ==> !IsDigit(rest[0]) && rest[0] != '.')
    ensures CountNumber(w + rest) == |w|
  {
    DigitsCounted(w, rest);
    assert rest != "" ==> (w + rest)[|w|] == rest[0];
  }

  lemma Reassociate(a: string, b: string, c: string, d: string)
    ensures a + b + c + d == a + (b + (c + d))
  {
  }

  /** It takes the whole of a version that no digit and no dot follows. */
  lemma {:induction false} VersionIsCounted(w: string, rest: string)
    requires VersionOf(w).Some? && (rest != "" ==> !IsDigit(rest[0]) && rest[0] != '.')
    ensures CountNumber(w + rest) == |w|
    decreases |w|
  {
    var i := Index(w, '.');
    var first := w[..i];
    if i == |w| {
      SplitWhole(w, '.');
      assert IsComponent(Split(w, '.')[0]);
      NumberEnds(w, rest);
    } else {
      var more := w[i + 1..];
      assert w == first + ['.'] + more;
      VersionAfter(first, more);
      VersionStarts(more);
      VersionIsCounted(more, rest);
      NumberGoesOn(first, more + rest);
      Reassociate(first, ['.'], more, rest);
    }
  }

  predicate FollowsAComparator(rest: string) {
    rest != "" ==> IsSpace(rest[0]) || rest[0] == '<' || rest[0] == '>' || rest[0] == '='
  }

  lemma NumberIsRead(c: Comparator, rest: string)
    requires IsComparator(c) && FollowsAComparator(rest)
    ensures ReadNumber(c.op, c.spaces + c.number + rest) == Some((c, rest))
  {
    var (s, n) := (c.spaces + c.number + rest, |c.spaces|);
    VersionStarts(c.number);
    assert s[n] == c.number[0] && forall i :: 0 <= i < n ==> s[i] == c.spaces[i];
    assert CountSpaces(s) == n;
    assert s[n..] == c.number + rest && s[..n] == c.spaces;
    assert s[n..][..|c.number|] == c.number && s[n..][|c.number|..] == rest;
    VersionIsCounted(c.number, rest);
  }

  /** A comparator is matched whole. */
  lemma ComparatorIsMatched(c: Comparator, rest: string)
    requires IsComparator(c) && FollowsAComparator(rest)
    ensures Match(ComparatorText(c) + rest) == Some((c, rest))
  {
    var (op, body) := (OpText(c.op), c.spaces + c.number + rest);
    VersionStarts(c.number);
    Regroup(op, c.spaces + c.number, rest);
    AfterFirst(op, body);
    assert IsSpace(body[0]) || IsDigit(body[0]);
    OpIsRead(c.op, body);
    NumberIsRead(c, rest);
  }

  lemma OpIsRead(op: Op, body: string)
    requires body != "" && body[0] != '='
    ensures ReadOp(OpText(op) + body) == Some(op)
  {
    assert (OpText(op) + body)[|OpText(op)|] == body[0];
  }

  lemma NoMatchAtASpace(s: string)
    requires s == "" || IsSpace(s[0])
    ensures Match(s).None?
  {
  }

  /** A blank is no place for a match, so the search goes on to the comparator behind it. */
  lemma BlankIsSkipped(blank: string, s: string)
    requires IsBlank(blank) && (s == "" || Match(s).Some?)
    ensures Seek(blank + s) == |blank|
  {
    var text := blank + s;
    forall j | 0 <= j < |blank| ensures Match(text[j..]).None? {
      assert text[j..][0] == blank[j];
      NoMatchAtASpace(text[j..]);
    }
    SeekFinds(text);
    assert text[|blank|..] == s;
  }

  lemma WrittenFollows(pieces: seq<Piece>, tail: string)
    requires AllBlank(pieces, tail)
    ensures FollowsAComparator(Write(pieces, tail))
  {
    if pieces != [] && pieces[0].skipped == "" {
      assert Write(pieces, tail)[0] == OpText(pieces[0].comparator.op)[0];
    }
  }

  /** A text of the grammar is taken apart into exactly what it was written from. */
  lemma {:induction false} WrittenIsFound(pieces: seq<Piece>, tail: string)
    requires AreComparators(pieces) && AllBlank(pieces, tail)
    ensures FindAll(Write(pieces, tail)) == Found(pieces, tail)
  {
    if pieces == [] {
      NothingIsFound(tail);
    } else {
      WrittenIsFound(pieces[1..], tail);
      WrittenFollows(pieces[1..], tail);
      FirstIsFound(pieces[0], Write(pieces[1..], tail));
      FirstAndRest(pieces);
    }
  }

  lemma NothingIsFound(tail: string)
    requires IsBlank(tail)
    ensures FindAll(tail) == Found([], tail)
  {
    BlankIsSkipped(tail, "");
    assert tail + "" == tail;
  }

  lemma FirstIsFound(p: Piece, rest: string)
    requires IsBlank(p.skipped) && IsComparator(p.comparator) && FollowsAComparator(rest)
    ensures FindAll(p.skipped + (ComparatorText(p.comparator) + rest))
         == Found([p] + FindAll(rest).pieces, FindAll(rest).tail)
  {
    ComparatorIsMatched(p.comparator, rest);
    var matched := ComparatorText(p.comparator) + rest;
    BlankIsSkipped(p.skipped, matched);
    FoundNext(p, matched, rest);
  }

  lemma FoundNext(p: Piece, matched: string, rest: string)
    requires Match(matched) == Some((p.comparator, rest)) && matched != "" && Seek(p.skipped + matched) == |p.skipped|
    ensures FindAll(p.skipped + matched) == Found([p] + FindAll(rest).pieces, FindAll(rest).tail)
  {
    var s := p.skipped + matched;
    assert s[|p.skipped|..] == matched && s[..|p.skipped|] == p.skipped;
  }

  lemma MatchIsAComparator(s: string)
    requires Match(s).Some?
    ensures IsComparator(Match(s).value.0)
  {
    var op := ReadOp(s).value;
    var body := s[|OpText(op)|..];
    CountedIsAVersion(body[CountSpaces(body)..]);
  }

  /** Whatever the text, the pieces and the rest put together are the text. */
  lemma {:induction false} FoundIsTheText(s: string)
    ensures Write(FindAll(s).pieces, FindAll(s).tail) == s
    ensures AreComparators(FindAll(s).pieces)
    decreases |s|
  {
    if Seek(s) < |s| {
      var p, rest := FirstPiece(s);
      FoundIsTheText(rest);
      WriteFirst(p, FindAll(rest).pieces, FindAll(rest).tail);
    }
  }

  lemma FirstPiece(s: string) returns (p: Piece, rest: string)
    requires Seek(s) < |s|
    ensures |rest| < |s| && s == p.skipped + (ComparatorText(p.comparator) + rest) && IsComparator(p.comparator)
    ensures FindAll(s) == Found([p] + FindAll(rest).pieces, FindAll(rest).tail)
  {
    var i := Seek(s);
    SeekFinds(s);
    MatchIsTheText(s[i..]);
    p, rest := Piece(s[..i], Match(s[i..]).value.0), Match(s[i..]).value.1;
    MatchIsAComparator(s[i..]);
    CutAt(s, i);
    FoundNext(p, s[i..], rest);
  }

  lemma WriteFirst(p: Piece, pieces: seq<Piece>, tail: string)
    ensures Write([p] + pieces, tail) == p.skipped + (ComparatorText(p.comparator) + Write(pieces, tail))
    ensures IsComparator(p.comparator) && AreComparators(pieces) ==> AreComparators([p] + pieces)
  {
    assert ([p] + pieces)[1..] == pieces;
  }

  lemma {:induction false} StripOfBoth(a: string, b: string)
    ensures Strip(a + b) == Strip(a) + Strip(b)
  {
    if a == "" {
      assert a + b == b;
    } else {
      StripOfBoth(a[1..], b);
      RestOfBoth(a, b);
      Regroup(if IsSpace(a[0]) then "" else [a[0]], Strip(a[1..]), Strip(b));
    }
  }

  lemma {:induction false} StripOfBlank(s: string)
    ensures Strip(s) == "" <==> IsBlank(s)
  {
    if s != "" {
      StripOfBlank(s[1..]);
      assert IsBlank(s) <==> IsSpace(s[0]) && IsBlank(s[1..]) by {
        assert forall i :: 0 < i < |s| ==> s[i] == s[1..][i - 1];
      }
    }
  }

  /** Stripping finds out whether anything was skipped. */
  lemma {:induction false} StripOfWritten(pieces: seq<Piece>, tail: string)
    ensures |Strip(Write(pieces, tail))| >= |Strip(Consumed(pieces))|
    ensures |Strip(Write(pieces, tail))| == |Strip(Consumed(pieces))| <==> AllBlank(pieces, tail)
    ensures AllBlank(pieces, tail) ==> Strip(Write(pieces, tail)) == Strip(Consumed(pieces))
  {
    if pieces == [] {
      StripOfBlank(tail);
    } else {
      var (p, rest) := (pieces[0], pieces[1..]);
      StripOfWritten(rest, tail);
      StripOfBlank(p.skipped);
      StripOfBoth(p.skipped, ComparatorText(p.comparator) + Write(rest, tail));
      StripOfBoth(ComparatorText(p.comparator), Write(rest, tail));
      StripOfBoth(ComparatorText(p.comparator), Consumed(rest));
      BlankFirstAndRest(pieces, tail);
    }
  }

  lemma BlankFirstAndRest(pieces: seq<Piece>, tail: string)
    requires pieces != []
    ensures AllBlank(pieces, tail) <==> IsBlank(pieces[0].skipped) && AllBlank(pieces[1..], tail)
  {
    assert forall i :: 0 < i < |pieces| ==> pieces[i] == pieces[1..][i - 1];
  }

  /** The whitespace-free comparison passes exactly when every gap is blank. */
  lemma ConsumedExactly(s: string)
    ensures Strip(s) == Strip(Consumed(FindAll(s).pieces)) <==> AllBlank(FindAll(s).pieces, FindAll(s).tail)
  {
    FoundIsTheText(s);
    StripOfWritten(FindAll(s).pieces, FindAll(s).tail);
  }

  /** A text of the grammar is accepted, as the comparators it was written from. */
  lemma ConstraintIsParsed(s: string, pieces: seq<Piece>, tail: string)
    requires IsConstraintText(s, pieces, tail)
    ensures AreRead(pieces) && ParseCompatibility(s) == Some(Bounds(pieces))
  {
    WrittenIsFound(pieces, tail);
    ConsumedExactly(s);
  }

  /** parse_compatibility() accepts the grammar and nothing else. */
  lemma AcceptsExactly(s: string)
    ensures ParseCompatibility(s).Some? <==> exists pieces, tail :: IsConstraintText(s, pieces, tail)
  {
    if ParseCompatibility(s).Some? {
      FoundIsTheText(s);
      ConsumedExactly(s);
      assert IsConstraintText(s, FindAll(s).pieces, FindAll(s).tail);
    }
    forall pieces, tail | IsConstraintText(s, pieces, tail) ensures ParseCompatibility(s).Some? {
      ConstraintIsParsed(s, pieces, tail);
    }
  }
}

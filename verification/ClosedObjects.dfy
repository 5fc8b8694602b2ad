/**
 The closedness walk of scripts/portal-catalogue-drift.py: which subschemas of a JSON
 Schema forbid additional properties. A schema holds data next to its subschemas, and the
 names under `properties` are the upstream's own, so only the listed keywords are followed.
 */
module ClosedObjects {
  import opened Wrappers
  import opened Seqs
  import opened Text

  // A JSON value as the walk sees it; an object keeps the order of its members.
  datatype Schema =
    | Flag(b: bool)
    | Scalar(text: string)
    | List(items: seq<Schema>)
    | Object(members: seq<(string, Schema)>)

  // SUBSCHEMA_MAPS, SUBSCHEMA_LISTS and SUBSCHEMA_VALUES
  datatype Kind = Maps | Lists | Values

  // The keywords that hold subschemas, in the order of the walk, and the one that closes an object.
  datatype Vocabulary = Vocabulary(keywords: seq<(string, Kind)>, closing: string)

  const JSON_SCHEMA := Vocabulary(
    [("properties", Maps), ("patternProperties", Maps), ("$defs", Maps), ("definitions", Maps), ("dependentSchemas", Maps),
     ("allOf", Lists), ("anyOf", Lists), ("oneOf", Lists), ("prefixItems", Lists),
     ("items", Values), ("additionalItems", Values), ("contains", Values), ("not", Values), ("if", Values),
     ("then", Values), ("else", Values), ("propertyNames", Values), ("additionalProperties", Values),
     ("unevaluatedItems", Values), ("unevaluatedProperties", Values)],
    "additionalProperties")

  // ---------------------------------------------------------------- looking into a schema

  function Lookup(members: seq<(string, Schema)>, name: string): Option<Schema> {
    if members == [] then None
    else if members[0].0 == name then Some(members[0].1)
    else Lookup(members[1..], name)
  }

  /** schema.get(name); None for anything but an object. */
  function Get(schema: Schema, name: string): (r: Option<Schema>)
    ensures r.Some? ==> r.value < schema
  {
    if schema.Object? then MemberIsSmaller(schema.members, name); Lookup(schema.members, name) else None
  }

  lemma {:induction false} MemberIsSmaller(members: seq<(string, Schema)>, name: string)
    ensures Lookup(members, name).Some? ==> exists i :: 0 <= i < |members| && members[i].1 == Lookup(members, name).value
  {
    if members != [] && members[0].0 != name {
      MemberIsSmaller(members[1..], name);
    }
  }

  /** Every object's names are distinct, as in a loaded JSON document. */
  predicate IsDocument(schema: Schema)
    decreases schema
  {
    match schema
    case Object(members) =>
      && (forall i, j :: 0 <= i < j < |members| ==> members[i].0 != members[j].0)
      && (forall i :: 0 <= i < |members| ==> IsDocument(members[i].1))
    case List(items) => forall i :: 0 <= i < |items| ==> IsDocument(items[i])
    case _ => true
  }

  predicate IsClosed(v: Vocabulary, schema: Schema) {
    Get(schema, v.closing) == Some(Flag(false))
  }

  // ---------------------------------------------------------------- positions

  // One step down: into a member of a keyword's object, an element of its list, or its own value.
  datatype Step = Named(keyword: string, name: string) | Indexed(keyword: string, index: nat) | Whole(keyword: string)

  type Position = seq<Step>

  /** The kind of keyword under which a step makes sense. */
  predicate Agrees(kind: Kind, step: Step) {
    match step
    case Named(_, _) => kind.Maps?
    case Indexed(_, _) => kind.Lists? || kind.Values?
    case Whole(_) => kind.Values?
  }

  predicate Fits(keywords: seq<(string, Kind)>, step: Step) {
    exists i :: 0 <= i < |keywords| && keywords[i].0 == step.keyword && Agrees(keywords[i].1, step)
  }

  /** What a step leads to, the keyword taken for granted. */
  function Down(schema: Schema, step: Step): Option<Schema> {
    match (step, Get(schema, step.keyword))
    case (Named(_, name), Some(Object(members))) => Lookup(members, name)
    case (Indexed(_, i), Some(List(items))) => if i < |items| then Some(items[i]) else None
    case (Whole(_), Some(sub)) => if sub.List? then None else Some(sub)
    case _ => None
  }

  /** The subschema one step down; only the vocabulary's keywords hold any. */
  function Child(v: Vocabulary, schema: Schema, step: Step): Option<Schema> {
    if Fits(v.keywords, step) then Down(schema, step) else None
  }

  /** The subschema at a position. */
  function At(v: Vocabulary, schema: Schema, p: Position): Option<Schema>
    decreases |p|
  {
    if p == [] then Some(schema)
    else match Child(v, schema, p[0])
      case None => None
      case Some(sub) => At(v, sub, p[1..])
  }

  // ---------------------------------------------------------------- the walk

  function NamedKids(k: string, members: seq<(string, Schema)>): (kids: seq<(Step, Schema)>)
    ensures |kids| == |members|
    ensures forall i :: 0 <= i < |kids| ==> kids[i] == (Named(k, members[i].0), members[i].1)
  {
    if members == [] then [] else [(Named(k, members[0].0), members[0].1)] + NamedKids(k, members[1..])
  }

  function IndexedKids(k: string, items: seq<Schema>): (kids: seq<(Step, Schema)>)
    ensures |kids| == |items|
    ensures forall i :: 0 <= i < |kids| ==> kids[i] == (Indexed(k, i), items[i])
  {
    if items == [] then []
    else IndexedKids(k, items[..|items| - 1]) + [(Indexed(k, |items| - 1), items[|items| - 1])]
  }

  /** The subschemas that one keyword holds, in document order. */
  function KidsOf(schema: Schema, k: string, kind: Kind): (kids: seq<(Step, Schema)>)
    ensures forall kid :: kid in kids ==> kid.1 < schema && kid.0.keyword == k
  {
    match Get(schema, k)
    case None => []
    case Some(value) =>
      match kind
      case Maps => if value.Object? then NamedKids(k, value.members) else []
      case Lists => if value.List? then IndexedKids(k, value.items) else []
      case Values => if value.List? then IndexedKids(k, value.items) else [(Whole(k), value)]
  }

  function AllKids(schema: Schema, keywords: seq<(string, Kind)>): (kids: seq<(Step, Schema)>)
    ensures forall kid :: kid in kids ==> kid.1 < schema
  {
    if keywords == [] then [] else KidsOf(schema, keywords[0].0, keywords[0].1) + AllKids(schema, keywords[1..])
  }

  /** What a step adds to a path. */
  function StepText(step: Step): string {
    match step
    case Named(k, name) => ['/'] + k + (['/'] + name)
    case Indexed(k, i) => ['/'] + k + (['/'] + Digits(i))
    case Whole(k) => ['/'] + k
  }

  /** closed_objects() */
  function ClosedPaths(v: Vocabulary, schema: Schema, path: string): seq<string>
    decreases schema, |AllKids(schema, v.keywords)| + 1
  {
    (if IsClosed(v, schema) then [if path == "" then ['/'] else path] else [])
    + PathsBelow(v, schema, AllKids(schema, v.keywords), path)
  }

  function PathsBelow(v: Vocabulary, ghost above: Schema, kids: seq<(Step, Schema)>, path: string): seq<string>
    requires forall kid :: kid in kids ==> kid.1 < above
    decreases above, |kids|
  {
    if kids == [] then []
    else ClosedPaths(v, kids[0].1, path + StepText(kids[0].0)) + PathsBelow(v, above, kids[1..], path)
  }

  // ---------------------------------------------------------------- the positions behind the paths

  /** The positions whose paths the walk reports, below `at`, in its order. */
  function ClosedPositions(v: Vocabulary, schema: Schema, at: Position): seq<Position>
    decreases schema, |AllKids(schema, v.keywords)| + 1
  {
    (if IsClosed(v, schema) then [at] else []) + PositionsBelow(v, schema, AllKids(schema, v.keywords), at)
  }

  function PositionsBelow(v: Vocabulary, ghost above: Schema, kids: seq<(Step, Schema)>, at: Position): seq<Position>
    requires forall kid :: kid in kids ==> kid.1 < above
    decreases above, |kids|
  {
    if kids == [] then []
    else ClosedPositions(v, kids[0].1, at + [kids[0].0]) + PositionsBelow(v, above, kids[1..], at)
  }

  function PathText(p: Position): string {
    if p == [] then "" else PathText(p[..|p| - 1]) + StepText(p[|p| - 1])
  }

  /** What is reported for a position. */
  function Report(p: Position): string {
    if PathText(p) == "" then ['/'] else PathText(p)
  }

  predicate Reports(paths: seq<string>, positions: seq<Position>) {
    AreImages(Report, paths, positions)
  }

  predicate AreImages(f: Position -> string, paths: seq<string>, positions: seq<Position>) {
    |paths| == |positions| && forall i :: 0 <= i < |paths| ==> paths[i] == f(positions[i])
  }

  lemma ImagesOfBoth(f: Position -> string, a: seq<string>, p: seq<Position>, b: seq<string>, q: seq<Position>)
    requires AreImages(f, a, p) && AreImages(f, b, q)
    ensures AreImages(f, a + b, p + q)
  {
  }

  /** The walk reports one path for each of those positions. */
  lemma {:induction false} PathsArePositions(v: Vocabulary, schema: Schema, at: Position)
    ensures Reports(ClosedPaths(v, schema, PathText(at)), ClosedPositions(v, schema, at))
    decreases schema, |AllKids(schema, v.keywords)| + 1
  {
    var (kids, path) := (AllKids(schema, v.keywords), PathText(at));
    PathsBelowArePositions(v, schema, kids, at);
    var own, here := if IsClosed(v, schema) then [Report(at)] else [], if IsClosed(v, schema) then [at] else [];
    ImagesOfBoth(Report, own, here, PathsBelow(v, schema, kids, path), PositionsBelow(v, schema, kids, at));
  }

  lemma {:induction false} PathsBelowArePositions(v: Vocabulary, above: Schema, kids: seq<(Step, Schema)>, at: Position)
    requires forall kid :: kid in kids ==> kid.1 < above
    ensures Reports(PathsBelow(v, above, kids, PathText(at)), PositionsBelow(v, above, kids, at))
    decreases above, |kids|
  {
    if kids != [] {
      var next := at + [kids[0].0];
      assert next[..|at|] == at;
      assert kids[0] in kids;
      PathsArePositions(v, kids[0].1, next);
      PathsBelowArePositions(v, above, kids[1..], at);
      ImagesOfBoth(Report, ClosedPaths(v, kids[0].1, PathText(next)), ClosedPositions(v, kids[0].1, next),
                   PathsBelow(v, above, kids[1..], PathText(at)), PositionsBelow(v, above, kids[1..], at));
    }
  }

  // ---------------------------------------------------------------- sound and complete

  lemma {:induction false} LookupIsMember(members: seq<(string, Schema)>, name: string, value: Schema)
    requires forall i, j :: 0 <= i < j < |members| ==> members[i].0 != members[j].0
    ensures Lookup(members, name) == Some(value) <==> (name, value) in members
  {
    if members != [] {
      LookupIsMember(members[1..], name, value);
      assert members == [members[0]] + members[1..];
      assert forall i :: 0 < i < |members| ==> members[i].0 != members[0].0;
    }
  }

  lemma KidsOfExactly(schema: Schema, k: string, kind: Kind, step: Step, value: Schema)
    requires IsDocument(schema)
    ensures (step, value) in KidsOf(schema, k, kind)
       <==> step.keyword == k && Agrees(kind, step) && Down(schema, step) == Some(value)
  {
    var held := Get(schema, k);
    if held.Some? {
      GetIsADocument(schema, k);
      if held.value.Object? && step.Named? {
        LookupIsMember(held.value.members, step.name, value);
        NamedKidsExactly(k, held.value.members, step, value);
      } else if held.value.List? && step.Indexed? {
        IndexedKidsExactly(k, held.value.items, step, value);
      }
    }
  }

  lemma NamedKidsExactly(k: string, members: seq<(string, Schema)>, step: Step, value: Schema)
    requires step.Named?
    ensures (step, value) in NamedKids(k, members) <==> step.keyword == k && (step.name, value) in members
  {
    if step.keyword == k && (step.name, value) in members {
      var i :| 0 <= i < |members| && members[i] == (step.name, value);
      assert NamedKids(k, members)[i] == (step, value);
    }
  }

  lemma IndexedKidsExactly(k: string, items: seq<Schema>, step: Step, value: Schema)
    requires step.Indexed?
    ensures (step, value) in IndexedKids(k, items)
       <==> step.keyword == k && step.index < |items| && items[step.index] == value
  {
    if step.keyword == k && step.index < |items| && items[step.index] == value {
      assert IndexedKids(k, items)[step.index] == (step, value);
    }
  }

  lemma GetIsADocument(schema: Schema, name: string)
    requires IsDocument(schema) && Get(schema, name).Some?
    ensures IsDocument(Get(schema, name).value)
  {
    MemberIsSmaller(schema.members, name);
  }

  lemma {:induction false} AllKidsExactly(schema: Schema, keywords: seq<(string, Kind)>, step: Step, value: Schema)
    requires IsDocument(schema)
    ensures (step, value) in AllKids(schema, keywords) <==> Fits(keywords, step) && Down(schema, step) == Some(value)
  {
    if keywords != [] {
      AllKidsExactly(schema, keywords[1..], step, value);
      KidsOfExactly(schema, keywords[0].0, keywords[0].1, step, value);
      FitsFirstOrRest(keywords, step);
    }
  }

  lemma FitsFirstOrRest(keywords: seq<(string, Kind)>, step: Step)
    requires keywords != []
    ensures Fits(keywords, step)
       <==> (keywords[0].0 == step.keyword && Agrees(keywords[0].1, step)) || Fits(keywords[1..], step)
  {
    var rest := keywords[1..];
    if Fits(rest, step) {
      var i :| 0 <= i < |rest| && rest[i].0 == step.keyword && Agrees(rest[i].1, step);
      assert keywords[i + 1] == rest[i];
    }
    assert forall i :: 0 < i < |keywords| ==> keywords[i] == rest[i - 1];
  }

  predicate IsClosedAt(v: Vocabulary, schema: Schema, p: Position) {
    At(v, schema, p).Some? && IsClosed(v, At(v, schema, p).value)
  }

  lemma KidsAreDocuments(v: Vocabulary, schema: Schema)
    requires IsDocument(schema)
    ensures forall kid :: kid in AllKids(schema, v.keywords) ==> IsDocument(kid.1)
  {
    forall kid | kid in AllKids(schema, v.keywords) ensures IsDocument(kid.1) {
      AllKidsExactly(schema, v.keywords, kid.0, kid.1);
      GetIsADocument(schema, kid.0.keyword);
      if kid.0.Named? {
        MemberIsSmaller(Get(schema, kid.0.keyword).value.members, kid.0.name);
      }
    }
  }

  /** A kid on the way to p, and what is left of p below it. */
  predicate LeadsTo(v: Vocabulary, kid: (Step, Schema), at: Position, p: Position) {
    at + [kid.0] <= p && IsClosedAt(v, kid.1, p[|at| + 1..])
  }

  /**
   Sound and complete: the walk reports a position exactly when a subschema that forbids
   additional properties is reached there through the listed keywords.
   */
  lemma {:induction false} WalkIsExact(v: Vocabulary, schema: Schema, at: Position, p: Position)
    requires IsDocument(schema)
    ensures p in ClosedPositions(v, schema, at) <==> at <= p && IsClosedAt(v, schema, p[|at|..])
    decreases schema, |AllKids(schema, v.keywords)| + 1
  {
    var kids := AllKids(schema, v.keywords);
    KidsAreDocuments(v, schema);
    BelowIsExact(v, schema, kids, at, p);
    if at < p {
      OneStepDown(v, schema, at, p);
    } else if at == p {
      assert p[|at|..] == [];
    }
  }

  lemma OneStepDown(v: Vocabulary, schema: Schema, at: Position, p: Position)
    requires IsDocument(schema) && at < p
    ensures IsClosedAt(v, schema, p[|at|..])
       <==> exists kid :: kid in AllKids(schema, v.keywords) && LeadsTo(v, kid, at, p)
  {
    var (kids, q) := (AllKids(schema, v.keywords), p[|at|..]);
    assert q[1..] == p[|at| + 1..];
    assert at + [q[0]] <= p;
    var sub := Child(v, schema, q[0]);
    if sub.Some? {
      AllKidsExactly(schema, v.keywords, q[0], sub.value);
      assert IsClosedAt(v, schema, q) ==> LeadsTo(v, (q[0], sub.value), at, p);
    }
    forall kid | kid in kids && LeadsTo(v, kid, at, p) ensures IsClosedAt(v, schema, q) {
      assert kid.0 == p[|at|];
      AllKidsExactly(schema, v.keywords, kid.0, kid.1);
    }
  }

  lemma {:induction false} BelowIsExact(v: Vocabulary, above: Schema, kids: seq<(Step, Schema)>, at: Position, p: Position)
    requires forall kid :: kid in kids ==> kid.1 < above && IsDocument(kid.1)
    ensures p in PositionsBelow(v, above, kids, at) <==> exists kid :: kid in kids && LeadsTo(v, kid, at, p)
    decreases above, |kids|
  {
    if kids != [] {
      assert kids[0] in kids;
      WalkIsExact(v, kids[0].1, at + [kids[0].0], p);
      BelowIsExact(v, above, kids[1..], at, p);
      LeadsFirstOrRest(v, kids, at, p);
    }
  }

  lemma LeadsFirstOrRest(v: Vocabulary, kids: seq<(Step, Schema)>, at: Position, p: Position)
    requires kids != []
    ensures (exists kid :: kid in kids && LeadsTo(v, kid, at, p))
       <==> LeadsTo(v, kids[0], at, p) || exists kid :: kid in kids[1..] && LeadsTo(v, kid, at, p)
  {
    FirstAndRest(kids);
    assert forall kid :: kid in kids <==> kid == kids[0] || kid in kids[1..];
  }

  // ---------------------------------------------------------------- one path each

  predicate DistinctSteps(kids: seq<(Step, Schema)>) {
    forall i, j :: 0 <= i < j < |kids| ==> kids[i].0 != kids[j].0
  }

  predicate DistinctKeywords(keywords: seq<(string, Kind)>) {
    forall i, j :: 0 <= i < j < |keywords| ==> keywords[i].0 != keywords[j].0
  }

  lemma KidsOfAreDistinct(schema: Schema, k: string, kind: Kind)
    requires IsDocument(schema)
    ensures DistinctSteps(KidsOf(schema, k, kind))
  {
    if Get(schema, k).Some? {
      GetIsADocument(schema, k);
    }
  }

  lemma {:induction false} AllKidsAreDistinct(schema: Schema, keywords: seq<(string, Kind)>)
    requires IsDocument(schema) && DistinctKeywords(keywords)
    ensures DistinctSteps(AllKids(schema, keywords))
    ensures forall kid :: kid in AllKids(schema, keywords) ==>
              exists i :: 0 <= i < |keywords| && keywords[i].0 == kid.0.keyword
  {
    if keywords != [] {
      AllKidsAreDistinct(schema, keywords[1..]);
      KidsOfAreDistinct(schema, keywords[0].0, keywords[0].1);
      var (first, rest) := (KidsOf(schema, keywords[0].0, keywords[0].1), AllKids(schema, keywords[1..]));
      forall kid | kid in rest ensures kid.0.keyword != keywords[0].0 {
        var i :| 0 <= i < |keywords[1..]| && keywords[1..][i].0 == kid.0.keyword;
        assert keywords[i + 1] == keywords[1..][i];
      }
      forall kid | kid in first + rest ensures exists i :: 0 <= i < |keywords| && keywords[i].0 == kid.0.keyword {
        if kid in rest {
          var i :| 0 <= i < |keywords[1..]| && keywords[1..][i].0 == kid.0.keyword;
          assert keywords[i + 1].0 == kid.0.keyword;
        }
      }
      assert forall i :: 0 <= i < |first| ==> first[i] in first;
      assert forall i :: 0 <= i < |rest| ==> rest[i] in rest;
    }
  }

  /** No position is reported twice. */
  lemma {:induction false} PositionsAreDistinct(v: Vocabulary, schema: Schema, at: Position)
    requires IsDocument(schema) && DistinctKeywords(v.keywords)
    ensures Distinct(ClosedPositions(v, schema, at))
    decreases schema, |AllKids(schema, v.keywords)| + 1
  {
    var kids := AllKids(schema, v.keywords);
    KidsAreDocuments(v, schema);
    AllKidsAreDistinct(schema, v.keywords);
    BelowIsDistinct(v, schema, kids, at);
    BelowIsExact(v, schema, kids, at, at);
    assert forall kid: (Step, Schema) :: !(at + [kid.0] <= at);
    var below := PositionsBelow(v, schema, kids, at);
    assert at !in below;
  }

  lemma {:induction false} BelowIsDistinct(v: Vocabulary, above: Schema, kids: seq<(Step, Schema)>, at: Position)
    requires DistinctSteps(kids) && DistinctKeywords(v.keywords)
    requires forall kid :: kid in kids ==> kid.1 < above && IsDocument(kid.1)
    ensures Distinct(PositionsBelow(v, above, kids, at))
    decreases above, |kids|
  {
    if kids != [] {
      assert kids[0] in kids;
      PositionsAreDistinct(v, kids[0].1, at + [kids[0].0]);
      BelowIsDistinct(v, above, kids[1..], at);
      var (first, rest) := (ClosedPositions(v, kids[0].1, at + [kids[0].0]), PositionsBelow(v, above, kids[1..], at));
      forall p | p in first ensures p !in rest {
        WalkIsExact(v, kids[0].1, at + [kids[0].0], p);
        OtherKidsElsewhere(v, above, kids, at, p);
      }
      DistinctTogether(first, rest);
    }
  }

  lemma OtherKidsElsewhere(v: Vocabulary, above: Schema, kids: seq<(Step, Schema)>, at: Position, p: Position)
    requires kids != [] && DistinctSteps(kids) && at + [kids[0].0] <= p
    requires forall kid :: kid in kids ==> kid.1 < above && IsDocument(kid.1)
    ensures p !in PositionsBelow(v, above, kids[1..], at)
  {
    BelowIsExact(v, above, kids[1..], at, p);
    forall kid | kid in kids[1..] ensures !LeadsTo(v, kid, at, p) {
      assert kid.0 != kids[0].0;
      assert p[|at|] == (at + [kids[0].0])[|at|];
      assert (at + [kid.0])[|at|] == kid.0;
    }
  }

  lemma DistinctTogether<T>(a: seq<T>, b: seq<T>)
    requires Distinct(a) && Distinct(b) && forall x :: x in a ==> x !in b
    ensures Distinct(a + b)
  {
    forall i, j | 0 <= i < j < |a + b| ensures (a + b)[i] != (a + b)[j] {
      if i < |a| && |a| <= j {
        assert a[i] in a && b[j - |a|] in b;
      }
    }
  }

  // ---------------------------------------------------------------- paths tell positions apart

  predicate IsVocabulary(v: Vocabulary) {
    && DistinctKeywords(v.keywords)
    && forall i :: 0 <= i < |v.keywords| ==> IsKeyword(v.keywords[i].0)
  }

  predicate IsKeyword(k: string) {
    k != "" && !IsDigit(k[0]) && '/' !in k
  }

  /** No name that the walk passes through contains a slash; data and other keywords may hold any. */
  predicate HasPlainNames(v: Vocabulary, schema: Schema)
    decreases schema
  {
    forall kid :: kid in AllKids(schema, v.keywords) ==>
      (kid.0.Named? ==> '/' !in kid.0.name) && HasPlainNames(v, kid.1)
  }

  /** Steps under fitting keywords, through names without a slash. */
  predicate IsPlain(v: Vocabulary, p: Position) {
    forall i :: 0 <= i < |p| ==> Fits(v.keywords, p[i]) && (p[i].Named? ==> '/' !in p[i].name)
  }

  function StepSegments(step: Step): seq<string> {
    match step
    case Named(k, name) => [k, name]
    case Indexed(k, i) => [k, Digits(i)]
    case Whole(k) => [k]
  }

  function Segments(p: Position): seq<string> {
    if p == [] then [] else StepSegments(p[0]) + Segments(p[1..])
  }

  function Slashed(segments: seq<string>): string {
    if segments == [] then "" else (['/'] + segments[0]) + Slashed(segments[1..])
  }

  lemma {:induction false} SlashedBoth(a: seq<string>, b: seq<string>)
    ensures Slashed(a + b) == Slashed(a) + Slashed(b)
  {
    if a == [] {
      assert a + b == b;
    } else {
      SlashedBoth(a[1..], b);
      assert (a + b)[1..] == a[1..] + b;
      Regroup(['/'] + a[0], Slashed(a[1..]), Slashed(b));
    }
  }

  lemma StepIsSlashed(step: Step)
    ensures Slashed(StepSegments(step)) == StepText(step)
  {
    var segments := StepSegments(step);
    if |segments| == 2 {
      assert segments[1..] == [segments[1]];
      assert Slashed([segments[1]]) == ['/'] + segments[1] by {
        assert [segments[1]][1..] == [];
        assert (['/'] + segments[1]) + "" == ['/'] + segments[1];
      }
    } else {
      assert segments[1..] == [];
    }
  }

  lemma {:induction false} SegmentsOfBoth(p: Position, q: Position)
    ensures Segments(p + q) == Segments(p) + Segments(q)
  {
    if p == [] {
      assert p + q == q;
    } else {
      SegmentsOfBoth(p[1..], q);
      assert (p + q)[1..] == p[1..] + q;
      Regroup(StepSegments(p[0]), Segments(p[1..]), Segments(q));
    }
  }

  lemma SegmentsOfOne(step: Step)
    ensures Segments([step]) == StepSegments(step)
  {
    assert [step][1..] == [];
    NothingAdded(StepSegments(step));
  }

  lemma {:induction false} PathIsSlashed(p: Position)
    ensures PathText(p) == Slashed(Segments(p))
  {
    if p != [] {
      var (front, last) := (p[..|p| - 1], p[|p| - 1]);
      PathIsSlashed(front);
      CutAt(p, |p| - 1);
      assert p[|p| - 1..] == [last];
      SegmentsOfBoth(front, [last]);
      SegmentsOfOne(last);
      SlashedBoth(Segments(front), StepSegments(last));
      StepIsSlashed(last);
    }
  }

  predicate NoSlash(segments: seq<string>) {
    forall i :: 0 <= i < |segments| ==> '/' !in segments[i]
  }

  lemma {:induction false} SlashedIsSplit(first: string, segments: seq<string>)
    requires '/' !in first && NoSlash(segments)
    ensures Split(first + Slashed(segments), '/') == [first] + segments
    decreases |segments|
  {
    if segments == [] {
      assert first + "" == first;
      SplitWhole(first, '/');
    } else {
      var rest := segments[0] + Slashed(segments[1..]);
      SlashedIsSplit(segments[0], segments[1..]);
      SplitAfter(first, '/', rest);
      Regroup(['/'], segments[0], Slashed(segments[1..]));
      Regroup(first, ['/'], rest);
      FirstAndRest(segments);
    }
  }

  lemma {:induction false} PlainSegments(v: Vocabulary, p: Position)
    requires IsVocabulary(v) && IsPlain(v, p)
    ensures NoSlash(Segments(p))
    ensures p != [] ==> IsKeyword(Segments(p)[0])
  {
    if p != [] {
      PlainSegments(v, p[1..]);
      if p[0].Indexed? {
        DigitsAreANumeral(p[0].index);
      }
    }
  }

  lemma KeywordHasOneKind(v: Vocabulary, s: Step, t: Step)
    requires IsVocabulary(v) && Fits(v.keywords, s) && Fits(v.keywords, t) && s.keyword == t.keyword
    ensures s.Named? == t.Named?
  {
  }

  /** The first steps are the same: what follows a keyword tells an index from the next keyword. */
  lemma SameFirstStep(v: Vocabulary, p: Position, q: Position)
    requires IsVocabulary(v) && IsPlain(v, p) && IsPlain(v, q) && Segments(p) == Segments(q) && p != [] && q != []
    ensures p[0] == q[0]
  {
    var (s, t) := (p[0], q[0]);
    assert s.keyword == Segments(p)[0] == t.keyword;
    KeywordHasOneKind(v, s, t);
    PlainSegments(v, p[1..]);
    PlainSegments(v, q[1..]);
    if s.Named? {
      assert s.name == Segments(p)[1] == t.name;
    } else if s.Indexed? && t.Indexed? {
      assert Digits(s.index) == Segments(p)[1] == Digits(t.index);
      DigitsAreANumeral(s.index);
      DigitsAreANumeral(t.index);
    } else if s.Indexed? {
      DigitsAreANumeral(s.index);
      IndexIsNoKeyword(p, q);
    } else if t.Indexed? {
      DigitsAreANumeral(t.index);
      IndexIsNoKeyword(q, p);
    }
  }

  lemma IndexIsNoKeyword(p: Position, q: Position)
    requires p != [] && q != [] && p[0].Indexed? && q[0].Whole? && IsNumeral(Digits(p[0].index))
    requires q[1..] != [] ==> IsKeyword(Segments(q[1..])[0])
    ensures Segments(p) != Segments(q)
  {
    assert Segments(p)[1] == Digits(p[0].index);
    if q[1..] != [] {
      assert Segments(q)[1] == Segments(q[1..])[0];
    } else {
      assert |Segments(q)| == 1;
    }
  }

  lemma {:induction false} SegmentsAreInjective(v: Vocabulary, p: Position, q: Position)
    requires IsVocabulary(v) && IsPlain(v, p) && IsPlain(v, q) && Segments(p) == Segments(q)
    ensures p == q
    decreases |p|
  {
    if p != [] && q != [] {
      SameFirstStep(v, p, q);
      assert Segments(p)[|StepSegments(p[0])|..] == Segments(p[1..]);
      assert Segments(q)[|StepSegments(q[0])|..] == Segments(q[1..]);
      SegmentsAreInjective(v, p[1..], q[1..]);
      assert p == [p[0]] + p[1..] && q == [q[0]] + q[1..];
    }
  }

  /** Different plain positions are reported as different paths. */
  lemma ReportsAreInjective(v: Vocabulary, p: Position, q: Position)
    requires IsVocabulary(v) && IsPlain(v, p) && IsPlain(v, q) && Report(p) == Report(q)
    ensures p == q
  {
    PathIsSlashed(p);
    PathIsSlashed(q);
    PlainSegments(v, p);
    PlainSegments(v, q);
    PathIsLong(v, p);
    PathIsLong(v, q);
    SlashedIsSplit("", Segments(p));
    SlashedIsSplit("", Segments(q));
    assert ([""] + Segments(p))[1..] == Segments(p) && ([""] + Segments(q))[1..] == Segments(q);
    SegmentsAreInjective(v, p, q);
  }

  lemma PathIsLong(v: Vocabulary, p: Position)
    requires IsVocabulary(v) && IsPlain(v, p)
    ensures p != [] ==> |PathText(p)| > 1
  {
    if p != [] {
      PathIsSlashed(p);
      PlainSegments(v, p);
    }
  }

  lemma {:induction false} ReachedIsPlain(v: Vocabulary, schema: Schema, p: Position)
    requires IsDocument(schema) && HasPlainNames(v, schema) && At(v, schema, p).Some?
    ensures IsPlain(v, p)
    decreases |p|
  {
    if p != [] {
      var sub := Child(v, schema, p[0]).value;
      AllKidsExactly(schema, v.keywords, p[0], sub);
      assert (p[0], sub) in AllKids(schema, v.keywords);
      KidsAreDocuments(v, schema);
      ReachedIsPlain(v, sub, p[1..]);
    }
  }

  /** With no slash in a property name no path is reported twice. */
  lemma PathsAreDistinct(v: Vocabulary, schema: Schema)
    requires IsVocabulary(v) && IsDocument(schema) && HasPlainNames(v, schema)
    ensures Distinct(ClosedPaths(v, schema, ""))
  {
    PathsArePositions(v, schema, []);
    PositionsAreDistinct(v, schema, []);
    var (paths, positions) := (ClosedPaths(v, schema, ""), ClosedPositions(v, schema, []));
    forall i, j | 0 <= i < j < |paths| ensures paths[i] != paths[j] {
      PlainIsReported(v, schema, positions[i]);
      PlainIsReported(v, schema, positions[j]);
      if Report(positions[i]) == Report(positions[j]) {
        ReportsAreInjective(v, positions[i], positions[j]);
      }
    }
  }

  lemma PlainIsReported(v: Vocabulary, schema: Schema, p: Position)
    requires IsDocument(schema) && HasPlainNames(v, schema) && p in ClosedPositions(v, schema, [])
    ensures IsPlain(v, p)
  {
    WalkIsExact(v, schema, [], p);
    assert p[0..] == p;
    ReachedIsPlain(v, schema, p);
  }

  // The schema of a closed object without any properties of its own.
  function ClosedLeaf(v: Vocabulary): Schema {
    Object([(v.closing, Flag(false))])
  }

  /** A property `name` next to a property `a` that has a property `b`. */
  function Colliding(v: Vocabulary, k: string, name: string, a: string, b: string): Schema {
    Object([(k, Object([(name, ClosedLeaf(v)), (a, Object([(k, Object([(b, ClosedLeaf(v))]))]))]))])
  }

  lemma OneMember(name: string, value: Schema)
    requires IsDocument(value)
    ensures IsDocument(Object([(name, value)]))
  {
  }

  lemma TwoMembers(name: string, value: Schema, other: string, second: Schema)
    requires IsDocument(value) && IsDocument(second) && name != other
    ensures IsDocument(Object([(name, value), (other, second)]))
  {
  }

  lemma CollidingAt(v: Vocabulary, k: string, name: string, a: string, b: string)
    requires Fits(v.keywords, Named(k, name)) && name != a
    ensures IsDocument(Colliding(v, k, name, a, b))
    ensures IsClosedAt(v, Colliding(v, k, name, a, b), [Named(k, name)])
    ensures IsClosedAt(v, Colliding(v, k, name, a, b), [Named(k, a), Named(k, b)])
  {
    var (schema, leaf) := (Colliding(v, k, name, a, b), ClosedLeaf(v));
    var inner := Object([(k, Object([(b, leaf)]))]);
    assert [Named(k, name)][1..] == [] && [Named(k, a), Named(k, b)][1..] == [Named(k, b)] && [Named(k, b)][1..] == [];
    assert Fits(v.keywords, Named(k, a)) && Fits(v.keywords, Named(k, b));
    var members := [(name, leaf), (a, inner)];
    OneMember(v.closing, Flag(false));
    OneMember(b, leaf);
    OneMember(k, Object([(b, leaf)]));
    TwoMembers(name, leaf, a, inner);
    OneMember(k, Object(members));
    assert members[1..] == [(a, inner)] && Lookup(members[1..], a) == Some(inner);
    assert Get(schema, k) == Some(Object(members));
    assert Child(v, schema, Named(k, name)) == Some(leaf);
    assert Child(v, schema, Named(k, a)) == Some(inner);
    assert Child(v, inner, Named(k, b)) == Some(leaf);
    assert At(v, inner, [Named(k, b)]) == Some(leaf);
    assert At(v, leaf, []) == Some(leaf);
  }

  /** A slash in a property name can make two closed objects share one path. */
  lemma SlashRepeatsAPath(v: Vocabulary, k: string, a: string, b: string) returns (schema: Schema)
    requires Fits(v.keywords, Named(k, a))
    ensures IsDocument(schema) && !Distinct(ClosedPaths(v, schema, ""))
  {
    var name := a + (['/'] + k + (['/'] + b));
    schema := Colliding(v, k, name, a, b);
    assert Fits(v.keywords, Named(k, name)) && |name| > |a|;
    CollidingAt(v, k, name, a, b);
    var (p, q) := ([Named(k, name)], [Named(k, a), Named(k, b)]);
    SameText(k, a, b);
    PathsArePositions(v, schema, []);
    WalkIsExact(v, schema, [], p);
    WalkIsExact(v, schema, [], q);
    assert p[0..] == p && q[0..] == q;
    var positions := ClosedPositions(v, schema, []);
    var i :| 0 <= i < |positions| && positions[i] == p;
    var j :| 0 <= j < |positions| && positions[j] == q;
    assert ClosedPaths(v, schema, "")[i] == ClosedPaths(v, schema, "")[j] && i != j;
  }

  lemma SameText(k: string, a: string, b: string)
    ensures Report([Named(k, a + (['/'] + k + (['/'] + b)))]) == Report([Named(k, a), Named(k, b)])
  {
    var (first, second) := (StepText(Named(k, a)), StepText(Named(k, b)));
    assert [Named(k, a), Named(k, b)][..1] == [Named(k, a)];
    assert PathText([Named(k, a)]) == "" + first == first;
    assert PathText([Named(k, a), Named(k, b)]) == first + second;
    var whole := StepText(Named(k, a + second));
    assert PathText([Named(k, a + second)]) == "" + whole == whole;
    assert whole == first + second;
  }

  // ---------------------------------------------------------------- the keywords of JSON Schema

  /** Where a keyword stands in JSON_SCHEMA, told from its length and its first two characters. */
  function PlaceOf(k: string): int {
    match |k|
    case 2 => 13
    case 3 => 12
    case 4 => if k[0] == 't' then 14 else 15
    case 5 => if k[0] == '$' then 2 else if k[0] == 'o' then 7 else if k[0] == 'i' then 9 else if k[1] == 'l' then 5 else 6
    case 8 => 11
    case 10 => 0
    case 11 => if k[0] == 'd' then 3 else 8
    case 13 => 16
    case 15 => 10
    case 16 => if k[0] == 'd' then 4 else 18
    case 17 => 1
    case 20 => 17
    case 21 => 19
    case _ => -1
  }

  /** The keyword at i is one, and `place` tells where it stands. */
  predicate InPlace(place: string -> int, keywords: seq<(string, Kind)>, i: nat) {
    i < |keywords| && place(keywords[i].0) == i && IsKeyword(keywords[i].0)
  }

  predicate AreInPlace(place: string -> int, keywords: seq<(string, Kind)>, from: nat) {
    && InPlace(place, keywords, from) && InPlace(place, keywords, from + 1) && InPlace(place, keywords, from + 2)
    && InPlace(place, keywords, from + 3)
  }

  lemma FirstInPlace()
    ensures AreInPlace(PlaceOf, JSON_SCHEMA.keywords, 0)
  {
  }

  lemma SecondInPlace()
    ensures AreInPlace(PlaceOf, JSON_SCHEMA.keywords, 4)
  {
  }

  lemma ThirdInPlace()
    ensures AreInPlace(PlaceOf, JSON_SCHEMA.keywords, 8)
  {
  }

  lemma FourthInPlace()
    ensures AreInPlace(PlaceOf, JSON_SCHEMA.keywords, 12)
  {
  }

  lemma LastInPlace()
    ensures AreInPlace(PlaceOf, JSON_SCHEMA.keywords, 16)
  {
  }

  lemma EachInPlace(place: string -> int, keywords: seq<(string, Kind)>, i: nat)
    requires i < 20 && AreInPlace(place, keywords, 0) && AreInPlace(place, keywords, 4)
    requires AreInPlace(place, keywords, 8) && AreInPlace(place, keywords, 12) && AreInPlace(place, keywords, 16)
    ensures InPlace(place, keywords, i)
  {
  }

  /** A keyword tells its place, so two places hold two keywords. */
  lemma InPlaceAreDistinct(place: string -> int, keywords: seq<(string, Kind)>)
    requires forall i :: 0 <= i < |keywords| ==> InPlace(place, keywords, i)
    ensures DistinctKeywords(keywords)
  {
    forall i, j | 0 <= i < j < |keywords| ensures keywords[i].0 != keywords[j].0 {
      assert InPlace(place, keywords, i) && InPlace(place, keywords, j);
    }
  }

  lemma InPlaceIsAVocabulary(place: string -> int, v: Vocabulary)
    requires forall i :: 0 <= i < |v.keywords| ==> InPlace(place, v.keywords, i)
    ensures IsVocabulary(v)
  {
    InPlaceAreDistinct(place, v.keywords);
    forall i | 0 <= i < |v.keywords| ensures IsKeyword(v.keywords[i].0) {
      assert InPlace(place, v.keywords, i);
    }
  }

  /** The keywords the script lists are a vocabulary. */
  lemma JsonSchemaIsAVocabulary()
    ensures IsVocabulary(JSON_SCHEMA)
  {
    forall i | 0 <= i < 20 ensures InPlace(PlaceOf, JSON_SCHEMA.keywords, i) {
      OneInPlace(i);
    }
    InPlaceIsAVocabulary(PlaceOf, JSON_SCHEMA);
  }

  lemma OneInPlace(i: nat)
    requires i < 20
    ensures InPlace(PlaceOf, JSON_SCHEMA.keywords, i)
  {
    FirstInPlace();
    SecondInPlace();
    ThirdInPlace();
    FourthInPlace();
    LastInPlace();
    EachInPlace(PlaceOf, JSON_SCHEMA.keywords, i);
  }
}

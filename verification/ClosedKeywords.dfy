/**
 The walk of scripts/portal-catalogue-drift.py over the keywords of JSON Schema as the
 drafts name them: where a schema keeps its subschemas, and so what is reported.
 */
module ClosedKeywords {
  import opened Wrappers
  import opened Seqs
  import opened Text
  import opened ClosedObjects

  // ---------------------------------------------------------------- where subschemas are kept

  /** Under these an object of subschemas. */
  predicate HoldsAMap(k: string) {
    k == "properties" || k == "patternProperties" || k == "$defs" || k == "definitions" || k == "dependentSchemas"
  }

  /** Under these a list of them. */
  predicate HoldsAList(k: string) {
    k == "allOf" || k == "anyOf" || k == "oneOf" || k == "prefixItems"
  }

  /** Under these one, or a list. */
  predicate HoldsAValue(k: string) {
    || k == "items" || k == "additionalItems" || k == "contains" || k == "not" || k == "if" || k == "then"
    || k == "else" || k == "propertyNames" || k == "additionalProperties" || k == "unevaluatedItems"
    || k == "unevaluatedProperties"
  }

  predicate IsFollowed(step: Step) {
    match step
    case Named(k, _) => HoldsAMap(k)
    case Indexed(k, _) => HoldsAList(k) || HoldsAValue(k)
    case Whole(k) => HoldsAValue(k)
  }

  predicate IsListed(i: nat, k: string, kind: Kind) {
    i < |JSON_SCHEMA.keywords| && JSON_SCHEMA.keywords[i] == (k, kind)
  }

  lemma MapsAreListed(k: string) returns (i: nat)
    requires HoldsAMap(k)
    ensures IsListed(i, k, Maps)
  {
    i := if k == "properties" then 0 else if k == "patternProperties" then 1 else if k == "$defs" then 2
         else if k == "definitions" then 3 else 4;
  }

  lemma ListsAreListed(k: string) returns (i: nat)
    requires HoldsAList(k)
    ensures IsListed(i, k, Lists)
  {
    i := if k == "allOf" then 5 else if k == "anyOf" then 6 else if k == "oneOf" then 7 else 8;
  }

  lemma ValuesAreListed(k: string) returns (i: nat)
    requires HoldsAValue(k)
    ensures IsListed(i, k, Values)
  {
    i := if k == "items" then 9 else if k == "additionalItems" then 10 else if k == "contains" then 11
         else if k == "not" then 12 else if k == "if" then 13 else if k == "then" then 14 else if k == "else" then 15
         else if k == "propertyNames" then 16 else if k == "additionalProperties" then 17
         else if k == "unevaluatedItems" then 18 else 19;
  }

  lemma NothingElseIsListed(i: nat, k: string, kind: Kind)
    requires IsListed(i, k, kind)
    ensures match kind case Maps => HoldsAMap(k) case Lists => HoldsAList(k) case Values => HoldsAValue(k)
  {
  }

  lemma FollowedIsListed(step: Step) returns (i: nat, kind: Kind)
    requires IsFollowed(step)
    ensures IsListed(i, step.keyword, kind) && Agrees(kind, step)
  {
    if step.Named? {
      i := MapsAreListed(step.keyword);
      kind := Maps;
    } else if HoldsAList(step.keyword) {
      i := ListsAreListed(step.keyword);
      kind := Lists;
    } else {
      i := ValuesAreListed(step.keyword);
      kind := Values;
    }
  }

  lemma ListedIsFollowed(step: Step, i: nat, kind: Kind)
    requires IsListed(i, step.keyword, kind) && Agrees(kind, step)
    ensures IsFollowed(step)
  {
    NothingElseIsListed(i, step.keyword, kind);
  }

  /** To fit a list of keywords is to stand in it, with a kind that agrees. */
  lemma FitsExactly(keywords: seq<(string, Kind)>, step: Step)
    ensures Fits(keywords, step) <==>
      exists i, kind :: 0 <= i < |keywords| && keywords[i] == (step.keyword, kind) && Agrees(kind, step)
  {
    if Fits(keywords, step) {
      var i :| 0 <= i < |keywords| && keywords[i].0 == step.keyword && Agrees(keywords[i].1, step);
      assert keywords[i] == (step.keyword, keywords[i].1);
    }
  }

  lemma FollowedExactly(step: Step)
    ensures Fits(JSON_SCHEMA.keywords, step) <==> IsFollowed(step)
  {
    FitsExactly(JSON_SCHEMA.keywords, step);
    if IsFollowed(step) {
      var i, kind := FollowedIsListed(step);
    }
    if i, kind :| 0 <= i < |JSON_SCHEMA.keywords| && JSON_SCHEMA.keywords[i] == (step.keyword, kind) && Agrees(kind, step) {
      ListedIsFollowed(step, i, kind);
    }
  }

  // ---------------------------------------------------------------- what is reported

  predicate HasMember(schema: Schema, name: string, value: Schema) {
    schema.Object? && (name, value) in schema.members
  }

  /** One step down leads to this subschema. */
  ghost predicate Leads(schema: Schema, step: Step, sub: Schema) {
    exists value :: HasMember(schema, step.keyword, value) && IsHeld(value, step, sub)
  }

  predicate IsHeld(value: Schema, step: Step, sub: Schema) {
    match step
    case Named(_, name) => HasMember(value, name, sub)
    case Indexed(_, i) => value.List? && i < |value.items| && value.items[i] == sub
    case Whole(_) => sub == value && !value.List?
  }

  /** The position leads, keyword by keyword, to an object that forbids additional properties. */
  ghost predicate ForbidsMore(schema: Schema, p: Position)
    decreases |p|
  {
    if p == [] then HasMember(schema, "additionalProperties", Flag(false))
    else IsFollowed(p[0]) && exists sub :: Leads(schema, p[0], sub) && ForbidsMore(sub, p[1..])
  }

  lemma GetExactly(schema: Schema, name: string)
    requires IsDocument(schema)
    ensures forall value :: Get(schema, name) == Some(value) <==> HasMember(schema, name, value)
  {
    if schema.Object? {
      forall value ensures Lookup(schema.members, name) == Some(value) <==> (name, value) in schema.members {
        LookupIsMember(schema.members, name, value);
      }
    }
  }

  lemma PartIsADocument(schema: Schema, name: string, value: Schema)
    requires IsDocument(schema) && HasMember(schema, name, value)
    ensures IsDocument(value)
  {
    var i :| 0 <= i < |schema.members| && schema.members[i] == (name, value);
  }

  lemma DownExactly(schema: Schema, step: Step, sub: Schema)
    requires IsDocument(schema)
    ensures Down(schema, step) == Some(sub) <==> Leads(schema, step, sub)
    ensures Down(schema, step) == Some(sub) ==> IsDocument(sub)
  {
    GetExactly(schema, step.keyword);
    var held := Get(schema, step.keyword);
    if held.Some? {
      PartIsADocument(schema, step.keyword, held.value);
      if step.Named? && held.value.Object? {
        GetExactly(held.value, step.name);
        if HasMember(held.value, step.name, sub) {
          PartIsADocument(held.value, step.name, sub);
        }
      }
    }
  }

  lemma {:induction false} ForbidsExactly(schema: Schema, p: Position)
    requires IsDocument(schema)
    ensures IsClosedAt(JSON_SCHEMA, schema, p) <==> ForbidsMore(schema, p)
    decreases |p|
  {
    if p == [] {
      GetExactly(schema, "additionalProperties");
    } else {
      FollowedExactly(p[0]);
      forall sub ensures Down(schema, p[0]) == Some(sub) <==> Leads(schema, p[0], sub) {
        DownExactly(schema, p[0], sub);
      }
      var sub := Down(schema, p[0]);
      if sub.Some? {
        DownExactly(schema, p[0], sub.value);
        ForbidsExactly(sub.value, p[1..]);
      }
    }
  }

  /** Over any vocabulary: the reported paths are those of the closed positions. */
  lemma ReportsThePositions(v: Vocabulary, schema: Schema, path: string)
    requires IsDocument(schema)
    ensures path in ClosedPaths(v, schema, "") <==> exists p :: IsClosedAt(v, schema, p) && path == Report(p)
  {
    var (paths, positions) := (ClosedPaths(v, schema, ""), ClosedPositions(v, schema, []));
    PathsArePositions(v, schema, []);
    forall p ensures p in positions <==> IsClosedAt(v, schema, p) {
      WalkIsExact(v, schema, [], p);
      assert p[0..] == p;
    }
    if path in paths {
      var i :| 0 <= i < |paths| && paths[i] == path;
      assert positions[i] in positions;
    }
    if p :| IsClosedAt(v, schema, p) && path == Report(p) {
      var i :| 0 <= i < |positions| && positions[i] == p;
      assert paths[i] == path;
    }
  }

  /** The path of every position that forbids more is reported, and nothing else is. */
  lemma ReportedExactly(schema: Schema, path: string)
    requires IsDocument(schema)
    ensures path in ClosedPaths(JSON_SCHEMA, schema, "") <==> exists p :: ForbidsMore(schema, p) && path == Report(p)
  {
    ReportsThePositions(JSON_SCHEMA, schema, path);
    forall p ensures IsClosedAt(JSON_SCHEMA, schema, p) <==> ForbidsMore(schema, p) {
      ForbidsExactly(schema, p);
    }
  }

  function PathBehind(step: Step): string {
    match step
    case Named(k, name) => "/" + k + "/" + name
    case Indexed(k, i) => "/" + k + "/" + Digits(i)
    case Whole(k) => "/" + k
  }

  /** So is a closed object directly under any of the twenty keywords, at the path that leads to it. */
  lemma EveryKeywordIsFollowed(schema: Schema, step: Step, sub: Schema)
    requires IsDocument(schema) && IsFollowed(step) && Leads(schema, step, sub)
    requires HasMember(sub, "additionalProperties", Flag(false))
    ensures PathBehind(step) in ClosedPaths(JSON_SCHEMA, schema, "")
  {
    assert [step][1..] == [];
    assert ForbidsMore(sub, []);
    assert ForbidsMore(schema, [step]);
    OneStepReport(step);
    ReportedExactly(schema, Report([step]));
  }

  lemma OneStepReport(step: Step)
    ensures Report([step]) == PathBehind(step)
  {
    assert [step][..0] == [] && PathText([]) == "";
    NothingAdded(StepText(step));
    match step
    case Named(k, name) => Regroup("/" + k, "/", name);
    case Indexed(k, i) => Regroup("/" + k, "/", Digits(i));
    case Whole(k) =>
  }
}

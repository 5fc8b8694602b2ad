/**
 The release gate for grouped worker Deployments (scripts/release-gate.py): a bump is
 refused before it is written unless every gate it touches moves as a whole, and the
 whole tree can be verified at any time. Bumps that pass keep the tree verifiable.
 */
module ReleaseGate {
  import opened Wrappers
  import opened JsonDocs
  import opened Text
  import opened Seqs

  const GATE := "platform-gitops/release-gates.yaml"

  // ---------------------------------------------------------------- versions

  datatype Version = Version(major: nat, minor: nat, patch: nat) {
    predicate Less(that: Version) {
      major < that.major
      || (major == that.major && minor < that.minor)
      || (major == that.major && minor == that.minor && patch < that.patch)
    }

    function Print(): string {
      Digits(major) + ['.'] + Digits(minor) + ['.'] + Digits(patch)
    }
  }

  /** str(doc). A list or a mapping prints with its bracket first; the rest never matters here. */
  function StrOf(j: Json): string {
    match j
    case Null => "None"
    case Bool(b) => if b then "True" else "False"
    case Num(n) => if n < 0 then "-" + Digits(-n) else Digits(n)
    case Str(s) => s
    case Arr(_) => "["
    case Obj(_) => "{"
  }

  function SemverOf(tag: string): Option<Version> {
    var parts := Split(tag, '.');
    if |parts| == 3 && IsNumeral(parts[0]) && IsNumeral(parts[1]) && IsNumeral(parts[2])
    then Some(Version(Value(parts[0]), Value(parts[1]), Value(parts[2])))
    else None
  }

  /** _semver: None, and anything that does not print as X.Y.Z, is no version. */
  function Semver(tag: Option<Json>): Option<Version> {
    if tag.None? || tag.value.Null? then None else SemverOf(StrOf(tag.value))
  }

  /** Printing undoes parsing, so two tags with the same version are the same string. */
  lemma PrintUndoesSemver(tag: string)
    requires SemverOf(tag).Some?
    ensures SemverOf(tag).value.Print() == tag
  {
    var parts := Split(tag, '.');
    JoinUndoesSplit(tag, '.');
    NumeralIsPrinted(parts[0]);
    NumeralIsPrinted(parts[1]);
    NumeralIsPrinted(parts[2]);
    JoinOfThree(parts);
    Regroup(parts[0] + ['.'], parts[1], ['.']);
    Regroup(parts[0] + ['.'], parts[1] + ['.'], parts[2]);
  }

  lemma JoinOfThree(parts: seq<string>)
    requires |parts| == 3
    ensures Join(parts, '.') == parts[0] + ['.'] + (parts[1] + ['.'] + parts[2])
  {
    assert parts[1..][1..] == [parts[2]];
    assert Join(parts[1..][1..], '.') == parts[2];
    assert Join(parts[1..], '.') == parts[1] + ['.'] + parts[2];
  }

  lemma SemverUndoesPrint(v: Version)
    ensures SemverOf(v.Print()) == Some(v)
  {
    DigitsAreANumeral(v.major);
    DigitsAreANumeral(v.minor);
    DigitsAreANumeral(v.patch);
    var (a, b, c) := (Digits(v.major), Digits(v.minor), Digits(v.patch));
    Regroup(a + ['.'], b, ['.']);
    Regroup(a + ['.'], b + ['.'], c);
    SplitOfThree(a, b, c);
  }

  lemma SplitOfThree(a: string, b: string, c: string)
    requires '.' !in a && '.' !in b && '.' !in c
    ensures Split(a + ['.'] + (b + ['.'] + c), '.') == [a, b, c]
  {
    SplitAfter(a, '.', b + ['.'] + c);
    SplitAfter(b, '.', c);
    SplitWhole(c, '.');
  }

  lemma SameVersionSameTag(s: string, t: string)
    requires SemverOf(s).Some? && SemverOf(s) == SemverOf(t)
    ensures s == t
  {
    PrintUndoesSemver(s);
    PrintUndoesSemver(t);
  }

  // ---------------------------------------------------------------- documents

  // Path to document, for every file that parses.
  type Tree = map<string, Json>

  function Load(tree: Tree, path: Json): Option<Json> {
    if path.Str? && path.s in tree then Some(tree[path.s]) else None
  }

  function Dig(doc: Json, parts: seq<string>): Option<Json> {
    if parts == [] then Some(doc)
    else match Get(doc, parts[0])
      case None => None
      case Some(sub) => Dig(sub, parts[1..])
  }

  function ReadKey(tree: Tree, path: Json, parts: seq<string>): Option<Json> {
    match Load(tree, path)
    case None => None
    case Some(doc) => Dig(doc, parts)
  }

  const TAG: seq<string> := ["image", "tag"]
  const REPOSITORY: seq<string> := ["image", "repository"]

  predicate PyIn(x: Json, xs: seq<Json>) {
    exists i :: 0 <= i < |xs| && PyEq(x, xs[i])
  }

  // ---------------------------------------------------------------- gates

  datatype Require = Require(path: Json, key: Json, equals: Json)

  // repository: None when absent or falsy, which skips that comparison.
  datatype Gate = Gate(name: Json, paths: seq<Json>, minTag: Version, repository: Option<Json>, requires_: seq<Require>)

  function ParseRequires(items: seq<Json>, paths: seq<Json>): Option<seq<Require>> {
    if items == [] then Some([])
    else
      var (path, key, equals) := (Get(items[0], "path"), Get(items[0], "key"), Get(items[0], "equals"));
      var rest := ParseRequires(items[1..], paths);
      if path.Some? && key.Some? && equals.Some? && PyIn(path.value, paths) && rest.Some?
      then Some([Require(path.value, key.value, equals.value)] + rest.value)
      else None
  }

  function ParseGate(g: Json): Option<Gate> {
    var (name, paths, min, reqs) := (Get(g, "name"), Get(g, "paths"), Get(g, "min_tag"), Get(g, "requires"));
    if !(name.Some? && Truthy(name.value) && paths.Some? && paths.value.Arr? && paths.value.items != []) then None
    else if Semver(min).None? then None
    else
      var items := if reqs.Some? && Truthy(reqs.value) then Some(reqs.value) else None;
      if items.Some? && !items.value.Arr? then None
      else
        var parsed := ParseRequires(if items.None? then [] else items.value.items, paths.value.items);
        var repo := Get(g, "repository");
        if parsed.None? then None
        else Some(Gate(name.value, paths.value.items, Semver(min).value,
                       if repo.Some? && Truthy(repo.value) then repo else None, parsed.value))
  }

  function ParseGates(items: seq<Json>): Option<seq<Gate>> {
    if items == [] then Some([])
    else
      var (first, rest) := (ParseGate(items[0]), ParseGates(items[1..]));
      if first.Some? && rest.Some? then Some([first.value] + rest.value) else None
  }

  /** _gates: None when the gate file is missing or malformed. */
  function Gates(tree: Tree): Option<seq<Gate>> {
    var gates := ReadKey(tree, Str(GATE), ["gates"]);
    if gates.Some? && gates.value.Arr? && gates.value.items != [] then ParseGates(gates.value.items) else None
  }

  // ---------------------------------------------------------------- problems

  datatype Problem =
    | GateUnreadable
    | PartialBump(gate: Json, missing: set<Json>)
    | NewTagUnreadable(gate: Json)
    | NewTagBelowFloor(gate: Json)
    | TagUnreadable(path: Json)
    | WrongRepository(path: Json)
    | TagNotSemver(path: Json)
    | TagBelowFloor(path: Json)
    | TagsDiffer(gate: Json)
    | RequireUnreadable(path: Json, key: Json)
    | RequireFails(path: Json, key: Json)

  // What check is asked about; verify has no request and looks at the whole tree.
  datatype Request = Request(files: seq<string>, newTag: string)

  predicate Listed(path: Json, files: seq<string>) {
    path.Str? && path.s in files
  }

  function Touched(paths: seq<Json>, request: Option<Request>): seq<Json> {
    if request.None? || paths == [] then paths
    else (if Listed(paths[0], request.value.files) then [paths[0]] else []) + Touched(paths[1..], request)
  }

  function RequestProblems(g: Gate, touched: seq<Json>, request: Option<Request>): seq<Problem> {
    if request.None? then []
    else
      // sorted(touched) != sorted(paths), as Touched drops elements of paths
      (if |touched| != |g.paths|
       then [PartialBump(g.name, (set p | p in g.paths) - (set p | p in touched))] else [])
      + (match SemverOf(request.value.newTag)
         case None => [NewTagUnreadable(g.name)]
         case Some(v) => if v.Less(g.minTag) then [NewTagBelowFloor(g.name)] else [])
  }

  /** The tag of a gated file; unreadable too when its repository is to be compared and is not there. */
  function ReadTag(tree: Tree, g: Gate, path: Json): Option<Json> {
    if g.repository.Some? && ReadKey(tree, path, REPOSITORY).None? then None else ReadKey(tree, path, TAG)
  }

  function FileProblems(tree: Tree, g: Gate, path: Json, verify: bool): seq<Problem> {
    var tag := ReadTag(tree, g, path);
    if tag.None? then [TagUnreadable(path)]
    else
      (if g.repository.Some? && !PyEq(ReadKey(tree, path, REPOSITORY).value, g.repository.value)
       then [WrongRepository(path)] else [])
      + (match Semver(tag)
         case None => [TagNotSemver(path)]
         case Some(v) => if verify && v.Less(g.minTag) then [TagBelowFloor(path)] else [])
  }

  function AllFileProblems(tree: Tree, g: Gate, paths: seq<Json>, verify: bool): seq<Problem> {
    if paths == [] then [] else FileProblems(tree, g, paths[0], verify) + AllFileProblems(tree, g, paths[1..], verify)
  }

  /** The distinct tags across the group, printed. */
  function TagsOf(tree: Tree, g: Gate, paths: seq<Json>): set<string> {
    set p | p in paths && ReadTag(tree, g, p).Some? :: StrOf(ReadTag(tree, g, p).value)
  }

  function RequireProblems(tree: Tree, r: Require, touched: seq<Json>): seq<Problem> {
    if !PyIn(r.path, touched) then []
    else
      var got := if r.key.Str? then ReadKey(tree, r.path, Split(r.key.s, '.')) else None;
      if got.None? then [RequireUnreadable(r.path, r.key)]
      else if !PyEq(got.value, r.equals) then [RequireFails(r.path, r.key)]
      else []
  }

  function AllRequireProblems(tree: Tree, rs: seq<Require>, touched: seq<Json>): seq<Problem> {
    if rs == [] then [] else RequireProblems(tree, rs[0], touched) + AllRequireProblems(tree, rs[1..], touched)
  }

  function GateProblems(tree: Tree, g: Gate, request: Option<Request>): seq<Problem> {
    var touched := Touched(g.paths, request);
    if touched == [] then []
    else
      RequestProblems(g, touched, request)
      + AllFileProblems(tree, g, touched, request.None?)
      + (if |TagsOf(tree, g, touched)| > 1 then [TagsDiffer(g.name)] else [])
      + AllRequireProblems(tree, g.requires_, touched)
  }

  function AllGateProblems(tree: Tree, gates: seq<Gate>, request: Option<Request>): seq<Problem> {
    if gates == [] then [] else GateProblems(tree, gates[0], request) + AllGateProblems(tree, gates[1..], request)
  }

  function ProblemsOf(tree: Tree, request: Option<Request>): seq<Problem> {
    match Gates(tree)
    case None => [GateUnreadable]
    case Some(gates) => AllGateProblems(tree, gates, request)
  }

  lemma FilesStep(tree: Tree, g: Gate, touched: seq<Json>, verify: bool, j: nat, out: seq<Problem>)
    requires j < |touched|
    ensures out + AllFileProblems(tree, g, touched[j..], verify)
         == (out + FileProblems(tree, g, touched[j], verify)) + AllFileProblems(tree, g, touched[j + 1..], verify)
  {
    RestOfRest(touched, j);
    Regroup(out, FileProblems(tree, g, touched[j], verify), AllFileProblems(tree, g, touched[j + 1..], verify));
  }

  lemma RequiresStep(tree: Tree, rs: seq<Require>, touched: seq<Json>, j: nat, out: seq<Problem>)
    requires j < |rs|
    ensures out + AllRequireProblems(tree, rs[j..], touched)
         == (out + RequireProblems(tree, rs[j], touched)) + AllRequireProblems(tree, rs[j + 1..], touched)
  {
    RestOfRest(rs, j);
    Regroup(out, RequireProblems(tree, rs[j], touched), AllRequireProblems(tree, rs[j + 1..], touched));
  }

  lemma GatesStep(tree: Tree, gates: seq<Gate>, request: Option<Request>, i: nat, out: seq<Problem>)
    requires i < |gates|
    ensures out + AllGateProblems(tree, gates[i..], request)
         == (out + GateProblems(tree, gates[i], request)) + AllGateProblems(tree, gates[i + 1..], request)
  {
    RestOfRest(gates, i);
    Regroup(out, GateProblems(tree, gates[i], request), AllGateProblems(tree, gates[i + 1..], request));
  }

  /** The loop over the touched files of one gate: their problems, and the tags that could be read. */
  method CheckFiles(tree: Tree, g: Gate, touched: seq<Json>, verify: bool)
    returns (out: seq<Problem>, tags: map<Json, Json>)
    ensures out == AllFileProblems(tree, g, touched, verify)
    ensures forall p :: p in tags <==> p in touched && ReadTag(tree, g, p).Some?
    ensures forall p :: p in tags ==> tags[p] == ReadTag(tree, g, p).value
  {
    out, tags := [], map[];
    for j := 0 to |touched|
      invariant out + AllFileProblems(tree, g, touched[j..], verify) == AllFileProblems(tree, g, touched, verify)
      invariant forall p :: p in tags <==> p in touched[..j] && ReadTag(tree, g, p).Some?
      invariant forall p :: p in tags ==> tags[p] == ReadTag(tree, g, p).value
    {
      var path := touched[j];
      var found := FileProblems(tree, g, path, verify);
      FilesStep(tree, g, touched, verify, j, out);
      NextOfFirst(touched, j);
      out := out + found;
      var tag := ReadTag(tree, g, path);
      if tag.Some? {
        tags := tags[path := tag.value];
      }
    }
    CutAt(touched, |touched|);
    NothingAdded(out);
  }

  method CheckRequires(tree: Tree, rs: seq<Require>, touched: seq<Json>) returns (out: seq<Problem>)
    ensures out == AllRequireProblems(tree, rs, touched)
  {
    out := [];
    for j := 0 to |rs|
      invariant out + AllRequireProblems(tree, rs[j..], touched) == AllRequireProblems(tree, rs, touched)
    {
      var found := RequireProblems(tree, rs[j], touched);
      RequiresStep(tree, rs, touched, j, out);
      out := out + found;
    }
    NothingAdded(out);
  }

  method CheckGate(tree: Tree, g: Gate, request: Option<Request>) returns (out: seq<Problem>)
    ensures out == GateProblems(tree, g, request)
  {
    var touched := Touched(g.paths, request);
    if touched == [] {
      return [];
    }
    var files, tags := CheckFiles(tree, g, touched, request.None?);
    var distinct := set p | p in tags :: StrOf(tags[p]);
    assert distinct == TagsOf(tree, g, touched);
    var reqs := CheckRequires(tree, g.requires_, touched);
    out := RequestProblems(g, touched, request) + files
         + (if |distinct| > 1 then [TagsDiffer(g.name)] else []) + reqs;
  }

  method CheckGates(tree: Tree, gates: seq<Gate>, request: Option<Request>) returns (out: seq<Problem>)
    ensures out == AllGateProblems(tree, gates, request)
  {
    out := [];
    for i := 0 to |gates|
      invariant out + AllGateProblems(tree, gates[i..], request) == AllGateProblems(tree, gates, request)
    {
      var found := CheckGate(tree, gates[i], request);
      GatesStep(tree, gates, request, i, out);
      out := out + found;
    }
    NothingAdded(out);
  }

  /** problems(): every reason to refuse, in order. */
  method Problems(tree: Tree, request: Option<Request>) returns (out: seq<Problem>)
    ensures out == ProblemsOf(tree, request)
  {
    var gates := Gates(tree);
    if gates.None? {
      out := [GateUnreadable];
    } else {
      out := CheckGates(tree, gates.value, request);
    }
  }

  // ---------------------------------------------------------------- bumps

  /** The document with `newTag` written at image.tag, where that key can be written. */
  function WithTag(doc: Json, newTag: string): Json {
    if doc.Obj? && "image" in doc.fields && doc.fields["image"].Obj? then
      Obj(doc.fields["image" := Obj(doc.fields["image"].fields["tag" := Str(newTag)])])
    else doc
  }

  /** The tree after the tag was written to exactly the listed files. */
  function Bump(tree: Tree, request: Request): Tree {
    map p | p in tree :: if p in request.files then WithTag(tree[p], request.newTag) else tree[p]
  }

  predicate Clean(tree: Tree) {
    ProblemsOf(tree, None) == []
  }

  predicate Passes(tree: Tree, request: Request) {
    ProblemsOf(tree, Some(request)) == []
  }

  /** The key names image.tag, something around it, or something inside it. */
  predicate OverlapsTag(r: Require) {
    r.key.Str? && (Split(r.key.s, '.') == ["image"] || TAG <= Split(r.key.s, '.'))
  }

  predicate TouchesGate(g: Gate, request: Request) {
    exists i :: 0 <= i < |g.paths| && Listed(g.paths[i], request.files)
  }

  /** Every file whose tag this gate pins in a requires entry already carries the new tag. */
  predicate PinsAgree(tree: Tree, g: Gate, request: Request) {
    forall i :: 0 <= i < |g.requires_| ==> PinAgrees(tree, g.requires_[i], request)
  }

  predicate PinAgrees(tree: Tree, r: Require, request: Request) {
    OverlapsTag(r) ==>
      var tag := ReadKey(tree, r.path, TAG);
      tag.Some? && PyEq(tag.value, Str(request.newTag))
  }

  // ---------------------------------------------------------------- what a passing check means

  lemma {:induction false} FilesClean(tree: Tree, g: Gate, paths: seq<Json>, verify: bool)
    ensures AllFileProblems(tree, g, paths, verify) == []
       <==> forall i :: 0 <= i < |paths| ==> FileProblems(tree, g, paths[i], verify) == []
  {
    if paths != [] {
      FilesClean(tree, g, paths[1..], verify);
      assert forall i :: 1 <= i < |paths| ==> paths[i] == paths[1..][i - 1];
    }
  }

  lemma {:induction false} RequiresClean(tree: Tree, rs: seq<Require>, touched: seq<Json>)
    ensures AllRequireProblems(tree, rs, touched) == []
       <==> forall i :: 0 <= i < |rs| ==> RequireProblems(tree, rs[i], touched) == []
  {
    if rs != [] {
      RequiresClean(tree, rs[1..], touched);
      assert forall i :: 1 <= i < |rs| ==> rs[i] == rs[1..][i - 1];
    }
  }

  lemma {:induction false} GatesClean(tree: Tree, gates: seq<Gate>, request: Option<Request>)
    ensures AllGateProblems(tree, gates, request) == []
       <==> forall i :: 0 <= i < |gates| ==> GateProblems(tree, gates[i], request) == []
  {
    if gates != [] {
      GatesClean(tree, gates[1..], request);
      assert forall i :: 1 <= i < |gates| ==> gates[i] == gates[1..][i - 1];
    }
  }

  /** Touched keeps the listed paths, so it is as long as paths only when every path is listed. */
  lemma {:induction false} TouchedIsAll(paths: seq<Json>, request: Request)
    ensures |Touched(paths, Some(request))| <= |paths|
    ensures |Touched(paths, Some(request))| == |paths| ==>
              Touched(paths, Some(request)) == paths && forall i :: 0 <= i < |paths| ==> Listed(paths[i], request.files)
    ensures Touched(paths, Some(request)) == [] <==> forall i :: 0 <= i < |paths| ==> !Listed(paths[i], request.files)
  {
    if paths != [] {
      TouchedIsAll(paths[1..], request);
      FirstAndRest(paths);
      NothingAdded(Touched(paths[1..], Some(request)));
      assert forall i :: 1 <= i < |paths| ==> paths[i] == paths[1..][i - 1];
    }
  }

  ghost predicate GateIsClean(tree: Tree, g: Gate, touched: seq<Json>, verify: bool) {
    && (forall i :: 0 <= i < |touched| ==> FileProblems(tree, g, touched[i], verify) == [])
    && |TagsOf(tree, g, touched)| <= 1
    && (forall i :: 0 <= i < |g.requires_| ==> RequireProblems(tree, g.requires_[i], touched) == [])
  }

  lemma GateClean(tree: Tree, g: Gate, request: Option<Request>)
    ensures GateProblems(tree, g, request) == [] <==>
      var touched := Touched(g.paths, request);
      touched == [] || (RequestProblems(g, touched, request) == [] && GateIsClean(tree, g, touched, request.None?))
  {
    var touched := Touched(g.paths, request);
    FilesClean(tree, g, touched, request.None?);
    RequiresClean(tree, g.requires_, touched);
    NoneInAll(RequestProblems(g, touched, request), AllFileProblems(tree, g, touched, request.None?),
              if |TagsOf(tree, g, touched)| > 1 then [TagsDiffer(g.name)] else [],
              AllRequireProblems(tree, g.requires_, touched));
  }

  lemma NoneInAll(a: seq<Problem>, b: seq<Problem>, c: seq<Problem>, d: seq<Problem>)
    ensures a + b + c + d == [] <==> a == [] && b == [] && c == [] && d == []
  {
    assert |a + b + c + d| == |a| + |b| + |c| + |d|;
  }

  /** What _gates guarantees of a gate it returns. */
  predicate WellFormed(g: Gate) {
    g.paths != [] && forall i :: 0 <= i < |g.requires_| ==> PyIn(g.requires_[i].path, g.paths)
  }

  lemma {:induction false} ParsedRequiresNamePaths(items: seq<Json>, paths: seq<Json>)
    requires ParseRequires(items, paths).Some?
    ensures forall r :: r in ParseRequires(items, paths).value ==> PyIn(r.path, paths)
  {
    if items != [] {
      ParsedRequiresNamePaths(items[1..], paths);
    }
  }

  lemma {:induction false} ParsedGatesAreWellFormed(items: seq<Json>)
    requires ParseGates(items).Some?
    ensures forall g :: g in ParseGates(items).value ==> WellFormed(g)
  {
    if items != [] {
      ParsedGatesAreWellFormed(items[1..]);
      var g := ParseGate(items[0]).value;
      var (paths, reqs) := (Get(items[0], "paths").value.items, Get(items[0], "requires"));
      ParsedRequiresNamePaths(if reqs.Some? && Truthy(reqs.value) then reqs.value.items else [], paths);
      assert WellFormed(g);
    }
  }

  // ---------------------------------------------------------------- what a bump changes

  lemma DigOnce(doc: Json, key: string)
    ensures Dig(doc, [key]) == Get(doc, key)
  {
    if Get(doc, key).Some? {
      assert [key][1..] == [];
    }
  }

  lemma DigTwice(doc: Json, outer: string, inner: string)
    ensures Dig(doc, [outer, inner]) == match Get(doc, outer) case None => None case Some(sub) => Get(sub, inner)
  {
    assert [outer, inner][1..] == [inner];
    if Get(doc, outer).Some? {
      DigOnce(Get(doc, outer).value, inner);
    }
  }

  /** Where a tag can be read, the bump replaces it and nothing else under image. */
  lemma BumpWritesTag(tree: Tree, request: Request, path: Json)
    requires Listed(path, request.files) && ReadKey(tree, path, TAG).Some?
    ensures ReadKey(Bump(tree, request), path, TAG) == Some(Str(request.newTag))
    ensures match ReadKey(tree, path, ["image"])
            case Some(Obj(image)) =>
              && "tag" in image && image["tag"] == ReadKey(tree, path, TAG).value
              && ReadKey(Bump(tree, request), path, ["image"]) == Some(Obj(image["tag" := Str(request.newTag)]))
            case _ => false
  {
    var doc := tree[path.s];
    var after := WithTag(doc, request.newTag);
    DigTwice(doc, "image", "tag");
    DigOnce(doc, "image");
    DigTwice(after, "image", "tag");
    DigOnce(after, "image");
    assert TAG == ["image", "tag"];
  }

  lemma BumpKeepsOtherKeys(tree: Tree, request: Request, path: Json, parts: seq<string>)
    requires Listed(path, request.files) ==> parts != [] && parts != ["image"] && !(TAG <= parts)
    ensures ReadKey(Bump(tree, request), path, parts) == ReadKey(tree, path, parts)
  {
    if Load(tree, path).Some? && Listed(path, request.files) {
      var doc := tree[path.s];
      var after := WithTag(doc, request.newTag);
      if parts[0] == "image" && after != doc {
        assert parts[1..] != [];
        assert parts[1] != "tag" by {
          assert TAG == ["image", "tag"];
        }
        assert Dig(after, parts) == Dig(after.fields["image"], parts[1..]);
        assert Dig(doc, parts) == Dig(doc.fields["image"], parts[1..]);
      }
    }
  }

  lemma StrEqMeansSame(a: Json, s: string)
    requires PyEq(a, Str(s))
    ensures a == Str(s)
  {
  }

  /** A requires entry that pins the tag survives the bump exactly when it pins the new one. */
  lemma PinSurvivesExactly(tree: Tree, g: Gate, r: Require, request: Request, touched: seq<Json>)
    requires PyIn(r.path, touched) && Listed(r.path, request.files) && OverlapsTag(r)
    requires RequireProblems(tree, r, touched) == []
    requires ReadKey(tree, r.path, TAG).Some? && Semver(ReadKey(tree, r.path, TAG)).Some?
    ensures RequireProblems(Bump(tree, request), r, touched) == []
       <==> PyEq(ReadKey(tree, r.path, TAG).value, Str(request.newTag))
  {
    var parts := Split(r.key.s, '.');
    BumpWritesTag(tree, request, r.path);
    var tag := ReadKey(tree, r.path, TAG).value;
    if parts == ["image"] {
      var image := ReadKey(tree, r.path, ["image"]).value.fields;
      var before := Canonical(Obj(image)).fields;
      var after := Canonical(Obj(image["tag" := Str(request.newTag)])).fields;
      CanonicalUpdate(image, "tag", Str(request.newTag));
      assert after == before["tag" := Str(request.newTag)];
      assert before["tag"] == Canonical(tag);
      assert before == after <==> Canonical(tag) == Str(request.newTag) by {
        if Canonical(tag) == Str(request.newTag) { assert before == after; }
      }
    } else if parts == TAG {
    } else {
      TagHasNoParts(tree, r.path, parts);
    }
  }

  /** A tag that prints as X.Y.Z is no mapping, so nothing can be read inside it. */
  lemma TagHasNoParts(tree: Tree, path: Json, parts: seq<string>)
    requires TAG <= parts && TAG != parts
    requires ReadKey(tree, path, TAG).Some? && Semver(ReadKey(tree, path, TAG)).Some?
    ensures ReadKey(tree, path, parts).None?
  {
    var doc := tree[path.s];
    DigTwice(doc, "image", "tag");
    var tag := ReadKey(tree, path, TAG).value;
    assert !tag.Obj? by {
      SplitWhole("{", '.');
    }
    assert parts[0] == "image" && parts[1..][0] == "tag" && parts[1..][1..] == parts[2..];
    assert Dig(doc, parts) == Dig(doc.fields["image"], parts[1..]);
    assert Dig(doc.fields["image"], parts[1..]) == Dig(tag, parts[2..]);
  }

  // ---------------------------------------------------------------- the gate theorems

  lemma TouchedPaths(g: Gate, request: Request)
    requires WellFormed(g) && TouchesGate(g, request)
    requires RequestProblems(g, Touched(g.paths, Some(request)), Some(request)) == []
    ensures Touched(g.paths, Some(request)) == g.paths
    ensures SemverOf(request.newTag).Some? && !SemverOf(request.newTag).value.Less(g.minTag)
    ensures forall i :: 0 <= i < |g.paths| ==> Listed(g.paths[i], request.files)
    ensures forall i :: 0 <= i < |g.requires_| ==>
              Listed(g.requires_[i].path, request.files) && PyIn(g.requires_[i].path, g.paths)
  {
    TouchedIsAll(g.paths, request);
    forall i | 0 <= i < |g.requires_| ensures Listed(g.requires_[i].path, request.files) {
      var r := g.requires_[i];
      var k :| 0 <= k < |g.paths| && PyEq(r.path, g.paths[k]);
      StrEqMeansSame(r.path, g.paths[k].s);
    }
  }

  lemma BumpedFileIsClean(tree: Tree, g: Gate, request: Request, path: Json)
    requires Listed(path, request.files) && FileProblems(tree, g, path, false) == []
    requires SemverOf(request.newTag).Some? && !SemverOf(request.newTag).value.Less(g.minTag)
    ensures ReadTag(Bump(tree, request), g, path) == Some(Str(request.newTag))
    ensures FileProblems(Bump(tree, request), g, path, true) == []
    ensures ReadKey(tree, path, TAG).Some? && Semver(ReadKey(tree, path, TAG)).Some?
  {
    BumpWritesTag(tree, request, path);
    assert TAG == ["image", "tag"] && REPOSITORY == ["image", "repository"];
    assert REPOSITORY[1] != TAG[1];
    BumpKeepsOtherKeys(tree, request, path, REPOSITORY);
  }

  lemma TouchedGateFiles(tree: Tree, g: Gate, request: Request)
    requires forall i :: 0 <= i < |g.paths| ==> Listed(g.paths[i], request.files) && FileProblems(tree, g, g.paths[i], false) == []
    requires SemverOf(request.newTag).Some? && !SemverOf(request.newTag).value.Less(g.minTag)
    ensures forall i :: 0 <= i < |g.paths| ==> FileProblems(Bump(tree, request), g, g.paths[i], true) == []
    ensures |TagsOf(Bump(tree, request), g, g.paths)| <= 1
  {
    var after := Bump(tree, request);
    forall i | 0 <= i < |g.paths|
      ensures ReadTag(after, g, g.paths[i]) == Some(Str(request.newTag)) && FileProblems(after, g, g.paths[i], true) == []
    {
      BumpedFileIsClean(tree, g, request, g.paths[i]);
    }
    assert TagsOf(after, g, g.paths) <= {request.newTag};
    OneAtMost(TagsOf(after, g, g.paths), request.newTag);
  }

  /** A check that passed on a touched gate saw all its files, and a new tag it may carry. */
  lemma PassedGate(tree: Tree, g: Gate, request: Request)
    requires WellFormed(g) && TouchesGate(g, request) && GateProblems(tree, g, Some(request)) == []
    ensures GateIsClean(tree, g, g.paths, false)
    ensures SemverOf(request.newTag).Some? && !SemverOf(request.newTag).value.Less(g.minTag)
    ensures forall i :: 0 <= i < |g.paths| ==> Listed(g.paths[i], request.files)
    ensures forall i :: 0 <= i < |g.requires_| ==> Listed(g.requires_[i].path, request.files)
  {
    TouchedIsAll(g.paths, request);
    GateClean(tree, g, Some(request));
    TouchedPaths(g, request);
  }

  lemma VerifiedGate(tree: Tree, g: Gate)
    requires WellFormed(g)
    ensures GateProblems(tree, g, None) == [] <==> GateIsClean(tree, g, g.paths, true)
  {
    GateClean(tree, g, None);
  }

  lemma TouchedGateRequires(tree: Tree, g: Gate, request: Request)
    requires WellFormed(g) && GateIsClean(tree, g, g.paths, false)
    requires forall i :: 0 <= i < |g.paths| ==> Listed(g.paths[i], request.files)
    requires forall i :: 0 <= i < |g.requires_| ==> Listed(g.requires_[i].path, request.files)
    ensures (forall i :: 0 <= i < |g.requires_| ==> RequireProblems(Bump(tree, request), g.requires_[i], g.paths) == [])
       <==> PinsAgree(tree, g, request)
  {
    forall i | 0 <= i < |g.requires_|
      ensures RequireProblems(Bump(tree, request), g.requires_[i], g.paths) == []
         <==> PinAgrees(tree, g.requires_[i], request)
    {
      RequireAfterBump(tree, g, request, g.requires_[i]);
    }
  }

  /**
   A touched gate after a bump that passed: it verifies exactly when every requires entry
   that pins the tag already agreed with the new one. Its state before does not matter.
   */
  lemma TouchedGateAfterBump(tree: Tree, g: Gate, request: Request)
    requires WellFormed(g) && TouchesGate(g, request) && GateProblems(tree, g, Some(request)) == []
    ensures GateProblems(Bump(tree, request), g, None) == [] <==> PinsAgree(tree, g, request)
  {
    PassedGate(tree, g, request);
    TouchedGateFiles(tree, g, request);
    TouchedGateRequires(tree, g, request);
    VerifiedGate(Bump(tree, request), g);
  }

  lemma OneAtMost(s: set<string>, x: string)
    requires s <= {x}
    ensures |s| <= 1
  {
    if s != {} { assert s == {x}; }
  }

  lemma RequireAfterBump(tree: Tree, g: Gate, request: Request, r: Require)
    requires Listed(r.path, request.files) && PyIn(r.path, g.paths)
    requires RequireProblems(tree, r, g.paths) == []
    requires forall i :: 0 <= i < |g.paths| ==> Listed(g.paths[i], request.files) && FileProblems(tree, g, g.paths[i], false) == []
    ensures RequireProblems(Bump(tree, request), r, g.paths) == [] <==> PinAgrees(tree, r, request)
  {
    if OverlapsTag(r) {
      var k :| 0 <= k < |g.paths| && PyEq(r.path, g.paths[k]);
      StrEqMeansSame(r.path, g.paths[k].s);
      PinSurvivesExactly(tree, g, r, request, g.paths);
    } else if r.key.Str? {
      BumpKeepsOtherKeys(tree, request, r.path, Split(r.key.s, '.'));
    }
  }

  lemma UnlistedFileAfterBump(tree: Tree, g: Gate, request: Request, path: Json)
    requires !Listed(path, request.files)
    ensures ReadTag(Bump(tree, request), g, path) == ReadTag(tree, g, path)
    ensures FileProblems(Bump(tree, request), g, path, true) == FileProblems(tree, g, path, true)
  {
    BumpKeepsOtherKeys(tree, request, path, TAG);
    BumpKeepsOtherKeys(tree, request, path, REPOSITORY);
  }

  lemma UnlistedRequireAfterBump(tree: Tree, g: Gate, request: Request, r: Require)
    requires !TouchesGate(g, request)
    ensures RequireProblems(Bump(tree, request), r, g.paths) == RequireProblems(tree, r, g.paths)
  {
    if PyIn(r.path, g.paths) && r.key.Str? {
      var k :| 0 <= k < |g.paths| && PyEq(r.path, g.paths[k]);
      if r.path.Str? {
        StrEqMeansSame(g.paths[k], r.path.s);
      }
      assert !Listed(r.path, request.files);
      BumpKeepsOtherKeys(tree, request, r.path, Split(r.key.s, '.'));
    }
  }

  /** Two trees that read alike for a gate are judged alike by it. */
  lemma SameReadsSameVerdict(a: Tree, b: Tree, g: Gate)
    requires forall i :: 0 <= i < |g.paths| ==> ReadTag(a, g, g.paths[i]) == ReadTag(b, g, g.paths[i])
    requires forall i :: 0 <= i < |g.paths| ==> FileProblems(a, g, g.paths[i], true) == FileProblems(b, g, g.paths[i], true)
    requires forall i :: 0 <= i < |g.requires_| ==>
               RequireProblems(a, g.requires_[i], g.paths) == RequireProblems(b, g.requires_[i], g.paths)
    ensures GateIsClean(a, g, g.paths, true) <==> GateIsClean(b, g, g.paths, true)
  {
    assert TagsOf(a, g, g.paths) == TagsOf(b, g, g.paths);
  }

  lemma UntouchedGateAfterBump(tree: Tree, g: Gate, request: Request)
    requires !TouchesGate(g, request)
    ensures GateProblems(Bump(tree, request), g, None) == [] <==> GateProblems(tree, g, None) == []
  {
    var after := Bump(tree, request);
    forall i | 0 <= i < |g.paths|
      ensures ReadTag(after, g, g.paths[i]) == ReadTag(tree, g, g.paths[i])
      ensures FileProblems(after, g, g.paths[i], true) == FileProblems(tree, g, g.paths[i], true)
    {
      UnlistedFileAfterBump(tree, g, request, g.paths[i]);
    }
    forall i | 0 <= i < |g.requires_|
      ensures RequireProblems(after, g.requires_[i], g.paths) == RequireProblems(tree, g.requires_[i], g.paths)
    {
      UnlistedRequireAfterBump(tree, g, request, g.requires_[i]);
    }
    SameReadsSameVerdict(after, tree, g);
    VerdictIsClean(tree, g);
    VerdictIsClean(after, g);
  }

  lemma VerdictIsClean(tree: Tree, g: Gate)
    ensures GateProblems(tree, g, None) == [] <==> g.paths == [] || GateIsClean(tree, g, g.paths, true)
  {
    GateClean(tree, g, None);
  }

  lemma BumpKeepsGates(tree: Tree, request: Request)
    ensures Gates(Bump(tree, request)) == Gates(tree)
  {
    assert ["gates"][0] != "image";
    assert !(TAG <= ["gates"]);
    BumpKeepsOtherKeys(tree, request, Str(GATE), ["gates"]);
  }

  /** Every gate the bump touches agrees with it on the tags it pins. */
  predicate AllPinsAgree(tree: Tree, request: Request) {
    Gates(tree).Some? ==>
      forall i :: 0 <= i < |Gates(tree).value| && TouchesGate(Gates(tree).value[i], request) ==>
        PinsAgree(tree, Gates(tree).value[i], request)
  }

  /** One bump: a clean tree stays clean exactly when no pinned tag moves. Gates may share files. */
  lemma BumpKeepsTreeCleanExactly(tree: Tree, request: Request)
    requires Clean(tree) && Passes(tree, request)
    ensures Clean(Bump(tree, request)) <==> AllPinsAgree(tree, request)
  {
    var after := Bump(tree, request);
    BumpKeepsGates(tree, request);
    var gates := Gates(tree).value;
    ParsedGatesAreWellFormed(ReadKey(tree, Str(GATE), ["gates"]).value.items);
    GatesClean(tree, gates, None);
    GatesClean(tree, gates, Some(request));
    GatesClean(after, gates, None);
    forall i | 0 <= i < |gates|
      ensures GateProblems(after, gates[i], None) == []
         <==> (TouchesGate(gates[i], request) ==> PinsAgree(tree, gates[i], request))
    {
      assert gates[i] in gates;
      GateAfterBump(tree, gates[i], request);
    }
  }

  lemma GateAfterBump(tree: Tree, g: Gate, request: Request)
    requires WellFormed(g) && GateProblems(tree, g, None) == [] && GateProblems(tree, g, Some(request)) == []
    ensures GateProblems(Bump(tree, request), g, None) == [] <==> (TouchesGate(g, request) ==> PinsAgree(tree, g, request))
  {
    if TouchesGate(g, request) {
      TouchedGateAfterBump(tree, g, request);
    } else {
      UntouchedGateAfterBump(tree, g, request);
    }
  }

  /** No gate requires anything that overlaps image.tag. */
  predicate NoPins(tree: Tree) {
    Gates(tree).Some? ==>
      forall i, j :: 0 <= i < |Gates(tree).value| && 0 <= j < |Gates(tree).value[i].requires_| ==>
        !OverlapsTag(Gates(tree).value[i].requires_[j])
  }

  ghost predicate AllPass(tree: Tree, bumps: seq<Request>)
    decreases |bumps|
  {
    bumps != [] ==> Passes(tree, bumps[0]) && AllPass(Bump(tree, bumps[0]), bumps[1..])
  }

  ghost function AfterBumps(tree: Tree, bumps: seq<Request>): Tree
    decreases |bumps|
  {
    if bumps == [] then tree else AfterBumps(Bump(tree, bumps[0]), bumps[1..])
  }

  /** Any number of bumps, each checked before it is written, keep a clean tree clean. */
  lemma {:induction false} BumpsKeepTreeClean(tree: Tree, bumps: seq<Request>)
    requires Clean(tree) && NoPins(tree) && AllPass(tree, bumps)
    ensures Clean(AfterBumps(tree, bumps))
    decreases |bumps|
  {
    if bumps != [] {
      BumpKeepsGates(tree, bumps[0]);
      BumpKeepsTreeCleanExactly(tree, bumps[0]);
      BumpsKeepTreeClean(Bump(tree, bumps[0]), bumps[1..]);
    }
  }

  /** One gate over one file, whose requires entry pins image.tag to the floor itself. */
  function PinningGate(path: string, low: Version): Gate {
    Gate(Str("pinned"), [Str(path)], low, None, [Require(Str(path), TAG_KEY, Str(low.Print()))])
  }

  const TAG_KEY := Str("image" + ['.'] + "tag")

  /** The gate as release-gates.yaml holds it. */
  function PinningGateDoc(path: string, low: Version): Json {
    Obj(map["name" := Str("pinned"), "paths" := Arr([Str(path)]), "min_tag" := Str(low.Print()),
            "requires" := Arr([PinningRequireDoc(path, low)])])
  }

  function PinningRequireDoc(path: string, low: Version): Json {
    Obj(map["path" := Str(path), "key" := TAG_KEY, "equals" := Str(low.Print())])
  }

  /** The gate file, and one values file that carries the pinned tag. */
  function PinnedTree(path: string, low: Version): Tree {
    map[path := Obj(map["image" := Obj(map["tag" := Str(low.Print())])]),
        GATE := Obj(map["gates" := Arr([PinningGateDoc(path, low)])])]
  }

  lemma PinningRequireIsParsed(path: string, low: Version)
    ensures ParseRequires([PinningRequireDoc(path, low)], [Str(path)])
         == Some([Require(Str(path), TAG_KEY, Str(low.Print()))])
  {
    var r := PinningRequireDoc(path, low);
    assert Get(r, "path") == Some(Str(path)) && Get(r, "key") == Some(TAG_KEY) && Get(r, "equals") == Some(Str(low.Print()));
    assert PyEq(Str(path), [Str(path)][0]);
    OneRequireIsParsed(r, [Str(path)], Require(Str(path), TAG_KEY, Str(low.Print())));
  }

  lemma OneRequireIsParsed(item: Json, paths: seq<Json>, r: Require)
    requires Get(item, "path") == Some(r.path) && Get(item, "key") == Some(r.key) && Get(item, "equals") == Some(r.equals)
    requires PyIn(r.path, paths)
    ensures ParseRequires([item], paths) == Some([r])
  {
    assert [item][1..] == [];
    assert ParseRequires([item][1..], paths) == Some([]);
    NothingAdded([r]);
  }

  lemma OneGateIsParsed(item: Json, g: Gate)
    requires ParseGate(item) == Some(g)
    ensures ParseGates([item]) == Some([g])
  {
    assert [item][1..] == [];
    assert ParseGates([item][1..]) == Some([]);
    NothingAdded([g]);
  }

  lemma PinningGateIsParsed(path: string, low: Version)
    ensures ParseGate(PinningGateDoc(path, low)) == Some(PinningGate(path, low))
  {
    var g := PinningGateDoc(path, low);
    assert Get(g, "name") == Some(Str("pinned")) && Truthy(Str("pinned"));
    assert Get(g, "paths") == Some(Arr([Str(path)])) && Get(g, "repository").None?;
    assert Get(g, "requires") == Some(Arr([PinningRequireDoc(path, low)]));
    assert Truthy(Arr([PinningRequireDoc(path, low)]));
    assert Get(g, "min_tag") == Some(Str(low.Print()));
    SemverUndoesPrint(low);
    PinningRequireIsParsed(path, low);
  }

  lemma PinnedTreeGates(path: string, low: Version)
    requires path != GATE
    ensures Gates(PinnedTree(path, low)) == Some([PinningGate(path, low)])
  {
    var (tree, docs) := (PinnedTree(path, low), [PinningGateDoc(path, low)]);
    assert tree[GATE] == Obj(map["gates" := Arr(docs)]);
    DigOnce(tree[GATE], "gates");
    PinningGateIsParsed(path, low);
    OneGateIsParsed(docs[0], PinningGate(path, low));
  }

  lemma PinnedTreeReads(path: string, low: Version)
    requires path != GATE
    ensures ReadKey(PinnedTree(path, low), Str(path), TAG) == Some(Str(low.Print()))
    ensures Split("image" + ['.'] + "tag", '.') == TAG
    ensures SemverOf(low.Print()) == Some(low)
  {
    DigTwice(PinnedTree(path, low)[path], "image", "tag");
    SplitAfter("image", '.', "tag");
    SplitWhole("tag", '.');
    SemverUndoesPrint(low);
  }

  lemma PinnedGateIsClean(path: string, low: Version, verify: bool)
    requires path != GATE
    ensures GateIsClean(PinnedTree(path, low), PinningGate(path, low), [Str(path)], verify)
  {
    var (tree, g) := (PinnedTree(path, low), PinningGate(path, low));
    PinnedTreeReads(path, low);
    assert ReadTag(tree, g, Str(path)) == Some(Str(low.Print()));
    assert !low.Less(low);
    PinnedFileIsClean(tree, g, Str(path), low, verify);
    OneAtMost(TagsOf(tree, g, [Str(path)]), low.Print());
    PinnedRequireIsClean(tree, g.requires_[0], [Str(path)], low);
  }

  lemma PinnedFileIsClean(tree: Tree, g: Gate, path: Json, low: Version, verify: bool)
    requires g.repository.None? && g.minTag == low && ReadTag(tree, g, path) == Some(Str(low.Print()))
    requires SemverOf(low.Print()) == Some(low)
    ensures FileProblems(tree, g, path, verify) == [] && TagsOf(tree, g, [path]) == {low.Print()}
  {
    assert path in [path];
  }

  lemma PinnedRequireIsClean(tree: Tree, r: Require, touched: seq<Json>, low: Version)
    requires touched == [r.path] && r.key.Str? && Split(r.key.s, '.') == TAG
    requires ReadKey(tree, r.path, TAG) == Some(Str(low.Print())) && r.equals == Str(low.Print())
    ensures RequireProblems(tree, r, touched) == []
  {
    assert PyEq(r.path, touched[0]);
  }

  /** The check lets a bump of the pinned file to a higher version pass. */
  lemma PinnedBumpPasses(path: string, low: Version, high: Version)
    requires low.Less(high) && path != GATE
    ensures GateProblems(PinnedTree(path, low), PinningGate(path, low), Some(Request([path], high.Print()))) == []
  {
    var (tree, g, bump) := (PinnedTree(path, low), PinningGate(path, low), Request([path], high.Print()));
    PinnedGateIsClean(path, low, false);
    SemverUndoesPrint(high);
    OneFileIsTouched(g.paths, path, bump);
    NothingAgainst(g, bump, high);
    GateClean(tree, g, Some(bump));
  }

  lemma OneFileIsTouched(paths: seq<Json>, path: string, request: Request)
    requires paths == [Str(path)] && request.files == [path]
    ensures Touched(paths, Some(request)) == paths
  {
    assert Listed(paths[0], request.files);
    assert paths[1..] == [];
  }

  lemma NothingAgainst(g: Gate, request: Request, tag: Version)
    requires SemverOf(request.newTag) == Some(tag) && !tag.Less(g.minTag)
    ensures RequestProblems(g, g.paths, Some(request)) == []
  {
  }

  /** With one gate the problems of the tree are its own. */
  lemma OneGateAlone(tree: Tree, g: Gate, request: Option<Request>)
    requires Gates(tree) == Some([g])
    ensures ProblemsOf(tree, request) == [] <==> GateProblems(tree, g, request) == []
  {
    GatesClean(tree, [g], request);
    assert [g][0] == g;
  }

  lemma PinnedTreeIsClean(path: string, low: Version)
    requires path != GATE
    ensures Clean(PinnedTree(path, low))
  {
    var (tree, g) := (PinnedTree(path, low), PinningGate(path, low));
    PinnedTreeGates(path, low);
    PinnedGateIsClean(path, low, true);
    assert PyEq(Str(path), g.paths[0]) && WellFormed(g);
    VerifiedGate(tree, g);
    OneGateAlone(tree, g, None);
  }

  lemma PinMoves(path: string, low: Version, high: Version)
    requires low.Less(high) && path != GATE
    ensures !AllPinsAgree(PinnedTree(path, low), Request([path], high.Print()))
  {
    var (tree, g, bump) := (PinnedTree(path, low), PinningGate(path, low), Request([path], high.Print()));
    PinnedTreeGates(path, low);
    PinnedTreeReads(path, low);
    PinDisagrees(tree, g.requires_[0], bump, low, high);
    assert Listed(g.paths[0], bump.files) && TouchesGate(g, bump);
    OneGateDisagrees(tree, g, bump);
  }

  lemma PinDisagrees(tree: Tree, r: Require, request: Request, low: Version, high: Version)
    requires low.Less(high) && request.newTag == high.Print()
    requires r.key.Str? && Split(r.key.s, '.') == TAG && ReadKey(tree, r.path, TAG) == Some(Str(low.Print()))
    ensures !PinAgrees(tree, r, request)
  {
    SemverUndoesPrint(low);
    SemverUndoesPrint(high);
  }

  lemma OneGateDisagrees(tree: Tree, g: Gate, request: Request)
    requires Gates(tree) == Some([g]) && TouchesGate(g, request)
    requires g.requires_ != [] && !PinAgrees(tree, g.requires_[0], request)
    ensures !AllPinsAgree(tree, request)
  {
    assert [g][0] == g;
  }

  /**
   So a requires entry on image.tag itself lets a bump pass that the next verify refuses:
   this tree is clean, the bump to any higher version passes, and the bumped tree is not clean.
   */
  lemma PinnedTagBreaksTheTree(path: string, low: Version, high: Version)
    requires low.Less(high) && path != GATE
    ensures var (tree, bump) := (PinnedTree(path, low), Request([path], high.Print()));
      Gates(tree).Some? && Clean(tree) && Passes(tree, bump) && !Clean(Bump(tree, bump))
  {
    var (tree, bump) := (PinnedTree(path, low), Request([path], high.Print()));
    PinnedTreeGates(path, low);
    PinnedTreeIsClean(path, low);
    PinnedBumpPasses(path, low, high);
    OneGateAlone(tree, PinningGate(path, low), Some(bump));
    BumpKeepsTreeCleanExactly(tree, bump);
    PinMoves(path, low, high);
  }
}

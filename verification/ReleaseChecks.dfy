/**
 What scripts/release-gate.py asks before a bump and of the whole tree, file by file: it
 finds no problem exactly when these conditions hold.
 */
module ReleaseChecks {
  import opened Wrappers
  import opened JsonDocs
  import opened Text
  import opened Seqs
  import opened ReleaseGate

  // ---------------------------------------------------------------- the order of versions

  function Numbers(v: Version): seq<nat> {
    [v.major, v.minor, v.patch]
  }

  /** The first number in which the two differ, the major one first, is the smaller one. */
  ghost predicate IsBefore(a: Version, b: Version) {
    exists k :: 0 <= k < 3 && Numbers(a)[k] < Numbers(b)[k] && forall j :: 0 <= j < k ==> Numbers(a)[j] == Numbers(b)[j]
  }

  lemma LessExactly(a: Version, b: Version)
    ensures a.Less(b) <==> IsBefore(a, b)
  {
    var (x, y) := (Numbers(a), Numbers(b));
    if a.Less(b) {
      var k := if a.major < b.major then 0 else if a.minor < b.minor then 1 else 2;
      assert x[k] < y[k] && forall j :: 0 <= j < k ==> x[j] == y[j];
    }
    if IsBefore(a, b) {
      var k :| 0 <= k < 3 && x[k] < y[k] && forall j :: 0 <= j < k ==> x[j] == y[j];
      assert k > 0 ==> x[0] == y[0];
      assert k > 1 ==> x[1] == y[1];
    }
  }

  /** A strict total order. */
  lemma LessIsAStrictOrder(a: Version, b: Version, c: Version)
    ensures !a.Less(a)
    ensures a != b ==> (a.Less(b) <==> !b.Less(a))
    ensures a.Less(b) && b.Less(c) ==> a.Less(c)
  {
  }

  /** Numbers are compared as numbers, however many digits they have. */
  lemma MoreDigitsIsMore(major: nat, minor: nat, more: nat, patch: nat, other: nat)
    requires minor < more
    ensures Version(major, minor, patch).Less(Version(major, more, other))
    ensures SemverOf(Version(major, more, other).Print()) == Some(Version(major, more, other))
  {
    SemverUndoesPrint(Version(major, more, other));
  }

  // ---------------------------------------------------------------- what is read

  /** Following the keys leads to this value. */
  predicate At(doc: Json, keys: seq<string>, value: Json)
    decreases |keys|
  {
    if keys == [] then doc == value
    else doc.Obj? && keys[0] in doc.fields && At(doc.fields[keys[0]], keys[1..], value)
  }

  predicate Reads(tree: Tree, path: Json, keys: seq<string>, value: Json) {
    path.Str? && path.s in tree && At(tree[path.s], keys, value)
  }

  lemma {:induction false} DigExactly(doc: Json, keys: seq<string>, value: Json)
    ensures Dig(doc, keys) == Some(value) <==> At(doc, keys, value)
    decreases |keys|
  {
    if keys != [] && doc.Obj? && keys[0] in doc.fields {
      DigExactly(doc.fields[keys[0]], keys[1..], value);
    }
  }

  lemma ReadsExactly(tree: Tree, path: Json, keys: seq<string>)
    ensures forall value :: ReadKey(tree, path, keys) == Some(value) <==> Reads(tree, path, keys, value)
  {
    forall value ensures ReadKey(tree, path, keys) == Some(value) <==> Reads(tree, path, keys, value) {
      if path.Str? && path.s in tree {
        DigExactly(tree[path.s], keys, value);
      }
    }
  }

  /** The text is the version, its three numbers in decimal. */
  predicate Spells(s: string, v: Version) {
    s == Digits(v.major) + ['.'] + Digits(v.minor) + ['.'] + Digits(v.patch)
  }

  lemma SemverExactly(s: string)
    ensures forall v :: SemverOf(s) == Some(v) <==> Spells(s, v)
  {
    if SemverOf(s).Some? {
      PrintUndoesSemver(s);
    }
    forall v | Spells(s, v) ensures SemverOf(s) == Some(v) {
      SemverUndoesPrint(v);
    }
  }

  /** Nothing but a text is ever a version, however it prints. */
  lemma OnlyTextIsAVersion(j: Json)
    ensures SemverOf(StrOf(j)).Some? ==> j.Str?
  {
    if !j.Str? {
      var s := StrOf(j);
      var dot := ".";
      match j
      case Null => assert forall i :: 0 <= i < |s| ==> s[i] == "None"[i];
      case Bool(b) => assert forall i :: 0 <= i < |s| ==> s[i] == (if b then "True" else "False")[i];
      case Num(n) =>
        if n >= 0 {
          DigitsAreANumeral(n);
        } else {
          DigitsAreANumeral(-n);
        }
      case Arr(_) =>
      case Obj(_) =>
      assert '.' !in s;
      SplitWhole(s, '.');
    }
  }

  /** At least the floor. */
  predicate Reaches(v: Version, floor: Version) {
    || v.major > floor.major
    || (v.major == floor.major && (v.minor > floor.minor || (v.minor == floor.minor && v.patch >= floor.patch)))
  }

  lemma ReachesExactly(v: Version, floor: Version)
    ensures Reaches(v, floor) <==> !v.Less(floor)
  {
  }

  // ---------------------------------------------------------------- one gate

  const IMAGE_TAG := ["image", "tag"]
  const IMAGE_REPOSITORY := ["image", "repository"]

  /** The file's tag is a version, its repository is the gate's, and in the tree the tag reaches the floor. */
  ghost predicate FileFits(tree: Tree, g: Gate, path: Json, verify: bool) {
    && (exists tag, v :: Reads(tree, path, IMAGE_TAG, tag) && !tag.Null? && Spells(StrOf(tag), v)
                         && (verify ==> Reaches(v, g.minTag)))
    && (g.repository.Some? ==>
          exists repo :: Reads(tree, path, IMAGE_REPOSITORY, repo) && PyEq(repo, g.repository.value))
  }

  /** Any two files of the group carry the same tag. */
  ghost predicate TagsAgree(tree: Tree, paths: seq<Json>) {
    forall p, q, s, t :: p in paths && q in paths && Reads(tree, p, IMAGE_TAG, s) && Reads(tree, q, IMAGE_TAG, t) ==>
      StrOf(s) == StrOf(t)
  }

  ghost predicate RequireFits(tree: Tree, r: Require, paths: seq<Json>) {
    (exists i :: 0 <= i < |paths| && PyEq(r.path, paths[i])) ==>
      r.key.Str? && exists got :: Reads(tree, r.path, Split(r.key.s, '.'), got) && PyEq(got, r.equals)
  }

  ghost predicate GroupFits(tree: Tree, g: Gate, verify: bool) {
    && (forall path :: path in g.paths ==> FileFits(tree, g, path, verify))
    && TagsAgree(tree, g.paths)
    && (forall r :: r in g.requires_ ==> RequireFits(tree, r, g.paths))
  }

  /** Before a bump that touches the gate: all of its files, and a version that reaches the floor. In the tree: always. */
  ghost predicate GateFits(tree: Tree, g: Gate, request: Option<Request>) {
    match request
    case None => GroupFits(tree, g, true)
    case Some(bump) =>
      || (forall path: Json :: path in g.paths ==> !(path.Str? && path.s in bump.files))
      || ((forall path: Json :: path in g.paths ==> path.Str? && path.s in bump.files)
          && (exists v :: Spells(bump.newTag, v) && Reaches(v, g.minTag))
          && GroupFits(tree, g, false))
  }

  lemma FileExactly(tree: Tree, g: Gate, path: Json, verify: bool)
    ensures FileProblems(tree, g, path, verify) == [] <==> FileFits(tree, g, path, verify)
  {
    ReadsExactly(tree, path, IMAGE_TAG);
    ReadsExactly(tree, path, IMAGE_REPOSITORY);
    var tag := ReadKey(tree, path, IMAGE_TAG);
    if tag.Some? && !tag.value.Null? {
      SemverExactly(StrOf(tag.value));
      var v := SemverOf(StrOf(tag.value));
      if v.Some? {
        ReachesExactly(v.value, g.minTag);
      }
    }
  }

  lemma RequireExactly(tree: Tree, r: Require, paths: seq<Json>)
    ensures RequireProblems(tree, r, paths) == [] <==> RequireFits(tree, r, paths)
  {
    if r.key.Str? {
      ReadsExactly(tree, r.path, Split(r.key.s, '.'));
    }
  }

  lemma OneTagExactly(tags: set<string>)
    ensures |tags| <= 1 <==> forall s, t :: s in tags && t in tags ==> s == t
  {
    if s :| s in tags {
      if forall a, b :: a in tags && b in tags ==> a == b {
        assert tags == {s};
      }
      if |tags| <= 1 {
        assert |tags - {s}| == |tags| - 1;
        assert tags - {s} == {};
      }
    }
  }

  lemma TagsExactly(tree: Tree, g: Gate, paths: seq<Json>, verify: bool)
    requires forall path :: path in paths ==> FileFits(tree, g, path, verify)
    ensures |TagsOf(tree, g, paths)| <= 1 <==> TagsAgree(tree, paths)
  {
    OneTagExactly(TagsOf(tree, g, paths));
    forall path | path in paths
      ensures ReadTag(tree, g, path).Some?
      ensures forall tag :: Reads(tree, path, IMAGE_TAG, tag) <==> ReadTag(tree, g, path) == Some(tag)
    {
      ReadsExactly(tree, path, IMAGE_TAG);
      ReadsExactly(tree, path, IMAGE_REPOSITORY);
      assert FileFits(tree, g, path, verify);
    }
    if TagsAgree(tree, paths) {
      forall s, t | s in TagsOf(tree, g, paths) && t in TagsOf(tree, g, paths) ensures s == t {
        var p :| p in paths && ReadTag(tree, g, p).Some? && StrOf(ReadTag(tree, g, p).value) == s;
        var q :| q in paths && ReadTag(tree, g, q).Some? && StrOf(ReadTag(tree, g, q).value) == t;
        assert Reads(tree, p, IMAGE_TAG, ReadTag(tree, g, p).value) && Reads(tree, q, IMAGE_TAG, ReadTag(tree, g, q).value);
      }
    }
    if |TagsOf(tree, g, paths)| <= 1 {
      forall p, q, s, t | p in paths && q in paths && Reads(tree, p, IMAGE_TAG, s) && Reads(tree, q, IMAGE_TAG, t)
        ensures StrOf(s) == StrOf(t)
      {
        assert StrOf(s) in TagsOf(tree, g, paths) && StrOf(t) in TagsOf(tree, g, paths);
      }
    }
  }

  lemma GroupExactly(tree: Tree, g: Gate, verify: bool)
    ensures GateIsClean(tree, g, g.paths, verify) <==> GroupFits(tree, g, verify)
  {
    forall path ensures FileProblems(tree, g, path, verify) == [] <==> FileFits(tree, g, path, verify) {
      FileExactly(tree, g, path, verify);
    }
    forall r ensures RequireProblems(tree, r, g.paths) == [] <==> RequireFits(tree, r, g.paths) {
      RequireExactly(tree, r, g.paths);
    }
    EveryPath(tree, g, verify);
    if forall path :: path in g.paths ==> FileFits(tree, g, path, verify) {
      TagsExactly(tree, g, g.paths, verify);
    }
  }

  lemma EveryPath(tree: Tree, g: Gate, verify: bool)
    ensures (forall i :: 0 <= i < |g.paths| ==> FileProblems(tree, g, g.paths[i], verify) == [])
       <==> forall path :: path in g.paths ==> FileProblems(tree, g, path, verify) == []
    ensures (forall i :: 0 <= i < |g.requires_| ==> RequireProblems(tree, g.requires_[i], g.paths) == [])
       <==> forall r :: r in g.requires_ ==> RequireProblems(tree, r, g.paths) == []
  {
  }

  lemma ListedPaths(g: Gate, bump: Request)
    ensures (forall i :: 0 <= i < |g.paths| ==> Listed(g.paths[i], bump.files))
       <==> forall path: Json :: path in g.paths ==> path.Str? && path.s in bump.files
    ensures (forall i :: 0 <= i < |g.paths| ==> !Listed(g.paths[i], bump.files))
       <==> forall path: Json :: path in g.paths ==> !(path.Str? && path.s in bump.files)
  {
  }

  lemma {:induction false} AllListedIsAll(paths: seq<Json>, bump: Request)
    requires forall i :: 0 <= i < |paths| ==> Listed(paths[i], bump.files)
    ensures Touched(paths, Some(bump)) == paths
  {
    if paths != [] {
      AllListedIsAll(paths[1..], bump);
      FirstAndRest(paths);
    }
  }

  lemma NewTagExactly(g: Gate, bump: Request)
    ensures (match SemverOf(bump.newTag) case None => false case Some(v) => !v.Less(g.minTag))
       <==> exists v :: Spells(bump.newTag, v) && Reaches(v, g.minTag)
  {
    SemverExactly(bump.newTag);
    if SemverOf(bump.newTag).Some? {
      ReachesExactly(SemverOf(bump.newTag).value, g.minTag);
    }
  }

  /** One gate has no problem exactly when it fits. */
  lemma GateExactly(tree: Tree, g: Gate, request: Option<Request>)
    ensures GateProblems(tree, g, request) == [] <==> GateFits(tree, g, request)
  {
    GateClean(tree, g, request);
    match request
    case None =>
      GroupExactly(tree, g, true);
      if g.paths == [] {
        NothingListedFits(tree, g);
      }
    case Some(bump) => BumpedGateExactly(tree, g, bump);
  }

  lemma NothingListedFits(tree: Tree, g: Gate)
    requires g.paths == []
    ensures GroupFits(tree, g, true)
  {
  }

  lemma BumpedGateExactly(tree: Tree, g: Gate, bump: Request)
    requires GateProblems(tree, g, Some(bump)) == [] <==>
      var touched := Touched(g.paths, Some(bump));
      touched == [] || (RequestProblems(g, touched, Some(bump)) == [] && GateIsClean(tree, g, touched, false))
    ensures GateProblems(tree, g, Some(bump)) == [] <==> GateFits(tree, g, Some(bump))
  {
    TouchedIsAll(g.paths, bump);
    ListedPaths(g, bump);
    NewTagExactly(g, bump);
    GroupExactly(tree, g, false);
    if forall i :: 0 <= i < |g.paths| ==> Listed(g.paths[i], bump.files) {
      AllListedIsAll(g.paths, bump);
    }
  }

  // ---------------------------------------------------------------- the gate file

  /** A gate as it is written. */
  ghost predicate IsWritten(doc: Json, g: Gate) {
    && doc.Obj? && "name" in doc.fields && doc.fields["name"] == g.name && Truthy(g.name)
    && "paths" in doc.fields && doc.fields["paths"] == Arr(g.paths) && g.paths != []
    && "min_tag" in doc.fields && !doc.fields["min_tag"].Null? && Spells(StrOf(doc.fields["min_tag"]), g.minTag)
    && (if "repository" in doc.fields && Truthy(doc.fields["repository"]) then g.repository == Some(doc.fields["repository"])
        else g.repository == None)
    && (if "requires" in doc.fields && Truthy(doc.fields["requires"])
        then doc.fields["requires"].Arr? && AreWritten(doc.fields["requires"].items, g.requires_, g.paths)
        else g.requires_ == [])
  }

  ghost predicate AreWritten(items: seq<Json>, rs: seq<Require>, paths: seq<Json>) {
    |items| == |rs| && forall i :: 0 <= i < |rs| ==> OneIsWritten(items[i], rs[i], paths)
  }

  /** With its path, one of the gate's, its key and its value. */
  predicate OneIsWritten(item: Json, r: Require, paths: seq<Json>) {
    && item.Obj? && "path" in item.fields && item.fields["path"] == r.path
    && "key" in item.fields && item.fields["key"] == r.key
    && "equals" in item.fields && item.fields["equals"] == r.equals
    && exists k :: 0 <= k < |paths| && PyEq(r.path, paths[k])
  }

  lemma {:induction false} RequiresExactly(items: seq<Json>, rs: seq<Require>, paths: seq<Json>)
    ensures ParseRequires(items, paths) == Some(rs) <==> AreWritten(items, rs, paths)
    decreases |items|
  {
    if items == [] {
    } else if rs == [] {
    } else {
      RequiresExactly(items[1..], rs[1..], paths);
      FirstAndRest(rs);
      if AreWritten(items, rs, paths) {
        assert items[0].Obj? && PyIn(rs[0].path, paths);
        RestAreWritten(items, rs, paths);
      }
      if ParseRequires(items, paths) == Some(rs) {
        AfterFirst([rs[0]], rs[1..]);
        FirstIsWritten(items, rs, paths);
      }
    }
  }

  lemma RestAreWritten(items: seq<Json>, rs: seq<Require>, paths: seq<Json>)
    requires items != [] && rs != [] && AreWritten(items, rs, paths)
    ensures AreWritten(items[1..], rs[1..], paths)
  {
    assert forall i :: 0 <= i < |rs| - 1 ==> rs[1..][i] == rs[i + 1] && items[1..][i] == items[i + 1];
  }

  lemma FirstIsWritten(items: seq<Json>, rs: seq<Require>, paths: seq<Json>)
    requires items != [] && rs != [] && ParseRequires(items, paths) == Some(rs)
    requires ParseRequires(items[1..], paths) == Some(rs[1..]) ==> AreWritten(items[1..], rs[1..], paths)
    ensures AreWritten(items, rs, paths)
  {
    var (first, rest) := (ParsedFirst(items[0]), ParseRequires(items[1..], paths).value);
    assert rs == [first] + rest;
    AfterFirst([first], rest);
    forall i | 0 <= i < |rs| ensures OneIsWritten(items[i], rs[i], paths) {
      if i > 0 {
        assert OneIsWritten(items[1..][i - 1], rs[1..][i - 1], paths);
      }
    }
  }

  /** The required value in an item that has all three fields. */
  function ParsedFirst(item: Json): Require
    requires Get(item, "path").Some? && Get(item, "key").Some? && Get(item, "equals").Some?
  {
    Require(Get(item, "path").value, Get(item, "key").value, Get(item, "equals").value)
  }

  lemma WrittenExactly(doc: Json, g: Gate)
    ensures ParseGate(doc) == Some(g) <==> IsWritten(doc, g)
  {
    if Get(doc, "min_tag").Some? {
      SemverExactly(StrOf(Get(doc, "min_tag").value));
    }
    if Get(doc, "requires").Some? && Get(doc, "requires").value.Arr? {
      RequiresExactly(Get(doc, "requires").value.items, g.requires_, g.paths);
      if Get(doc, "paths").Some? && Get(doc, "paths").value.Arr? {
        var parsed := ParseRequires(Get(doc, "requires").value.items, Get(doc, "paths").value.items);
      }
    }
    assert ParseRequires([], g.paths) == Some([]);
  }

  /** The gate file lists these gates. */
  ghost predicate AreGates(tree: Tree, gates: seq<Gate>) {
    exists items :: Reads(tree, Str("platform-gitops/release-gates.yaml"), ["gates"], Arr(items)) && items != []
                    && AreAllWritten(items, gates)
  }

  ghost predicate AreAllWritten(items: seq<Json>, gates: seq<Gate>) {
    |items| == |gates| && forall i :: 0 <= i < |gates| ==> IsWritten(items[i], gates[i])
  }

  lemma {:induction false} AllWrittenExactly(items: seq<Json>, gates: seq<Gate>)
    ensures ParseGates(items) == Some(gates) <==> AreAllWritten(items, gates)
    decreases |items|
  {
    if items != [] && gates != [] {
      WrittenExactly(items[0], gates[0]);
      AllWrittenExactly(items[1..], gates[1..]);
      ParsedApart(items, gates);
      WrittenApart(items, gates);
    }
  }

  lemma ParsedApart(items: seq<Json>, gates: seq<Gate>)
    requires items != [] && gates != []
    ensures ParseGates(items) == Some(gates) <==>
      ParseGate(items[0]) == Some(gates[0]) && ParseGates(items[1..]) == Some(gates[1..])
  {
    FirstAndRest(gates);
    if ParseGates(items) == Some(gates) {
      AfterFirst([ParseGate(items[0]).value], ParseGates(items[1..]).value);
    }
  }

  lemma WrittenApart(items: seq<Json>, gates: seq<Gate>)
    requires items != [] && gates != []
    ensures AreAllWritten(items, gates) <==> IsWritten(items[0], gates[0]) && AreAllWritten(items[1..], gates[1..])
  {
    if AreAllWritten(items[1..], gates[1..]) && IsWritten(items[0], gates[0]) {
      forall i | 0 <= i < |gates| ensures IsWritten(items[i], gates[i]) {
        if i > 0 {
          assert IsWritten(items[1..][i - 1], gates[1..][i - 1]);
        }
      }
    }
  }

  lemma GatesExactly(tree: Tree)
    ensures forall gates :: Gates(tree) == Some(gates) <==> AreGates(tree, gates)
  {
    ReadsExactly(tree, Str(GATE), ["gates"]);
    forall gates ensures Gates(tree) == Some(gates) <==> AreGates(tree, gates) {
      var doc := ReadKey(tree, Str(GATE), ["gates"]);
      if doc.Some? && doc.value.Arr? {
        AllWrittenExactly(doc.value.items, gates);
        assert Reads(tree, Str(GATE), ["gates"], Arr(doc.value.items));
      }
    }
  }

  /** Nothing is found exactly when the gate file can be read and every gate fits. */
  lemma CheckExactly(tree: Tree, request: Option<Request>)
    ensures ProblemsOf(tree, request) == [] <==>
      exists gates :: AreGates(tree, gates) && forall g :: g in gates ==> GateFits(tree, g, request)
  {
    GatesExactly(tree);
    if Gates(tree).Some? {
      var gates := Gates(tree).value;
      GatesClean(tree, gates, request);
      forall g ensures GateProblems(tree, g, request) == [] <==> GateFits(tree, g, request) {
        GateExactly(tree, g, request);
      }
      assert AreGates(tree, gates);
    }
  }

  /** A version below the floor of a gate that the bump touches is refused. */
  lemma BelowTheFloorIsRefused(tree: Tree, bump: Request, gates: seq<Gate>, g: Gate, path: string, v: Version)
    requires AreGates(tree, gates) && g in gates && Str(path) in g.paths && path in bump.files
    requires Spells(bump.newTag, v) && IsBefore(v, g.minTag)
    ensures ProblemsOf(tree, Some(bump)) != []
  {
    CheckExactly(tree, Some(bump));
    GatesExactly(tree);
    BelowDoesNotFit(tree, bump, g, path, v);
    forall all | AreGates(tree, all) ensures g in all {
      assert Gates(tree) == Some(all) && Gates(tree) == Some(gates);
    }
  }

  lemma BelowDoesNotFit(tree: Tree, bump: Request, g: Gate, path: string, v: Version)
    requires Str(path) in g.paths && path in bump.files && Spells(bump.newTag, v) && IsBefore(v, g.minTag)
    ensures !GateFits(tree, g, Some(bump))
  {
    LessExactly(v, g.minTag);
    SemverExactly(bump.newTag);
    forall w | Spells(bump.newTag, w) ensures !Reaches(w, g.minTag) {
      assert Some(w) == SemverOf(bump.newTag) == Some(v);
      ReachesExactly(w, g.minTag);
    }
    assert Str(path).Str? && Str(path) in g.paths;
  }

  // ---------------------------------------------------------------- each finding

  /** The paths of the gate that are looked at: all of them, or those that the bump lists. */
  ghost predicate IsLookedAt(g: Gate, request: Option<Request>, path: Json) {
    path in g.paths && (request.Some? ==> path.Str? && path.s in request.value.files)
  }

  lemma {:induction false} TouchedExactly(paths: seq<Json>, request: Option<Request>)
    ensures forall path :: path in Touched(paths, request) <==>
              path in paths && (request.Some? ==> path.Str? && path.s in request.value.files)
  {
    if paths != [] && request.Some? {
      TouchedExactly(paths[1..], request);
    }
  }

  /** The tag that is compared; none when the repository is to be compared and cannot be read. */
  ghost predicate ComparesTag(tree: Tree, g: Gate, path: Json, tag: Json) {
    Reads(tree, path, IMAGE_TAG, tag)
    && (g.repository.Some? ==> exists repo :: Reads(tree, path, IMAGE_REPOSITORY, repo))
  }

  /** What each finding about the files says. */
  ghost predicate IsFound(tree: Tree, g: Gate, request: Option<Request>, p: Problem) {
    match p
    case TagUnreadable(path) => IsLookedAt(g, request, path) && forall tag :: !ComparesTag(tree, g, path, tag)
    case WrongRepository(path) =>
      IsLookedAt(g, request, path) && (exists tag :: ComparesTag(tree, g, path, tag)) && g.repository.Some?
      && forall repo :: Reads(tree, path, IMAGE_REPOSITORY, repo) ==> !PyEq(repo, g.repository.value)
    case TagNotSemver(path) =>
      IsLookedAt(g, request, path) && exists tag :: ComparesTag(tree, g, path, tag) && forall v :: !IsVersion(tag, v)
    case TagBelowFloor(path) =>
      request.None? && IsLookedAt(g, request, path)
      && exists tag, v :: ComparesTag(tree, g, path, tag) && IsVersion(tag, v) && IsBefore(v, g.minTag)
    case RequireUnreadable(path, key) =>
      exists r :: r in g.requires_ && r.path == path && r.key == key && IsAsked(g, request, r)
                  && forall got :: !IsRead(tree, r, got)
    case RequireFails(path, key) =>
      exists r :: r in g.requires_ && r.path == path && r.key == key && IsAsked(g, request, r)
                  && exists got :: IsRead(tree, r, got) && !PyEq(got, r.equals)
    case _ => false
  }

  ghost predicate IsVersion(tag: Json, v: Version) {
    !tag.Null? && Spells(StrOf(tag), v)
  }

  ghost predicate IsAsked(g: Gate, request: Option<Request>, r: Require) {
    exists path :: IsLookedAt(g, request, path) && PyEq(r.path, path)
  }

  predicate IsRead(tree: Tree, r: Require, got: Json) {
    r.key.Str? && Reads(tree, r.path, Split(r.key.s, '.'), got)
  }

  lemma ComparesExactly(tree: Tree, g: Gate, path: Json)
    ensures forall tag :: ReadTag(tree, g, path) == Some(tag) <==> ComparesTag(tree, g, path, tag)
  {
    ReadsExactly(tree, path, IMAGE_TAG);
    ReadsExactly(tree, path, IMAGE_REPOSITORY);
    if ReadKey(tree, path, IMAGE_REPOSITORY).Some? {
      assert Reads(tree, path, IMAGE_REPOSITORY, ReadKey(tree, path, IMAGE_REPOSITORY).value);
    }
  }

  lemma {:induction false} InAllFiles(tree: Tree, g: Gate, paths: seq<Json>, verify: bool, p: Problem)
    ensures p in AllFileProblems(tree, g, paths, verify) <==>
      exists path :: path in paths && p in FileProblems(tree, g, path, verify)
  {
    if paths != [] {
      InAllFiles(tree, g, paths[1..], verify, p);
      FirstAndRest(paths);
    }
  }

  lemma {:induction false} InAllRequires(tree: Tree, rs: seq<Require>, touched: seq<Json>, p: Problem)
    ensures p in AllRequireProblems(tree, rs, touched) <==> exists r :: r in rs && p in RequireProblems(tree, r, touched)
  {
    if rs != [] {
      InAllRequires(tree, rs[1..], touched, p);
      FirstAndRest(rs);
    }
  }

  /** What a file is reported for. */
  lemma FileFindings(tree: Tree, g: Gate, path: Json, verify: bool, p: Problem)
    ensures p in FileProblems(tree, g, path, verify) <==>
      match p
      case TagUnreadable(at) => at == path && forall tag :: !ComparesTag(tree, g, path, tag)
      case WrongRepository(at) =>
        at == path && (exists tag :: ComparesTag(tree, g, path, tag)) && g.repository.Some?
        && forall repo :: Reads(tree, path, IMAGE_REPOSITORY, repo) ==> !PyEq(repo, g.repository.value)
      case TagNotSemver(at) => at == path && exists tag :: ComparesTag(tree, g, path, tag) && forall v :: !IsVersion(tag, v)
      case TagBelowFloor(at) =>
        at == path && verify
        && exists tag, v :: ComparesTag(tree, g, path, tag) && IsVersion(tag, v) && IsBefore(v, g.minTag)
      case _ => false
  {
    ComparesExactly(tree, g, path);
    ReadsExactly(tree, path, IMAGE_REPOSITORY);
    var tag := ReadTag(tree, g, path);
    if tag.Some? {
      assert ComparesTag(tree, g, path, tag.value);
      VersionExactly(tag.value);
      if Semver(tag).Some? {
        LessExactly(Semver(tag).value, g.minTag);
      }
    }
  }

  lemma VersionExactly(tag: Json)
    ensures forall v :: Semver(Some(tag)) == Some(v) <==> IsVersion(tag, v)
  {
    SemverExactly(StrOf(tag));
  }

  lemma RequireFindings(tree: Tree, r: Require, touched: seq<Json>, p: Problem)
    ensures p in RequireProblems(tree, r, touched) <==>
      && PyIn(r.path, touched)
      && match p
         case RequireUnreadable(path, key) => path == r.path && key == r.key && forall got :: !IsRead(tree, r, got)
         case RequireFails(path, key) =>
           path == r.path && key == r.key && exists got :: IsRead(tree, r, got) && !PyEq(got, r.equals)
         case _ => false
  {
    if r.key.Str? {
      ReadsExactly(tree, r.path, Split(r.key.s, '.'));
      var got := ReadKey(tree, r.path, Split(r.key.s, '.'));
      if got.Some? {
        assert IsRead(tree, r, got.value);
      }
    }
  }

  /** Each finding about a file or a required value is reported exactly when it is so. */
  lemma FindingsExactly(tree: Tree, g: Gate, request: Option<Request>, p: Problem)
    requires p.TagUnreadable? || p.WrongRepository? || p.TagNotSemver? || p.TagBelowFloor?
             || p.RequireUnreadable? || p.RequireFails?
    ensures p in GateProblems(tree, g, request) <==> IsFound(tree, g, request, p)
  {
    if IsFound(tree, g, request, p) {
      FoundIsReported(tree, g, request, p);
    }
    var touched := Touched(g.paths, request);
    if touched != [] {
      InOneOf(RequestProblems(g, touched, request), AllFileProblems(tree, g, touched, request.None?),
              if |TagsOf(tree, g, touched)| > 1 then [TagsDiffer(g.name)] else [],
              AllRequireProblems(tree, g.requires_, touched), p);
      ReportedIsFound(tree, g, request, p);
    }
  }

  lemma ReportedIsFound(tree: Tree, g: Gate, request: Option<Request>, p: Problem)
    ensures var touched := Touched(g.paths, request);
      p in AllFileProblems(tree, g, touched, request.None?) || p in AllRequireProblems(tree, g.requires_, touched) ==>
        IsFound(tree, g, request, p)
  {
    var touched := Touched(g.paths, request);
    TouchedExactly(g.paths, request);
    InAllFiles(tree, g, touched, request.None?, p);
    InAllRequires(tree, g.requires_, touched, p);
    forall path | path in touched ensures p in FileProblems(tree, g, path, request.None?) ==> IsFound(tree, g, request, p) {
      FileFindings(tree, g, path, request.None?, p);
    }
    forall r | r in g.requires_ ensures p in RequireProblems(tree, r, touched) ==> IsFound(tree, g, request, p) {
      RequireFindings(tree, r, touched, p);
      AskedExactly(g, request, r);
    }
  }

  lemma InOneOf(a: seq<Problem>, b: seq<Problem>, c: seq<Problem>, d: seq<Problem>, p: Problem)
    ensures p in a + b + c + d <==> p in a || p in b || p in c || p in d
  {
  }

  lemma AskedExactly(g: Gate, request: Option<Request>, r: Require)
    ensures PyIn(r.path, Touched(g.paths, request)) <==> IsAsked(g, request, r)
  {
    var touched := Touched(g.paths, request);
    TouchedExactly(g.paths, request);
    if path :| IsLookedAt(g, request, path) && PyEq(r.path, path) {
      var i :| 0 <= i < |touched| && touched[i] == path;
    }
    if PyIn(r.path, touched) {
      var i :| 0 <= i < |touched| && PyEq(r.path, touched[i]);
      assert IsLookedAt(g, request, touched[i]);
    }
  }

  lemma FoundIsReported(tree: Tree, g: Gate, request: Option<Request>, p: Problem)
    requires IsFound(tree, g, request, p)
    ensures var touched := Touched(g.paths, request);
      && touched != []
      && (p in AllFileProblems(tree, g, touched, request.None?) || p in AllRequireProblems(tree, g.requires_, touched))
  {
    var touched := Touched(g.paths, request);
    TouchedExactly(g.paths, request);
    InAllFiles(tree, g, touched, request.None?, p);
    InAllRequires(tree, g.requires_, touched, p);
    if p.RequireUnreadable? || p.RequireFails? {
      var r :| r in g.requires_ && r.path == p.path && r.key == p.key && IsAsked(g, request, r)
               && (if p.RequireUnreadable? then forall got :: !IsRead(tree, r, got)
                   else exists got :: IsRead(tree, r, got) && !PyEq(got, r.equals));
      AskedExactly(g, request, r);
      RequireFindings(tree, r, touched, p);
    } else {
      assert p.path in touched;
      FileFindings(tree, g, p.path, request.None?, p);
    }
  }

  /** What is found of the bump itself, at a gate that it touches. */
  ghost predicate IsFoundOfBump(g: Gate, bump: Request, p: Problem) {
    match p
    case PartialBump(gate, missing) =>
      gate == g.name && (exists path :: path in g.paths && !Listed(path, bump.files))
      && forall path :: path in missing <==> path in g.paths && !Listed(path, bump.files)
    case NewTagUnreadable(gate) => gate == g.name && forall v :: !Spells(bump.newTag, v)
    case NewTagBelowFloor(gate) => gate == g.name && exists v :: Spells(bump.newTag, v) && IsBefore(v, g.minTag)
    case _ => false
  }

  lemma BumpFindings(g: Gate, bump: Request, p: Problem)
    requires Touched(g.paths, Some(bump)) != []
    ensures p in RequestProblems(g, Touched(g.paths, Some(bump)), Some(bump)) <==> IsFoundOfBump(g, bump, p)
  {
    var touched := Touched(g.paths, Some(bump));
    TouchedExactly(g.paths, Some(bump));
    TouchedIsAll(g.paths, bump);
    if forall i :: 0 <= i < |g.paths| ==> Listed(g.paths[i], bump.files) {
      AllListedIsAll(g.paths, bump);
      assert forall path :: path in g.paths ==> Listed(path, bump.files);
    }
    SemverExactly(bump.newTag);
    if SemverOf(bump.newTag).Some? {
      LessExactly(SemverOf(bump.newTag).value, g.minTag);
    }
    if p.PartialBump? && IsFoundOfBump(g, bump, p) {
      assert p.missing == (set path | path in g.paths) - (set path | path in touched);
    }
  }

  /** A file that is looked at carries a tag of this text. */
  ghost predicate IsCarried(tree: Tree, g: Gate, request: Option<Request>, text: string) {
    exists path, tag :: IsLookedAt(g, request, path) && ComparesTag(tree, g, path, tag) && StrOf(tag) == text
  }

  lemma CarriedExactly(tree: Tree, g: Gate, request: Option<Request>, text: string)
    ensures text in TagsOf(tree, g, Touched(g.paths, request)) <==> IsCarried(tree, g, request, text)
  {
    var touched := Touched(g.paths, request);
    TouchedExactly(g.paths, request);
    if text in TagsOf(tree, g, touched) {
      var path :| path in touched && ReadTag(tree, g, path).Some? && StrOf(ReadTag(tree, g, path).value) == text;
      ComparesExactly(tree, g, path);
      assert IsLookedAt(g, request, path) && ComparesTag(tree, g, path, ReadTag(tree, g, path).value);
    }
    if path, tag :| IsLookedAt(g, request, path) && ComparesTag(tree, g, path, tag) && StrOf(tag) == text {
      ComparesExactly(tree, g, path);
      assert path in touched && ReadTag(tree, g, path) == Some(tag);
    }
  }

  /** The tags differ exactly when two texts are carried. */
  lemma DifferenceExactly(tree: Tree, g: Gate, request: Option<Request>)
    ensures |TagsOf(tree, g, Touched(g.paths, request))| > 1 <==>
      exists s, t :: IsCarried(tree, g, request, s) && IsCarried(tree, g, request, t) && s != t
  {
    OneTagExactly(TagsOf(tree, g, Touched(g.paths, request)));
    forall text ensures text in TagsOf(tree, g, Touched(g.paths, request)) <==> IsCarried(tree, g, request, text) {
      CarriedExactly(tree, g, request, text);
    }
  }
}

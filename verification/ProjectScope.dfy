/**
 The two-directional check of scripts/validate-argocd-project-scope.py: every Application
 stays inside its AppProject, and every entry of an AppProject is used.
 */
module ProjectScope {
  import opened Wrappers
  import opened Text
  import opened GlobRegex
  import opened Seqs

  // ---------------------------------------------------------------- matching

  function StripLeft(s: string): string {
    if s != "" && IsSpace(s[0]) then StripLeft(s[1..]) else s
  }

  function StripRight(s: string): string {
    if s != "" && IsSpace(s[|s| - 1]) then StripRight(s[..|s| - 1]) else s
  }

  function Strip(s: string): string {
    StripRight(StripLeft(s))
  }

  function LowerChar(c: char): char {
    if 'A' <= c <= 'Z' then (c as int + 32) as char else c
  }

  function Lower(s: string): string {
    seq(|s|, i requires 0 <= i < |s| => LowerChar(s[i]))
  }

  predicate EndsWith(s: string, suffix: string) {
    |suffix| <= |s| && s[|s| - |suffix|..] == suffix
  }

  function NormalizeRepo(url: string): string {
    var u := Lower(Strip(url));
    if EndsWith(u, ".git") then u[..|u| - 4] else u
  }

  function GlobText(pattern: string, separator: Option<char>): string {
    "^" + Body(pattern, separator) + "$"
  }

  predicate RepoMatches(pattern: string, url: string) {
    Strip(pattern) == "*" || Strip(pattern) == "**"
    || RegexMatches(GlobText(NormalizeRepo(pattern), Some('/')), NormalizeRepo(url))
  }

  predicate PlainMatches(pattern: string, value: string) {
    RegexMatches(GlobText(pattern, None), value)
  }

  /** Somewhere "{{" and later, on the same line, "}}". */
  predicate Templated(s: string) {
    exists i, j :: 0 <= i && i + 2 <= j && j + 2 <= |s| && OpensAt(s, i) && ClosesAt(s, j) && '\n' !in s[i..j]
  }

  predicate OpensAt(s: string, i: int)
    requires 0 <= i && i + 2 <= |s|
  {
    s[i] == '{' && s[i + 1] == '{'
  }

  predicate ClosesAt(s: string, j: int)
    requires 0 <= j && j + 2 <= |s|
  {
    s[j] == '}' && s[j + 1] == '}'
  }

  // ---------------------------------------------------------------- projects and Applications

  datatype Destination = Destination(server: string, namespace: string)

  datatype Project = Project(sourceRepos: seq<string>, destinations: seq<Destination>) {

    predicate Denied(url: string) {
      exists p :: p in sourceRepos && p != "" && p[0] == '!' && RepoMatches(p[1..], url)
    }

    predicate AdmitsRepo(p: string, url: string) {
      if Templated(url) then p == "*"
      else !Denied(url) && !(p != "" && p[0] == '!') && RepoMatches(p, url)
    }

    predicate AdmitsDestination(d: Destination, server: string, namespace: string) {
      && (Templated(server) ==> d.server == "*")
      && (Templated(namespace) ==> d.namespace == "*")
      && PlainMatches(d.server, server) && PlainMatches(d.namespace, namespace)
    }

    /** repo_permitted: the entries that admit the URL. */
    function RepoPermitted(url: string): (hits: seq<string>)
      ensures forall p :: p in hits <==> p in sourceRepos && AdmitsRepo(p, url)
    {
      KeepRepos(sourceRepos, url)
    }

    function KeepRepos(entries: seq<string>, url: string): (hits: seq<string>)
      ensures forall p :: p in hits <==> p in entries && AdmitsRepo(p, url)
    {
      if entries == [] then []
      else (if AdmitsRepo(entries[0], url) then [entries[0]] else []) + KeepRepos(entries[1..], url)
    }

    /** dest_permitted: the loop over the destinations. */
    method DestPermitted(server: string, namespace: string) returns (hits: seq<Destination>)
      ensures forall d :: d in hits <==> d in destinations && AdmitsDestination(d, server, namespace)
    {
      hits := [];
      for i := 0 to |destinations|
        invariant forall d :: d in hits <==> d in destinations[..i] && AdmitsDestination(d, server, namespace)
      {
        assert destinations[..i + 1] == destinations[..i] + [destinations[i]];
        var d := destinations[i];
        if Templated(server) && d.server != "*" {
          continue;
        }
        if Templated(namespace) && d.namespace != "*" {
          continue;
        }
        if PlainMatches(d.server, server) && PlainMatches(d.namespace, namespace) {
          hits := hits + [d];
        }
      }
      assert destinations[..|destinations|] == destinations;
    }

    predicate PermitsRepo(url: string) {
      exists p :: p in sourceRepos && AdmitsRepo(p, url)
    }

    predicate PermitsDestination(server: string, namespace: string) {
      exists d :: d in destinations && AdmitsDestination(d, server, namespace)
    }
  }

  datatype App = App(
    name: string, kind: string, project: string,
    sources: seq<string>, server: string, namespace: string, resourceNamespaces: set<string>) {

    function Namespaces(): set<string> {
      {namespace} + resourceNamespaces
    }
  }

  // ---------------------------------------------------------------- violations

  datatype Violation =
    | StrictUndefined(project: string)
    | StrictRepoWildcard(project: string)
    | StrictDestinationWildcard(project: string)
    | ProjectUndefined(app: App)
    | SourceDenied(app: App, url: string)
    | DestinationDenied(app: App, namespace: string)
    | RepoUnused(project: string, entry: string)
    | DestinationUnused(project: string, destination: Destination)

  type Projects = map<string, Project>

  predicate HasStar(s: string) {
    '*' in s
  }

  predicate UsesRepo(p: Project, app: App, entry: string) {
    exists u :: u in app.sources && p.AdmitsRepo(entry, u)
  }

  predicate UsesDestination(p: Project, app: App, d: Destination) {
    exists n :: n in app.Namespaces() && p.AdmitsDestination(d, app.server, n)
  }

  predicate RepoUsed(projects: Projects, apps: seq<App>, name: string, entry: string)
    requires name in projects
  {
    exists a :: a in apps && a.project == name && UsesRepo(projects[name], a, entry)
  }

  predicate DestinationUsed(projects: Projects, apps: seq<App>, name: string, d: Destination)
    requires name in projects
  {
    exists a :: a in apps && a.project == name && UsesDestination(projects[name], a, d)
  }

  /** What the check reports, one clause for each kind of finding. */
  predicate IsViolation(projects: Projects, apps: seq<App>, strict: seq<string>, v: Violation) {
    match v
    case StrictUndefined(p) => p in strict && p !in projects
    case StrictRepoWildcard(p) => p in strict && p in projects && exists e :: e in projects[p].sourceRepos && HasStar(e)
    case StrictDestinationWildcard(p) =>
      p in strict && p in projects
      && exists d :: d in projects[p].destinations && (HasStar(d.server) || HasStar(d.namespace))
    case ProjectUndefined(a) => a in apps && a.project !in projects
    case SourceDenied(a, u) =>
      a in apps && a.project in projects && u in a.sources && !projects[a.project].PermitsRepo(u)
    case DestinationDenied(a, n) =>
      a in apps && a.project in projects && n in a.Namespaces()
      && !projects[a.project].PermitsDestination(a.server, n)
    case RepoUnused(p, e) =>
      p in projects && e in projects[p].sourceRepos && !(e != "" && e[0] == '!') && !HasStar(e)
      && !RepoUsed(projects, apps, p, e)
    case DestinationUnused(p, d) =>
      p in projects && d in projects[p].destinations && !HasStar(d.server) && !HasStar(d.namespace)
      && !DestinationUsed(projects, apps, p, d)
  }

  ghost predicate Clean(projects: Projects, apps: seq<App>, strict: seq<string>) {
    forall v :: !IsViolation(projects, apps, strict, v)
  }

  // ---------------------------------------------------------------- the boundary is exact

  lemma StripKeepsLetters(s: string)
    ensures forall c :: c in Strip(s) ==> c in s
  {
    LeftKeeps(s);
    RightKeeps(StripLeft(s));
  }

  lemma {:induction false} LeftKeeps(s: string)
    ensures forall c :: c in StripLeft(s) ==> c in s
  {
    if s != "" && IsSpace(s[0]) { LeftKeeps(s[1..]); }
  }

  lemma {:induction false} RightKeeps(s: string)
    ensures forall c :: c in StripRight(s) ==> c in s
  {
    if s != "" && IsSpace(s[|s| - 1]) { RightKeeps(s[..|s| - 1]); }
  }

  /** Normalizing adds no character that lower-casing cannot produce. */
  lemma NormalizeAddsNothing(url: string, c: char)
    requires c !in url && !('a' <= c <= 'z')
    ensures c !in NormalizeRepo(url) && c !in Strip(url)
  {
    StripKeepsLetters(url);
    var u := Lower(Strip(url));
    forall i | 0 <= i < |u| ensures u[i] != c {
      assert Strip(url)[i] in Strip(url);
    }
  }

  /** An entry without wildcards admits exactly the URLs with its normal form. */
  lemma LiteralRepoMatchesExactly(entry: string, url: string)
    requires '*' !in entry && '?' !in entry && '\n' !in url
    ensures RepoMatches(entry, url) <==> NormalizeRepo(entry) == NormalizeRepo(url)
  {
    NormalizeAddsNothing(entry, '*');
    NormalizeAddsNothing(entry, '?');
    NormalizeAddsNothing(url, '\n');
    assert Strip(entry) != "*" && Strip(entry) != "**" by {
      assert "*"[0] == '*' && "**"[0] == '*';
    }
    CompiledGlobMatchesExactly(NormalizeRepo(entry), Some('/'), NormalizeRepo(url));
    LiteralAcceptsItself(NormalizeRepo(entry), Some('/'), NormalizeRepo(url));
  }

  lemma LiteralPlainMatchesExactly(entry: string, value: string)
    requires '*' !in entry && '?' !in entry && '\n' !in value
    ensures PlainMatches(entry, value) <==> entry == value
  {
    CompiledGlobMatchesExactly(entry, None, value);
    LiteralAcceptsItself(entry, None, value);
  }

  /** An entry that permits, deny entries aside, with a '?' in it. */
  predicate IsOpenRepo(e: string) {
    '?' in e && e[0] != '!'
  }

  predicate IsOpenDestination(d: Destination) {
    '?' in d.server || '?' in d.namespace
  }

  /** A '?' entry of the project admits the URL. */
  predicate AdmittedOpenly(p: Project, url: string) {
    exists e :: e in p.sourceRepos && IsOpenRepo(e) && p.AdmitsRepo(e, url)
  }

  predicate ReachedOpenly(p: Project, server: string, namespace: string) {
    exists d :: d in p.destinations && IsOpenDestination(d) && p.AdmitsDestination(d, server, namespace)
  }

  /** The scripts read YAML scalars and URLs that hold no line break. */
  predicate OneLine(apps: seq<App>, name: string) {
    forall a :: a in apps && a.project == name ==>
      && (forall u :: u in a.sources ==> '\n' !in u)
      && '\n' !in a.server && (forall n :: n in a.Namespaces() ==> '\n' !in n)
  }

  /** The URL is one that an Application of the project uses, up to spelling. */
  predicate IsSource(apps: seq<App>, name: string, url: string) {
    exists a :: a in apps && a.project == name && exists u :: u in a.sources && NormalizeRepo(u) == NormalizeRepo(url)
  }

  predicate IsTarget(apps: seq<App>, name: string, server: string, namespace: string) {
    exists a :: a in apps && a.project == name && a.server == server && namespace in a.Namespaces()
  }

  lemma StrictHasNoStars(projects: Projects, apps: seq<App>, strict: seq<string>, name: string)
    requires Clean(projects, apps, strict) && name in strict
    ensures name in projects
    ensures forall e :: e in projects[name].sourceRepos ==> '*' !in e
    ensures forall d :: d in projects[name].destinations ==> '*' !in d.server && '*' !in d.namespace
  {
    assert !IsViolation(projects, apps, strict, StrictUndefined(name));
    assert !IsViolation(projects, apps, strict, StrictRepoWildcard(name));
    assert !IsViolation(projects, apps, strict, StrictDestinationWildcard(name));
    assert forall e :: e in projects[name].sourceRepos ==> !HasStar(e);
  }

  /** An entry admits or denies a repository in every spelling. */
  lemma SpellingDoesNotMatter(p: Project, entry: string, url: string, same: string)
    requires NormalizeRepo(url) == NormalizeRepo(same) && !Templated(url) && !Templated(same)
    ensures p.AdmitsRepo(entry, url) <==> p.AdmitsRepo(entry, same)
  {
    assert forall e :: RepoMatches(e, url) == RepoMatches(e, same);
  }

  lemma LiteralRepoAdmitsExactly(p: Project, entry: string, url: string)
    requires entry in p.sourceRepos && '*' !in entry && '?' !in entry && '\n' !in url
    ensures p.AdmitsRepo(entry, url)
       <==> !Templated(url) && !p.Denied(url) && !(entry != "" && entry[0] == '!')
            && NormalizeRepo(entry) == NormalizeRepo(url)
  {
    LiteralRepoMatchesExactly(entry, url);
    assert entry != "*" by { assert "*"[0] == '*'; }
  }

  lemma LiteralDestinationAdmitsExactly(p: Project, d: Destination, server: string, namespace: string)
    requires '*' !in d.server && '*' !in d.namespace && '?' !in d.server && '?' !in d.namespace
    requires '\n' !in server && '\n' !in namespace
    ensures p.AdmitsDestination(d, server, namespace)
       <==> !Templated(server) && !Templated(namespace) && d == Destination(server, namespace)
  {
    LiteralPlainMatchesExactly(d.server, server);
    LiteralPlainMatchesExactly(d.namespace, namespace);
    assert d.server != "*" && d.namespace != "*" by { assert "*"[0] == '*'; }
  }

  /** Nothing more is admitted by an entry without '?' than what is used. */
  lemma AdmittedRepoIsSource(projects: Projects, apps: seq<App>, strict: seq<string>, name: string, url: string, e: string)
    requires Clean(projects, apps, strict) && name in strict && name in projects
    requires OneLine(apps, name) && '\n' !in url
    requires e in projects[name].sourceRepos && !IsOpenRepo(e) && projects[name].AdmitsRepo(e, url)
    ensures IsSource(apps, name, url)
  {
    StrictHasNoStars(projects, apps, strict, name);
    var p := projects[name];
    assert '?' !in e;
    LiteralRepoAdmitsExactly(p, e, url);
    assert !IsViolation(projects, apps, strict, RepoUnused(name, e));
    assert !HasStar(e);
    var a :| a in apps && a.project == name && UsesRepo(p, a, e);
    var u :| u in a.sources && p.AdmitsRepo(e, u);
    LiteralRepoAdmitsExactly(p, e, u);
  }

  /** What is used is admitted, in every spelling, '?' or not. */
  lemma SourceIsAdmitted(projects: Projects, apps: seq<App>, strict: seq<string>, name: string, url: string, a: App, u: string)
    requires Clean(projects, apps, strict) && name in strict && name in projects && !Templated(url)
    requires a in apps && a.project == name && u in a.sources && NormalizeRepo(u) == NormalizeRepo(url)
    ensures projects[name].PermitsRepo(url)
  {
    StrictHasNoStars(projects, apps, strict, name);
    var p := projects[name];
    assert !IsViolation(projects, apps, strict, SourceDenied(a, u));
    var e :| e in p.sourceRepos && p.AdmitsRepo(e, u);
    assert e != "*" by { assert "*"[0] == '*'; }
    SpellingDoesNotMatter(p, e, url, u);
  }

  /**
   The boundary of a clean strict project, whatever its entries: it admits exactly the
   repositories its Applications use, and those that one of its '?' entries admits.
   */
  lemma RepoBoundaryExactly(projects: Projects, apps: seq<App>, strict: seq<string>, name: string, url: string)
    requires Clean(projects, apps, strict) && name in strict && name in projects && OneLine(apps, name)
    requires '\n' !in url && !Templated(url)
    ensures projects[name].PermitsRepo(url) <==> IsSource(apps, name, url) || AdmittedOpenly(projects[name], url)
  {
    if projects[name].PermitsRepo(url) && !AdmittedOpenly(projects[name], url) {
      var e :| e in projects[name].sourceRepos && projects[name].AdmitsRepo(e, url);
      AdmittedRepoIsSource(projects, apps, strict, name, url, e);
    }
    if IsSource(apps, name, url) {
      var a :| a in apps && a.project == name && exists u :: u in a.sources && NormalizeRepo(u) == NormalizeRepo(url);
      var u :| u in a.sources && NormalizeRepo(u) == NormalizeRepo(url);
      SourceIsAdmitted(projects, apps, strict, name, url, a, u);
    }
  }

  /** So it admits exactly the repositories its Applications use when no permitting entry has a '?'. */
  lemma RepoBoundaryIsExact(projects: Projects, apps: seq<App>, strict: seq<string>, name: string, url: string)
    requires Clean(projects, apps, strict) && name in strict && name in projects && OneLine(apps, name)
    requires forall e :: e in projects[name].sourceRepos ==> !IsOpenRepo(e)
    requires '\n' !in url && !Templated(url)
    ensures projects[name].PermitsRepo(url) <==> IsSource(apps, name, url)
  {
    RepoBoundaryExactly(projects, apps, strict, name, url);
  }

  lemma AdmittedDestinationIsTarget(
    projects: Projects, apps: seq<App>, strict: seq<string>, name: string, server: string, namespace: string, d: Destination)
    requires Clean(projects, apps, strict) && name in strict && name in projects
    requires OneLine(apps, name) && '\n' !in server && '\n' !in namespace
    requires d in projects[name].destinations && !IsOpenDestination(d)
    requires projects[name].AdmitsDestination(d, server, namespace)
    ensures IsTarget(apps, name, server, namespace)
  {
    StrictHasNoStars(projects, apps, strict, name);
    var p := projects[name];
    LiteralDestinationAdmitsExactly(p, d, server, namespace);
    assert !IsViolation(projects, apps, strict, DestinationUnused(name, d));
    assert !HasStar(d.server) && !HasStar(d.namespace);
    var a :| a in apps && a.project == name && UsesDestination(p, a, d);
    var n :| n in a.Namespaces() && p.AdmitsDestination(d, a.server, n);
    LiteralDestinationAdmitsExactly(p, d, a.server, n);
  }

  lemma TargetIsAdmitted(
    projects: Projects, apps: seq<App>, strict: seq<string>, name: string, server: string, namespace: string)
    requires Clean(projects, apps, strict) && name in projects && IsTarget(apps, name, server, namespace)
    ensures projects[name].PermitsDestination(server, namespace)
  {
    var a :| a in apps && a.project == name && a.server == server && namespace in a.Namespaces();
    assert !IsViolation(projects, apps, strict, DestinationDenied(a, namespace));
  }

  /** The same of destinations: those its Applications reach, and those that a '?' entry admits. */
  lemma DestinationBoundaryExactly(
    projects: Projects, apps: seq<App>, strict: seq<string>, name: string, server: string, namespace: string)
    requires Clean(projects, apps, strict) && name in strict && name in projects && OneLine(apps, name)
    requires '\n' !in server && '\n' !in namespace
    ensures projects[name].PermitsDestination(server, namespace)
       <==> IsTarget(apps, name, server, namespace) || ReachedOpenly(projects[name], server, namespace)
  {
    if projects[name].PermitsDestination(server, namespace) && !ReachedOpenly(projects[name], server, namespace) {
      var d :| d in projects[name].destinations && projects[name].AdmitsDestination(d, server, namespace);
      AdmittedDestinationIsTarget(projects, apps, strict, name, server, namespace, d);
    }
    if IsTarget(apps, name, server, namespace) {
      TargetIsAdmitted(projects, apps, strict, name, server, namespace);
    }
  }

  /** So it admits exactly the destinations its Applications reach when none of its destinations has a '?'. */
  lemma DestinationBoundaryIsExact(
    projects: Projects, apps: seq<App>, strict: seq<string>, name: string, server: string, namespace: string)
    requires Clean(projects, apps, strict) && name in strict && name in projects && OneLine(apps, name)
    requires forall d :: d in projects[name].destinations ==> !IsOpenDestination(d)
    requires '\n' !in server && '\n' !in namespace
    ensures projects[name].PermitsDestination(server, namespace) <==> IsTarget(apps, name, server, namespace)
  {
    DestinationBoundaryExactly(projects, apps, strict, name, server, namespace);
  }

  // ---------------------------------------------------------------- '?' is a gap in --strict

  predicate IsLower(c: char) {
    'a' <= c <= 'z'
  }

  /** One entry, the letter x and a '?', and one destination. */
  function LeakyProject(x: char, d: Destination): Project {
    Project([[x, '?']], [d])
  }

  /** An Application whose only source is the letters x and c. */
  function LeakyApp(name: string, x: char, c: char, d: Destination): App {
    App("app", "Application", name, [[x, c]], d.server, d.namespace, {})
  }

  lemma TwoLettersAreNormal(x: char, c: char)
    requires IsLower(x) && (IsLower(c) || c == '?')
    ensures NormalizeRepo([x, c]) == [x, c] && Strip([x, c]) == [x, c]
  {
    assert StripLeft([x, c]) == [x, c] && StripRight([x, c]) == [x, c];
    assert Lower([x, c]) == [x, c];
  }

  lemma LeakyAdmits(x: char, c: char, d: Destination)
    requires IsLower(x) && IsLower(c)
    ensures LeakyProject(x, d).AdmitsRepo([x, '?'], [x, c])
  {
    var (entry, url) := ([x, '?'], [x, c]);
    TwoLettersAreNormal(x, c);
    TwoLettersAreNormal(x, '?');
    assert entry[1..] == ['?'] && ['?'][1..] == [];
    assert url[1..] == [c] && [c][1..] == [];
    assert Accepts(['?'], Some('/'), [c]);
    assert Accepts(entry, Some('/'), url);
    CompiledGlobMatchesExactly(entry, Some('/'), url);
    assert entry[0] != '!' && !Templated(url);
  }

  /** One project with one entry of each kind, both used by its one Application. */
  predicate FitsExactly(name: string, p: Project, a: App, e: string, d: Destination, u: string) {
    && p.sourceRepos == [e] && p.destinations == [d]
    && a.project == name && a.sources == [u] && a.Namespaces() == {a.namespace}
    && p.AdmitsRepo(e, u) && p.AdmitsDestination(d, a.server, a.namespace)
  }

  lemma NothingIsDenied(name: string, p: Project, a: App, e: string, d: Destination, u: string, v: Violation)
    requires FitsExactly(name, p, a, e, d, u) && (v.SourceDenied? || v.DestinationDenied? || v.ProjectUndefined?)
    ensures !IsViolation(map[name := p], [a], [name], v)
  {
    if v.SourceDenied? {
      NoSourceIsDenied(name, p, a, e, u, v);
    } else if v.DestinationDenied? {
      NoDestinationIsDenied(name, p, a, d, v);
    } else {
      assert v.app in [a] ==> v.app == a;
    }
  }

  lemma NoSourceIsDenied(name: string, p: Project, a: App, e: string, u: string, v: Violation)
    requires p.sourceRepos == [e] && a.project == name && a.sources == [u] && p.AdmitsRepo(e, u) && v.SourceDenied?
    ensures !IsViolation(map[name := p], [a], [name], v)
  {
    assert e in p.sourceRepos;
    assert p.PermitsRepo(u);
    assert v.app in [a] ==> v.app == a;
  }

  lemma NoDestinationIsDenied(name: string, p: Project, a: App, d: Destination, v: Violation)
    requires p.destinations == [d] && a.project == name && a.Namespaces() == {a.namespace}
    requires p.AdmitsDestination(d, a.server, a.namespace) && v.DestinationDenied?
    ensures !IsViolation(map[name := p], [a], [name], v)
  {
    assert d in p.destinations;
    assert p.PermitsDestination(a.server, a.namespace);
    assert v.app in [a] ==> v.app == a;
  }

  lemma NothingIsUnused(name: string, p: Project, a: App, e: string, d: Destination, u: string, v: Violation)
    requires FitsExactly(name, p, a, e, d, u) && (v.RepoUnused? || v.DestinationUnused?)
    ensures !IsViolation(map[name := p], [a], [name], v)
  {
    var projects := map[name := p];
    assert u in a.sources && a in [a] && a.namespace in a.Namespaces();
    assert UsesRepo(p, a, e) && UsesDestination(p, a, d);
    assert RepoUsed(projects, [a], name, e) && DestinationUsed(projects, [a], name, d);
  }

  lemma NothingIsWild(name: string, p: Project, a: App, e: string, d: Destination, v: Violation)
    requires p.sourceRepos == [e] && p.destinations == [d]
    requires !HasStar(e) && !HasStar(d.server) && !HasStar(d.namespace)
    requires v.StrictUndefined? || v.StrictRepoWildcard? || v.StrictDestinationWildcard?
    ensures !IsViolation(map[name := p], [a], [name], v)
  {
  }

  lemma OneAppIsAllClean(name: string, p: Project, a: App, e: string, d: Destination, u: string)
    requires p.sourceRepos == [e] && p.destinations == [d]
    requires a.project == name && a.sources == [u] && a.Namespaces() == {a.namespace}
    requires !HasStar(e) && !HasStar(d.server) && !HasStar(d.namespace)
    requires p.AdmitsRepo(e, u) && p.AdmitsDestination(d, a.server, a.namespace)
    ensures Clean(map[name := p], [a], [name])
  {
    forall v ensures !IsViolation(map[name := p], [a], [name], v) {
      if v.SourceDenied? || v.DestinationDenied? || v.ProjectUndefined? {
        NothingIsDenied(name, p, a, e, d, u, v);
      } else if v.RepoUnused? || v.DestinationUnused? {
        NothingIsUnused(name, p, a, e, d, u, v);
      } else {
        NothingIsWild(name, p, a, e, d, v);
      }
    }
  }

  predicate PlainText(s: string) {
    '*' !in s && '?' !in s && '\n' !in s && !Templated(s)
  }

  /** Only '*' is refused in a strict project: a '?' entry admits repositories that nothing uses. */
  lemma QuestionMarkLeaks(name: string, x: char, c: char, other: char, d: Destination)
    requires IsLower(x) && IsLower(c) && IsLower(other) && c != other
    requires PlainText(d.server) && PlainText(d.namespace)
    ensures var (p, app) := (LeakyProject(x, d), LeakyApp(name, x, c, d));
      && Clean(map[name := p], [app], [name])
      && p.PermitsRepo([x, other]) && !IsSource([app], name, [x, other])
  {
    var (p, app) := (LeakyProject(x, d), LeakyApp(name, x, c, d));
    LeakyAdmits(x, c, d);
    LeakyAdmits(x, other, d);
    assert [x, '?'] in p.sourceRepos;
    LiteralDestinationAdmitsExactly(p, d, d.server, d.namespace);
    assert app.Namespaces() == {d.namespace};
    OneAppIsAllClean(name, p, app, [x, '?'], d, [x, c]);
    TwoLettersAreNormal(x, c);
    TwoLettersAreNormal(x, other);
  }

  /** A destination whose namespace is the letter x and a '?', and an Application in the namespace xc. */
  function WideProject(url: string, server: string, x: char): Project {
    Project([url], [Destination(server, [x, '?'])])
  }

  lemma WideAdmits(p: Project, server: string, x: char, c: char)
    requires PlainText(server) && IsLower(x) && IsLower(c)
    ensures p.AdmitsDestination(Destination(server, [x, '?']), server, [x, c])
  {
    var (entry, namespace) := ([x, '?'], [x, c]);
    LiteralPlainMatchesExactly(server, server);
    assert entry[1..] == ['?'] && ['?'][1..] == [];
    assert namespace[1..] == [c] && [c][1..] == [];
    assert Accepts(['?'], None, [c]);
    assert Accepts(entry, None, namespace);
    CompiledGlobMatchesExactly(entry, None, namespace);
  }

  /** And a '?' in a destination admits namespaces that nothing reaches. */
  lemma QuestionMarkLeaksNamespaces(name: string, url: string, server: string, x: char, c: char, other: char)
    requires IsLower(x) && IsLower(c) && IsLower(other) && c != other
    requires PlainText(url) && (url != "" ==> url[0] != '!') && PlainText(server)
    ensures var (p, app) := (WideProject(url, server, x), App("app", "Application", name, [url], server, [x, c], {}));
      && Clean(map[name := p], [app], [name])
      && p.PermitsDestination(server, [x, other]) && !IsTarget([app], name, server, [x, other])
  {
    var (p, app) := (WideProject(url, server, x), App("app", "Application", name, [url], server, [x, c], {}));
    var d := Destination(server, [x, '?']);
    WideAdmits(p, server, x, c);
    WideAdmits(p, server, x, other);
    assert d in p.destinations && app.Namespaces() == {[x, c]};
    NoneIsDenied(p, url);
    LiteralRepoAdmitsExactly(p, url, url);
    OneAppIsAllClean(name, p, app, url, d, url);
    assert [x, c][1] != [x, other][1];
  }

  lemma NoneIsDenied(p: Project, url: string)
    requires p.sourceRepos == [url] && (url != "" ==> url[0] != '!')
    ensures url in p.sourceRepos && !p.Denied(url)
  {
  }

  // ---------------------------------------------------------------- the check itself

  method CheckStrict(projects: Projects, strict: seq<string>) returns (found: seq<Violation>)
    ensures forall v :: v in found <==>
              (v.StrictUndefined? || v.StrictRepoWildcard? || v.StrictDestinationWildcard?)
              && IsViolation(projects, [], strict, v)
  {
    found := [];
    for i := 0 to |strict|
      invariant forall v :: v in found <==>
                  (v.StrictUndefined? || v.StrictRepoWildcard? || v.StrictDestinationWildcard?)
                  && v.project in strict[..i] && IsViolation(projects, [], strict, v)
    {
      assert strict[..i + 1] == strict[..i] + [strict[i]];
      var name := strict[i];
      if name !in projects {
        found := found + [StrictUndefined(name)];
        continue;
      }
      var p := projects[name];
      if exists e :: e in p.sourceRepos && HasStar(e) {
        found := found + [StrictRepoWildcard(name)];
      }
      if exists d :: d in p.destinations && (HasStar(d.server) || HasStar(d.namespace)) {
        found := found + [StrictDestinationWildcard(name)];
      }
    }
    assert strict[..|strict|] == strict;
  }

  method CheckSources(p: Project, app: App) returns (found: seq<Violation>, repos: set<string>)
    ensures forall v :: v in found <==> v.SourceDenied? && v.app == app && v.url in app.sources && !p.PermitsRepo(v.url)
    ensures forall e :: e in repos <==> e in p.sourceRepos && UsesRepo(p, app, e)
  {
    found, repos := [], {};
    for i := 0 to |app.sources|
      invariant forall v :: v in found <==>
                  v.SourceDenied? && v.app == app && v.url in app.sources[..i] && !p.PermitsRepo(v.url)
      invariant forall e :: e in repos <==>
                  e in p.sourceRepos && exists u :: u in app.sources[..i] && p.AdmitsRepo(e, u)
    {
      assert app.sources[..i + 1] == app.sources[..i] + [app.sources[i]];
      var url := app.sources[i];
      var hits := p.RepoPermitted(url);
      if hits == [] {
        assert !p.PermitsRepo(url);
        found := found + [SourceDenied(app, url)];
      } else {
        assert hits[0] in hits;
      }
      repos := repos + (set h | h in hits);
    }
    assert app.sources[..|app.sources|] == app.sources;
  }

  method CheckDestinations(p: Project, app: App) returns (found: seq<Violation>, dests: set<Destination>)
    ensures forall v :: v in found <==>
              v.DestinationDenied? && v.app == app && v.namespace in app.Namespaces()
              && !p.PermitsDestination(app.server, v.namespace)
    ensures forall d :: d in dests <==> d in p.destinations && UsesDestination(p, app, d)
  {
    found, dests := [], {};
    var todo, seen: set<string> := app.Namespaces(), {};
    while todo != {}
      invariant todo + seen == app.Namespaces()
      invariant forall v :: v in found <==>
                  v.DestinationDenied? && v.app == app && v.namespace in seen
                  && !p.PermitsDestination(app.server, v.namespace)
      invariant forall d :: d in dests <==>
                  d in p.destinations && exists n :: n in seen && p.AdmitsDestination(d, app.server, n)
      decreases todo
    {
      var ns :| ns in todo;
      todo, seen := todo - {ns}, seen + {ns};
      var hits := p.DestPermitted(app.server, ns);
      if hits == [] {
        assert !p.PermitsDestination(app.server, ns);
        found := found + [DestinationDenied(app, ns)];
      } else {
        assert hits[0] in hits;
      }
      dests := dests + (set h | h in hits);
    }
    assert seen == app.Namespaces();
  }

  /** What the check reports about one Application. */
  predicate IsAppViolation(projects: Projects, app: App, v: Violation) {
    match v
    case ProjectUndefined(a) => a == app && app.project !in projects
    case SourceDenied(a, u) =>
      a == app && app.project in projects && u in app.sources && !projects[app.project].PermitsRepo(u)
    case DestinationDenied(a, n) =>
      a == app && app.project in projects && n in app.Namespaces()
      && !projects[app.project].PermitsDestination(app.server, n)
    case _ => false
  }

  lemma OneMoreApp(projects: Projects, apps: seq<App>, app: App)
    ensures forall v :: IsAnyAppViolation(projects, apps + [app], v)
                   <==> IsAnyAppViolation(projects, apps, v) || IsAppViolation(projects, app, v)
    ensures forall name, e :: name in projects ==>
              (RepoUsed(projects, apps + [app], name, e)
               <==> RepoUsed(projects, apps, name, e) || (app.project == name && UsesRepo(projects[name], app, e)))
    ensures forall name, d :: name in projects ==>
              (DestinationUsed(projects, apps + [app], name, d)
               <==> DestinationUsed(projects, apps, name, d) || (app.project == name && UsesDestination(projects[name], app, d)))
  {
    assert forall a :: a in apps + [app] <==> a in apps || a == app;
  }

  predicate IsAnyAppViolation(projects: Projects, apps: seq<App>, v: Violation) {
    exists a :: a in apps && IsAppViolation(projects, a, v)
  }

  lemma AppViolations(projects: Projects, apps: seq<App>, v: Violation)
    ensures IsAnyAppViolation(projects, apps, v)
       <==> (v.ProjectUndefined? || v.SourceDenied? || v.DestinationDenied?) && IsViolation(projects, apps, [], v)
  {
    if (v.ProjectUndefined? || v.SourceDenied? || v.DestinationDenied?) && IsViolation(projects, apps, [], v) {
      assert IsAppViolation(projects, v.app, v);
    }
  }

  method CheckApp(projects: Projects, app: App)
    returns (found: seq<Violation>, repos: set<string>, dests: set<Destination>)
    ensures forall v :: v in found <==> IsAppViolation(projects, app, v)
    ensures app.project in projects ==>
              && (forall e :: e in repos <==> e in projects[app.project].sourceRepos && UsesRepo(projects[app.project], app, e))
              && (forall d :: d in dests <==>
                    d in projects[app.project].destinations && UsesDestination(projects[app.project], app, d))
  {
    if app.project !in projects {
      return [ProjectUndefined(app)], {}, {};
    }
    var denied, unreached;
    denied, repos := CheckSources(projects[app.project], app);
    unreached, dests := CheckDestinations(projects[app.project], app);
    found := denied + unreached;
  }

  method CheckApps(projects: Projects, apps: seq<App>)
    returns (found: seq<Violation>, usedRepo: map<string, set<string>>, usedNs: map<string, set<Destination>>)
    ensures forall v :: v in found <==>
              (v.ProjectUndefined? || v.SourceDenied? || v.DestinationDenied?) && IsViolation(projects, apps, [], v)
    ensures usedRepo.Keys == projects.Keys && usedNs.Keys == projects.Keys
    ensures forall name, e :: name in projects ==>
              (e in usedRepo[name] <==> e in projects[name].sourceRepos && RepoUsed(projects, apps, name, e))
    ensures forall name, d :: name in projects ==>
              (d in usedNs[name] <==> d in projects[name].destinations && DestinationUsed(projects, apps, name, d))
  {
    found := [];
    usedRepo := map name | name in projects :: {};
    usedNs := map name | name in projects :: {};
    for i := 0 to |apps|
      invariant forall v :: v in found <==> IsAnyAppViolation(projects, apps[..i], v)
      invariant usedRepo.Keys == projects.Keys && usedNs.Keys == projects.Keys
      invariant forall name, e :: name in projects ==>
                  (e in usedRepo[name] <==> e in projects[name].sourceRepos && RepoUsed(projects, apps[..i], name, e))
      invariant forall name, d :: name in projects ==>
                  (d in usedNs[name] <==> d in projects[name].destinations && DestinationUsed(projects, apps[..i], name, d))
    {
      var app := apps[i];
      NextOfFirst(apps, i);
      OneMoreApp(projects, apps[..i], app);
      var mine, repos, dests := CheckApp(projects, app);
      found := found + mine;
      if app.project in projects {
        usedRepo := usedRepo[app.project := usedRepo[app.project] + repos];
        usedNs := usedNs[app.project := usedNs[app.project] + dests];
      }
    }
    CutAt(apps, |apps|);
    assert apps[..|apps|] == apps;
    forall v ensures v in found <==>
              (v.ProjectUndefined? || v.SourceDenied? || v.DestinationDenied?) && IsViolation(projects, apps, [], v) {
      AppViolations(projects, apps, v);
    }
  }

  /** The entries of one project that nothing used. */
  method CheckEntries(name: string, p: Project, repos: set<string>, dests: set<Destination>)
    returns (found: seq<Violation>)
    ensures forall v :: v in found <==>
              || (v.RepoUnused? && v.project == name && v.entry in p.sourceRepos
                  && !(v.entry != "" && v.entry[0] == '!') && !HasStar(v.entry) && v.entry !in repos)
              || (v.DestinationUnused? && v.project == name && v.destination in p.destinations
                  && !HasStar(v.destination.server) && !HasStar(v.destination.namespace) && v.destination !in dests)
  {
    found := [];
    for i := 0 to |p.sourceRepos|
      invariant forall v :: v in found <==>
                  v.RepoUnused? && v.project == name && v.entry in p.sourceRepos[..i]
                  && !(v.entry != "" && v.entry[0] == '!') && !HasStar(v.entry) && v.entry !in repos
    {
      assert p.sourceRepos[..i + 1] == p.sourceRepos[..i] + [p.sourceRepos[i]];
      var entry := p.sourceRepos[i];
      if !(entry != "" && entry[0] == '!') && !HasStar(entry) && entry !in repos {
        found := found + [RepoUnused(name, entry)];
      }
    }
    assert p.sourceRepos[..|p.sourceRepos|] == p.sourceRepos;
    ghost var unusedRepos := found;
    for i := 0 to |p.destinations|
      invariant forall v :: v in found <==>
                  || v in unusedRepos
                  || (v.DestinationUnused? && v.project == name && v.destination in p.destinations[..i]
                      && !HasStar(v.destination.server) && !HasStar(v.destination.namespace) && v.destination !in dests)
    {
      assert p.destinations[..i + 1] == p.destinations[..i] + [p.destinations[i]];
      var d := p.destinations[i];
      if !HasStar(d.server) && !HasStar(d.namespace) && d !in dests {
        found := found + [DestinationUnused(name, d)];
      }
    }
    assert p.destinations[..|p.destinations|] == p.destinations;
  }

  predicate Unused(
    projects: Projects, usedRepo: map<string, set<string>>, usedNs: map<string, set<Destination>>, v: Violation)
    requires usedRepo.Keys == projects.Keys && usedNs.Keys == projects.Keys
  {
    || (v.RepoUnused? && v.project in projects && v.entry in projects[v.project].sourceRepos
        && !(v.entry != "" && v.entry[0] == '!') && !HasStar(v.entry) && v.entry !in usedRepo[v.project])
    || (v.DestinationUnused? && v.project in projects && v.destination in projects[v.project].destinations
        && !HasStar(v.destination.server) && !HasStar(v.destination.namespace)
        && v.destination !in usedNs[v.project])
  }

  method CheckUnused(projects: Projects, usedRepo: map<string, set<string>>, usedNs: map<string, set<Destination>>)
    returns (found: seq<Violation>)
    requires usedRepo.Keys == projects.Keys && usedNs.Keys == projects.Keys
    ensures forall v :: v in found <==> Unused(projects, usedRepo, usedNs, v)
  {
    found := [];
    var todo, seen: set<string> := projects.Keys, {};
    while todo != {}
      invariant todo + seen == projects.Keys
      invariant forall v :: v in found <==>
                  (v.RepoUnused? || v.DestinationUnused?) && v.project in seen && Unused(projects, usedRepo, usedNs, v)
      decreases todo
    {
      var name :| name in todo;
      todo, seen := todo - {name}, seen + {name};
      var unused := CheckEntries(name, projects[name], usedRepo[name], usedNs[name]);
      found := found + unused;
    }
  }

  /** violations(): exactly the findings, whatever order they come in. */
  method Violations(projects: Projects, apps: seq<App>, strict: seq<string>) returns (found: seq<Violation>)
    ensures forall v :: v in found <==> IsViolation(projects, apps, strict, v)
    ensures found == [] <==> Clean(projects, apps, strict)
  {
    var wild := CheckStrict(projects, strict);
    var outside, usedRepo, usedNs := CheckApps(projects, apps);
    var unused := CheckUnused(projects, usedRepo, usedNs);
    found := wild + outside + unused;
    forall v ensures v in found <==> IsViolation(projects, apps, strict, v) {
      assert v in found <==> v in wild || v in outside || v in unused;
    }
    if found != [] {
      assert found[0] in found;
    }
  }
}

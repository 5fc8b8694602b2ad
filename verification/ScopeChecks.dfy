/**
 When scripts/validate-argocd-project-scope.py finds nothing: every source, destination and
 rendered namespace of every Application is permitted, every entry without a star is used,
 and a strict project is there and holds no star.
 */
module ScopeChecks {
  import opened Wrappers
  import opened ProjectScope
  import opened RepoSpelling

  /** A destination that matches both, a bare star standing in for what is templated. */
  ghost predicate Reaches(p: Project, server: string, namespace: string) {
    exists d :: d in p.destinations && PlainMatches(d.server, server) && PlainMatches(d.namespace, namespace)
                && (HoldsATemplate(server) ==> d.server == "*") && (HoldsATemplate(namespace) ==> d.namespace == "*")
  }

  lemma ReachesExactly(p: Project, server: string, namespace: string)
    ensures p.PermitsDestination(server, namespace) <==> Reaches(p, server, namespace)
  {
    TemplatedExactly(server);
    TemplatedExactly(namespace);
    if Reaches(p, server, namespace) {
      var d :| d in p.destinations && PlainMatches(d.server, server) && PlainMatches(d.namespace, namespace)
               && (HoldsATemplate(server) ==> d.server == "*") && (HoldsATemplate(namespace) ==> d.namespace == "*");
      assert p.AdmitsDestination(d, server, namespace);
    }
  }

  /** The Application stays inside its project. */
  ghost predicate StaysInside(projects: Projects, a: App) {
    && a.project in projects
    && (forall url :: url in a.sources ==> projects[a.project].PermitsRepo(url))
    && Reaches(projects[a.project], a.server, a.namespace)
    && (forall n :: n in a.resourceNamespaces ==> Reaches(projects[a.project], a.server, n))
  }

  /** An Application of the project has a source that the entry admits. */
  ghost predicate RepoIsUsed(p: Project, apps: seq<App>, name: string, entry: string) {
    exists a, url :: a in apps && a.project == name && url in a.sources && p.AdmitsRepo(entry, url)
  }

  /** An Application of the project has its destination, or renders a resource, where the entry admits it. */
  ghost predicate DestinationIsUsed(p: Project, apps: seq<App>, name: string, d: Destination) {
    exists a, n :: a in apps && a.project == name && (n == a.namespace || n in a.resourceNamespaces)
                   && p.AdmitsDestination(d, a.server, n)
  }

  /** Every entry that permits something and holds no star is used. */
  ghost predicate NothingIsSpare(apps: seq<App>, name: string, p: Project) {
    && (forall e :: e in p.sourceRepos && '*' !in e && (e != "" ==> e[0] != '!') ==> RepoIsUsed(p, apps, name, e))
    && (forall d :: d in p.destinations && '*' !in d.server && '*' !in d.namespace ==> DestinationIsUsed(p, apps, name, d))
  }

  /** No star anywhere. */
  ghost predicate HoldsNoStar(p: Project) {
    && (forall e :: e in p.sourceRepos ==> '*' !in e)
    && (forall d :: d in p.destinations ==> '*' !in d.server && '*' !in d.namespace)
  }

  /** Nothing is found exactly when all of that holds. */
  lemma CleanExactly(projects: Projects, apps: seq<App>, strict: seq<string>)
    ensures Clean(projects, apps, strict) <==>
      && (forall a :: a in apps ==> StaysInside(projects, a))
      && (forall name :: name in projects ==> NothingIsSpare(apps, name, projects[name]))
      && (forall name :: name in strict ==> name in projects && HoldsNoStar(projects[name]))
  {
    forall a | a in apps ensures StaysInside(projects, a) <==> InsideClean(projects, apps, strict, a) {
      InsideExactly(projects, apps, strict, a);
    }
    forall name | name in projects
      ensures NothingIsSpare(apps, name, projects[name]) <==> SpareClean(projects, apps, strict, name)
    {
      SpareExactly(projects, apps, strict, name);
    }
    forall name | name in strict
      ensures (name in projects && HoldsNoStar(projects[name])) <==> StrictClean(projects, apps, strict, name)
    {
      StrictExactly(projects, apps, strict, name);
    }
    CleanByKind(projects, apps, strict);
  }

  /** No finding about the Application. */
  ghost predicate InsideClean(projects: Projects, apps: seq<App>, strict: seq<string>, a: App) {
    && !IsViolation(projects, apps, strict, ProjectUndefined(a))
    && (forall url :: !IsViolation(projects, apps, strict, SourceDenied(a, url)))
    && (forall n :: !IsViolation(projects, apps, strict, DestinationDenied(a, n)))
  }

  ghost predicate SpareClean(projects: Projects, apps: seq<App>, strict: seq<string>, name: string) {
    && (forall e :: !IsViolation(projects, apps, strict, RepoUnused(name, e)))
    && (forall d :: !IsViolation(projects, apps, strict, DestinationUnused(name, d)))
  }

  ghost predicate StrictClean(projects: Projects, apps: seq<App>, strict: seq<string>, name: string) {
    && !IsViolation(projects, apps, strict, StrictUndefined(name))
    && !IsViolation(projects, apps, strict, StrictRepoWildcard(name))
    && !IsViolation(projects, apps, strict, StrictDestinationWildcard(name))
  }

  lemma CleanByKind(projects: Projects, apps: seq<App>, strict: seq<string>)
    ensures Clean(projects, apps, strict) <==>
      && (forall a :: a in apps ==> InsideClean(projects, apps, strict, a))
      && (forall name :: name in projects ==> SpareClean(projects, apps, strict, name))
      && (forall name :: name in strict ==> StrictClean(projects, apps, strict, name))
  {
    if (forall a :: a in apps ==> InsideClean(projects, apps, strict, a))
       && (forall name :: name in projects ==> SpareClean(projects, apps, strict, name))
       && (forall name :: name in strict ==> StrictClean(projects, apps, strict, name)) {
      forall v ensures !IsViolation(projects, apps, strict, v) {
        match v
        case StrictUndefined(p) => assert p in strict ==> StrictClean(projects, apps, strict, p);
        case StrictRepoWildcard(p) => assert p in strict ==> StrictClean(projects, apps, strict, p);
        case StrictDestinationWildcard(p) => assert p in strict ==> StrictClean(projects, apps, strict, p);
        case ProjectUndefined(a) => assert a in apps ==> InsideClean(projects, apps, strict, a);
        case SourceDenied(a, _) => assert a in apps ==> InsideClean(projects, apps, strict, a);
        case DestinationDenied(a, _) => assert a in apps ==> InsideClean(projects, apps, strict, a);
        case RepoUnused(p, _) => assert p in projects ==> SpareClean(projects, apps, strict, p);
        case DestinationUnused(p, _) => assert p in projects ==> SpareClean(projects, apps, strict, p);
      }
    }
  }

  lemma InsideExactly(projects: Projects, apps: seq<App>, strict: seq<string>, a: App)
    requires a in apps
    ensures StaysInside(projects, a) <==> InsideClean(projects, apps, strict, a)
  {
    if a.project in projects {
      forall n ensures IsViolation(projects, apps, strict, DestinationDenied(a, n)) <==>
          (n == a.namespace || n in a.resourceNamespaces) && !Reaches(projects[a.project], a.server, n) {
        ReachesExactly(projects[a.project], a.server, n);
      }
      forall url ensures IsViolation(projects, apps, strict, SourceDenied(a, url)) <==>
          url in a.sources && !projects[a.project].PermitsRepo(url) {
      }
    }
  }

  lemma RepoUsedExactly(projects: Projects, apps: seq<App>, name: string, e: string)
    requires name in projects
    ensures RepoUsed(projects, apps, name, e) <==> RepoIsUsed(projects[name], apps, name, e)
  {
    if RepoIsUsed(projects[name], apps, name, e) {
      var a, url :| a in apps && a.project == name && url in a.sources && projects[name].AdmitsRepo(e, url);
      assert UsesRepo(projects[name], a, e);
    }
  }

  lemma DestinationUsedExactly(projects: Projects, apps: seq<App>, name: string, d: Destination)
    requires name in projects
    ensures DestinationUsed(projects, apps, name, d) <==> DestinationIsUsed(projects[name], apps, name, d)
  {
    if DestinationIsUsed(projects[name], apps, name, d) {
      var a, n :| a in apps && a.project == name && (n == a.namespace || n in a.resourceNamespaces)
                  && projects[name].AdmitsDestination(d, a.server, n);
      assert n in a.Namespaces();
      assert UsesDestination(projects[name], a, d);
    }
  }

  lemma SpareExactly(projects: Projects, apps: seq<App>, strict: seq<string>, name: string)
    requires name in projects
    ensures NothingIsSpare(apps, name, projects[name]) <==> SpareClean(projects, apps, strict, name)
  {
    var p := projects[name];
    forall e ensures IsViolation(projects, apps, strict, RepoUnused(name, e)) <==>
        e in p.sourceRepos && '*' !in e && (e != "" ==> e[0] != '!') && !RepoIsUsed(p, apps, name, e) {
      RepoUsedExactly(projects, apps, name, e);
    }
    forall d ensures IsViolation(projects, apps, strict, DestinationUnused(name, d)) <==>
        d in p.destinations && '*' !in d.server && '*' !in d.namespace && !DestinationIsUsed(p, apps, name, d) {
      DestinationUsedExactly(projects, apps, name, d);
    }
  }

  lemma StrictExactly(projects: Projects, apps: seq<App>, strict: seq<string>, name: string)
    requires name in strict
    ensures (name in projects && HoldsNoStar(projects[name])) <==> StrictClean(projects, apps, strict, name)
  {
    if name in projects {
      assert forall e: string :: HasStar(e) <==> '*' in e;
    }
  }
}

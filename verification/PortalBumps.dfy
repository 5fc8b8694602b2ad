/**
 Runs of scripts/portal-catalogue-land.py that die while the App's bump PR for the server
 is open. They write to the branch of that PR, start from its documents and never open
 another PR; otherwise they are continued as in PortalCrashes.
 */
module PortalBumps {
  import opened Wrappers
  import opened JsonDocs
  import opened PortalDecision
  import opened PortalLander
  import opened PortalRecovery
  import opened PortalCrashes

  /** The script runs on this server and finds one bump PR, the App's, on this branch. */
  ghost predicate HasBump(repo: Repo, server: string, branch: string) {
    && IsServerId(server) && Vendored(repo.main, server) == Some(true)
    && IsOnlyBump(repo, server, branch) && branch in repo.branches && |OpenPrs(repo.prs)| < PR_LIMIT
  }

  /** The job on the branch of the bump PR. */
  function On(job: Job, branch: string): Job {
    job.(branch := branch)
  }

  /** What has to end up on the bump branch, which held these documents at first. */
  function BumpTarget(from: Docs, job: Job, branch: string, days: set<string>): Target
    requires HasEntries(from, job.server)
  {
    TargetOf(from, On(job, branch), days)
  }

  /** Such a run reads the bump branch, prepares nothing and opens nothing. */
  lemma BumpIsRead(repo: Repo, job: Job, branch: string, today: string)
    requires HasBump(repo, job.server, branch) && IsLiveList(job.live)
    requires CatalogueFile in repo.main && BaselineFile in repo.main
    ensures PlanLand(repo, job, today)
         == PlanFrom(repo.main, On(job, branch), today, branch, repo.branches[branch].docs, [], true)
  {
    var p := OnlyBumpIsRead(repo, job.server, branch);
  }

  /** One run: the missing writes, as many as it gets to make. */
  lemma BumpRun(repo: Repo, from: Docs, job: Job, branch: string, days: set<string>, today: string, budget: nat)
    returns (after: Repo)
    requires HasBump(repo, job.server, branch) && Landable(repo.main, from, job) && today in days
    requires Staged(repo, BumpTarget(from, job, branch, days))
    ensures after == RunLand(repo, job, today, budget)
    ensures after.prs == repo.prs && SameOutside(repo, after, branch) && Staged(after, BumpTarget(from, job, branch, days))
    ensures budget >= 2 ==> IsFinal(BumpTarget(from, job, branch, days), after.branches[branch].docs)
    ensures IsFinal(BumpTarget(from, job, branch, days), repo.branches[branch].docs) ==> after == repo
  {
    var (on, t, docs) := (On(job, branch), BumpTarget(from, job, branch, days), repo.branches[branch].docs);
    var baseline := LandedBaseline(from, on, today);
    LandableIsLive(repo.main, from, job);
    BumpIsRead(repo, job, branch, today);
    PlanFromStage(repo.main, from, on, days, docs, today, [], true);
    var missing := StillMissing(t, baseline, docs);
    assert [] + missing + [] == missing;
    StillMissingIsShort(t, baseline, docs);
    after := PutsRun(repo, t, baseline, missing, budget);
    if IsFinal(t, docs) {
      FinalMissesNothing(t, baseline, docs);
    }
  }

  lemma BumpStays(repo: Repo, after: Repo, server: string, branch: string)
    requires HasBump(repo, server, branch)
    requires after.prs == repo.prs && after.main == repo.main && branch in after.branches
    ensures HasBump(after, server, branch)
  {
  }

  lemma {:induction false} FinalStays(
    repo: Repo, from: Docs, job: Job, branch: string, days: set<string>, attempts: seq<Attempt>)
    requires HasBump(repo, job.server, branch) && Landable(repo.main, from, job) && DaysOf(attempts) <= days
    requires Staged(repo, BumpTarget(from, job, branch, days))
    requires IsFinal(BumpTarget(from, job, branch, days), repo.branches[branch].docs)
    ensures RunAll(repo, job, attempts) == repo
    decreases |attempts|
  {
    if attempts != [] {
      DaysOfRest(attempts);
      var next := BumpRun(repo, from, job, branch, days, attempts[0].today, attempts[0].budget);
      FinalStays(next, from, job, branch, days, attempts[1..]);
    }
  }

  /** One of the runs gets to make both writes. */
  predicate OneIsWhole(attempts: seq<Attempt>) {
    exists i :: 0 <= i < |attempts| && attempts[i].budget >= 2
  }

  lemma WholeOneIsLater(attempts: seq<Attempt>)
    requires OneIsWhole(attempts) && attempts[0].budget < 2
    ensures OneIsWhole(attempts[1..])
  {
    var i :| 0 <= i < |attempts| && attempts[i].budget >= 2;
    assert attempts[1..][i - 1] == attempts[i];
  }

  /** Any number of runs keep to the bump branch; one with two writes to spend finishes it. */
  lemma {:induction false} BumpRuns(
    repo: Repo, from: Docs, job: Job, branch: string, days: set<string>, attempts: seq<Attempt>)
    returns (end: Repo)
    requires HasBump(repo, job.server, branch) && Landable(repo.main, from, job) && DaysOf(attempts) <= days
    requires Staged(repo, BumpTarget(from, job, branch, days))
    ensures end == RunAll(repo, job, attempts)
    ensures end.prs == repo.prs && SameOutside(repo, end, branch) && Staged(end, BumpTarget(from, job, branch, days))
    ensures OneIsWhole(attempts) ==> IsFinal(BumpTarget(from, job, branch, days), end.branches[branch].docs)
    decreases |attempts|
  {
    if attempts == [] {
      return repo;
    }
    DaysOfRest(attempts);
    var next := BumpRun(repo, from, job, branch, days, attempts[0].today, attempts[0].budget);
    BumpStays(repo, next, job.server, branch);
    end := BumpRuns(next, from, job, branch, days, attempts[1..]);
    OutsideTwice(repo, next, end, branch);
    if attempts[0].budget >= 2 {
      FinalStays(next, from, job, branch, days, attempts[1..]);
    } else if OneIsWhole(attempts) {
      WholeOneIsLater(attempts);
    }
  }

  /** What one whole run leaves on the bump branch: its documents with both entries landed that day. */
  lemma WholeBumpRun(repo: Repo, job: Job, branch: string, today: string, budget: nat) returns (after: Repo)
    requires HasBump(repo, job.server, branch) && Landable(repo.main, repo.branches[branch].docs, job) && budget >= 2
    ensures after == RunLand(repo, job, today, budget) && after.prs == repo.prs && branch in after.branches
    ensures var from := repo.branches[branch].docs;
      after.branches[branch].docs == FinalDocs(from, LandedCatalogue(from, job), LandedBaseline(from, job, today))
  {
    var from := repo.branches[branch].docs;
    after := BumpRun(repo, from, job, branch, {today}, today, budget);
    BumpTargetOfOneDay(from, job, branch, today);
    OnlyFinal(BumpTarget(from, job, branch, {today}), LandedBaseline(from, job, today), after.branches[branch].docs);
  }

  lemma BumpTargetOfOneDay(from: Docs, job: Job, branch: string, day: string)
    requires HasEntries(from, job.server)
    ensures BumpTarget(from, job, branch, {day}).baselines == {LandedBaseline(from, job, day)}
    ensures BumpTarget(from, job, branch, {day}).catalogue == LandedCatalogue(from, job)
  {
    assert day in {day} && LandedBaseline(from, On(job, branch), day) in BumpTarget(from, job, branch, {day}).baselines;
  }

  /**
   Crash recovery on a bump PR. Whatever the runs, each killed after any number of writes,
   one that gets to make two makes the whole sequence end as a single run on one of those
   days would have: the same documents on the branch of the bump PR, no other PR, the rest
   untouched. A further run, on any day, writes nothing.
   */
  lemma BumpCrashesAreContinued(repo: Repo, job: Job, branch: string, attempts: seq<Attempt>, whole: nat, later: Attempt)
    returns (end: Repo, day: string)
    requires HasBump(repo, job.server, branch) && Landable(repo.main, repo.branches[branch].docs, job)
    requires whole < |attempts| && attempts[whole].budget >= 2
    ensures end == RunAll(repo, job, attempts) && day in DaysOf(attempts)
    ensures branch in end.branches && branch in RunLand(repo, job, day, 2).branches
    ensures end.branches[branch].docs == RunLand(repo, job, day, 2).branches[branch].docs
    ensures end.prs == repo.prs && SameOutside(repo, end, branch)
    ensures RunLand(end, job, later.today, later.budget) == end
  {
    var (from, days) := (repo.branches[branch].docs, DaysOf(attempts));
    var t := BumpTarget(from, job, branch, days);
    end := BumpRuns(repo, from, job, branch, days, attempts);
    var baseline :| baseline in t.baselines && end.branches[branch].docs == FinalDocs(from, t.catalogue, baseline);
    day :| day in days && baseline == LandedBaseline(from, On(job, branch), day);
    var single := WholeBumpRun(repo, job, branch, day, 2);
    BumpStays(repo, end, job.server, branch);
    LaterRunIsIdle(end, from, job, branch, days, later);
  }

  /** Once final, a run on any day writes nothing. */
  lemma LaterRunIsIdle(end: Repo, from: Docs, job: Job, branch: string, days: set<string>, later: Attempt)
    requires HasBump(end, job.server, branch) && Landable(end.main, from, job)
    requires Staged(end, BumpTarget(from, job, branch, days))
    requires IsFinal(BumpTarget(from, job, branch, days), end.branches[branch].docs)
    ensures RunLand(end, job, later.today, later.budget) == end
  {
    var (t, wider) := (BumpTarget(from, job, branch, days), BumpTarget(from, job, branch, days + {later.today}));
    forall b | b in t.baselines ensures b in wider.baselines {
      var d :| d in days && b == LandedBaseline(from, On(job, branch), d);
      assert d in days + {later.today};
    }
    var after := BumpRun(end, from, job, branch, days + {later.today}, later.today, later.budget);
  }

  /** One bump PR on a branch that holds main's documents. */
  function BumpRepo(main: Docs, branch: string): Repo {
    Repo(main, map[branch := Branch(main, [], [])], [Pr(branch, Open, true, false)])
  }

  lemma OneOpenPr(p: Pr, server: string)
    requires p.state.Open? && IsBumpBranch(server, p.head)
    ensures OpenPrs([p]) == [p] && BumpPrs(server, [p]) == [p]
  {
    var prs := [p];
    assert prs[1..] == [] && OpenPrs([]) == [] && BumpPrs(server, []) == [];
    assert OpenPrs(prs) == [p] + OpenPrs(prs[1..]);
    assert BumpPrs(server, prs) == [p] + BumpPrs(server, prs[1..]);
  }

  lemma BumpRepoHasBump(main: Docs, server: string, branch: string)
    requires IsServerId(server) && Vendored(main, server) == Some(true) && IsBumpBranch(server, branch)
    ensures HasBump(BumpRepo(main, branch), server, branch)
  {
    var p := Pr(branch, Open, true, false);
    OneOpenPr(p, server);
    OnlyBumpReads(BumpRepo(main, branch), server, p);
  }

  lemma BumpBranchOf(server: string) returns (branch: string)
    ensures IsBumpBranch(server, branch)
  {
    branch := "portal-allowlist/" + server + "-" + "0000000";
  }

  /** The results above are about something: each server and tool has a bump PR to land on. */
  lemma SomeBumpIsReady(server: string, live: string) returns (repo: Repo, job: Job, branch: string)
    requires IsServerId(server) && IsToolName(Str(live))
    ensures HasBump(repo, server, branch) && branch in repo.branches
    ensures job.server == server && Landable(repo.main, repo.branches[branch].docs, job)
    ensures LandedBaseline(repo.branches[branch].docs, job, "") != repo.branches[branch].docs[BaselineFile].doc
  {
    var main := OneToolMain(server, live);
    branch := BumpBranchOf(server);
    job := JobOf(server, Arr([Str(live)]), "0000000");
    repo := BumpRepo(main, branch);
    OneToolMainIsReady(server, live, "0000000");
    BumpRepoHasBump(main, server, branch);
    BumpHasWork(server, live, job);
  }

  lemma BumpHasWork(server: string, live: string, job: Job)
    requires IsToolName(Str(live)) && job.server == server
    ensures HasEntries(OneToolMain(server, live), server)
    ensures LandedBaseline(OneToolMain(server, live), job, "") != OneToolMain(server, live)[BaselineFile].doc
  {
    OneToolTotals(server, live);
    RecountDiffers(OneToolMain(server, live)[BaselineFile].doc, server);
  }

  lemma RecountDiffers(baseline: Json, server: string)
    requires HasEntry(baseline, server) && Get(Entry(baseline, server).value, "tools_total") == Some(Num(0))
    ensures NewBaseline(baseline, server, 1, "") != baseline
  {
    NewBaselineOnlyRecounts(baseline, server, 1, "");
  }
}

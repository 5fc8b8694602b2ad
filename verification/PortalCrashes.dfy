/**
 Runs of scripts/portal-catalogue-land.py that die while no bump PR is open: any number of
 them, each after any number of remote writes and each on its own day, against the same
 main, live list and allowlist. The steps are those of PortalRecovery, taken by the plans of PortalLander.
 */
module PortalCrashes {
  import opened Wrappers
  import opened JsonDocs
  import opened PortalDecision
  import opened PortalLander
  import opened PortalRecovery
  import opened PortalValidator
  import opened Seqs

  /** The files a decision reads, the two it rewrites in their canonical text. */
  predicate HasAllDocs(main: Docs, server: string) {
    Rewritable(main, CatalogueFile) && Rewritable(main, BaselineFile) && AllowlistFile(server) in main
  }

  /** The entries of the server that a decision reads on the branch. */
  predicate HasEntries(from: Docs, server: string) {
    && HasAllDocs(from, server) && Decisions(from[AllowlistFile(server)].doc).Some?
    && Entry(from[CatalogueFile].doc, server).Some? && HasEntry(from[BaselineFile].doc, server)
  }

  /** What decide() reads when the branch holds these documents. */
  function StageInputs(main: Docs, server: string, docs: Docs): Inputs
    requires CatalogueFile in main && BaselineFile in main
    requires CatalogueFile in docs && BaselineFile in docs && AllowlistFile(server) in docs
  {
    Inputs(docs[CatalogueFile].doc, docs[BaselineFile].doc, docs[AllowlistFile(server)].doc,
           main[BaselineFile].doc, main[CatalogueFile].doc)
  }

  /** On a branch with these documents a change is decided. The date has no say in that. */
  predicate Landable(main: Docs, from: Docs, job: Job) {
    && CatalogueFile in main && BaselineFile in main && HasEntries(from, job.server)
    && Decide(job.server, job.live, StageInputs(main, job.server, from), "").Change?
  }

  /** The script runs on this server, and main's documents let it write. */
  predicate Ready(main: Docs, job: Job) {
    && IsServerId(job.server) && Vendored(main, job.server) == Some(true)
    && !IsBumpBranch(job.server, job.branch) && Landable(main, main, job)
  }

  function Total(from: Docs, server: string): nat
    requires HasEntries(from, server)
  {
    |Decisions(from[AllowlistFile(server)].doc).value|
  }

  lemma LandableIsLive(main: Docs, from: Docs, job: Job)
    requires Landable(main, from, job)
    ensures IsLiveList(job.live)
  {
  }

  /** The catalogue with the live list in it. */
  function LandedCatalogue(from: Docs, job: Job): Json
    requires HasEntries(from, job.server)
  {
    SetEntry(from[CatalogueFile].doc, job.server, job.live)
  }

  /** The baseline as a run on that day leaves it. */
  function LandedBaseline(from: Docs, job: Job, day: string): Json
    requires HasEntries(from, job.server)
  {
    NewBaseline(from[BaselineFile].doc, job.server, Total(from, job.server), day)
  }

  function TargetOf(from: Docs, job: Job, days: set<string>): Target
    requires HasEntries(from, job.server)
  {
    Target(from, job.branch, LandedCatalogue(from, job), set d | d in days :: LandedBaseline(from, job, d))
  }

  /** Something of main has to change. */
  predicate Lags(main: Docs, job: Job)
    requires HasEntries(main, job.server)
  {
    || LandedCatalogue(main, job) != main[CatalogueFile].doc
    || !RecordsTotal(Entry(main[BaselineFile].doc, job.server).value, Total(main, job.server))
  }

  /** A stage's baseline is one of the written ones exactly when it records the total. */
  lemma StageRecordsTotal(from: Docs, job: Job, days: set<string>, docs: Docs) returns (written: string)
    requires HasEntries(from, job.server) && days != {} && IsStage(TargetOf(from, job, days), docs)
    ensures HasEntry(docs[BaselineFile].doc, job.server)
    ensures docs[BaselineFile].doc == from[BaselineFile].doc
         || docs[BaselineFile].doc == LandedBaseline(from, job, written)
    ensures docs[BaselineFile].doc in TargetOf(from, job, days).baselines
       <==> RecordsTotal(Entry(docs[BaselineFile].doc, job.server).value, Total(from, job.server))
  {
    var t := TargetOf(from, job, days);
    var baseline := docs[BaselineFile].doc;
    var day :| day in days;
    written := day;
    assert LandedBaseline(from, job, day) in t.baselines;
    forall d | d in days
      ensures HasEntry(LandedBaseline(from, job, d), job.server)
           && RecordsTotal(Entry(LandedBaseline(from, job, d), job.server).value, Total(from, job.server))
    {
      NewBaselineOnlyRecounts(from[BaselineFile].doc, job.server, Total(from, job.server), d);
    }
    if baseline in t.baselines {
      written :| written in days && baseline == LandedBaseline(from, job, written);
    }
  }

  /** At any stage the decision is that of the start, and asks for the missing writes. */
  lemma DecideAtStage(main: Docs, from: Docs, job: Job, days: set<string>, docs: Docs, today: string)
    returns (change: Outcome)
    requires Landable(main, from, job) && today in days && IsStage(TargetOf(from, job, days), docs)
    ensures change == Decide(job.server, job.live, StageInputs(main, job.server, docs), today)
    ensures change.Change? && change.catalogue == LandedCatalogue(from, job)
    ensures change.baselineChanged <==> docs[BaselineFile].doc !in TargetOf(from, job, days).baselines
    ensures change.baselineChanged ==> change.baseline == LandedBaseline(from, job, today)
  {
    var written := StageRecordsTotal(from, job, days, docs);
    var (inputs, total) := (StageInputs(main, job.server, from), Total(from, job.server));
    var (cat, base) := (docs[CatalogueFile].doc, docs[BaselineFile].doc);
    ResumedDecision(job.server, job.live, inputs, "", cat, base, written, today);
    assert inputs.(catalogue := cat, baseline := base) == StageInputs(main, job.server, docs);
    change := Decide(job.server, job.live, StageInputs(main, job.server, docs), today);
    if base == LandedBaseline(from, job, written) {
      NewBaselineOnlyRecounts(from[BaselineFile].doc, job.server, total, written);
    }
  }

  lemma FinishAtStage(t: Target, docs: Docs, setup: seq<Op>, change: Outcome, baseline: Json, hasPr: bool)
    requires IsTarget(t) && IsStage(t, docs) && change.Change? && change.catalogue == t.catalogue
    requires change.baselineChanged <==> docs[BaselineFile].doc !in t.baselines
    requires change.baselineChanged ==> change.baseline == baseline
    ensures OpsOf(Finish(t.branch, docs, setup, change, hasPr))
         == setup + StillMissing(t, baseline, docs) + (if hasPr then [] else [OpenPr(t.branch)])
  {
  }

  /** From any stage a run plans exactly the missing writes, dated today, and the PR unless there is one. */
  lemma PlanFromStage(
    main: Docs, from: Docs, job: Job, days: set<string>, docs: Docs, today: string, setup: seq<Op>, hasPr: bool)
    requires Landable(main, from, job) && today in days && IsStage(TargetOf(from, job, days), docs)
    ensures OpsOf(PlanFrom(main, job, today, job.branch, docs, setup, hasPr))
         == setup + StillMissing(TargetOf(from, job, days), LandedBaseline(from, job, today), docs)
            + (if hasPr then [] else [OpenPr(job.branch)])
  {
    var change := DecideAtStage(main, from, job, days, docs, today);
    FinishAtStage(TargetOf(from, job, days), docs, setup, change, LandedBaseline(from, job, today), hasPr);
    PlanFromDecision(main, job, docs, today, setup, change, hasPr);
  }

  lemma PlanFromDecision(
    main: Docs, job: Job, docs: Docs, today: string, setup: seq<Op>, change: Outcome, hasPr: bool)
    requires CatalogueFile in main && BaselineFile in main && HasAllDocs(docs, job.server) && change.Change?
    requires change == Decide(job.server, job.live, StageInputs(main, job.server, docs), today)
    ensures PlanFrom(main, job, today, job.branch, docs, setup, hasPr) == Finish(job.branch, docs, setup, change, hasPr)
  {
  }

  // ---------------------------------------------------------------- one run

  predicate NoBump(repo: Repo, server: string) {
    BumpPrs(server, OpenPrs(repo.prs)) == []
  }

  /** Where a run may find the repository, earlier runs having died anywhere. */
  predicate Recoverable(repo: Repo, t: Target)
    requires IsTarget(t)
  {
    NoProposal(repo, t.branch) && (Untouched(repo, t.branch) || InMotion(repo, t))
  }

  /** The writes that put main's head under the branch when nothing of its own is on it. */
  function Setup(repo: Repo, branch: string): seq<Op> {
    if branch !in repo.branches then [CreateBranch(branch)]
    else if repo.branches[branch].commits == [] then [FastForward(branch)] else []
  }

  /** The documents a run on this branch reads. */
  function ReadDocs(repo: Repo, branch: string): Docs {
    if Setup(repo, branch) != [] then repo.main else repo.branches[branch].docs
  }

  /** No bump PR, no proposal, and a branch that is its own if there is one. */
  lemma PlanIsItsOwn(repo: Repo, job: Job, today: string)
    requires IsServerId(job.server) && IsLiveList(job.live) && Vendored(repo.main, job.server) == Some(true)
    requires BaselineFile in repo.main && CatalogueFile in repo.main
    requires NoBump(repo, job.server) && NoProposal(repo, job.branch)
    requires job.branch in repo.branches ==> IsOwnWork(repo.branches[job.branch])
    ensures PlanLand(repo, job, today)
         == PlanFrom(repo.main, job, today, job.branch, ReadDocs(repo, job.branch), Setup(repo, job.branch), false)
  {
  }

  /** A run's plan: the branch when nothing is on it, then the missing writes, then the PR. */
  lemma PlanOf(repo: Repo, job: Job, days: set<string>, today: string)
    requires Ready(repo.main, job) && today in days && NoBump(repo, job.server)
    requires Recoverable(repo, TargetOf(repo.main, job, days))
    ensures var (t, docs) := (TargetOf(repo.main, job, days), ReadDocs(repo, job.branch));
      && IsStage(t, docs)
      && OpsOf(PlanLand(repo, job, today))
         == Setup(repo, job.branch) + StillMissing(t, LandedBaseline(repo.main, job, today), docs) + [OpenPr(job.branch)]
  {
    LandableIsLive(repo.main, repo.main, job);
    PlanIsItsOwn(repo, job, today);
    PlanFromStage(repo.main, repo.main, job, days, ReadDocs(repo, job.branch), today, Setup(repo, job.branch), false);
  }

  /** The branch is created, or brought up to main. */
  lemma SetupStep(repo: Repo, t: Target, setup: Op) returns (next: Repo)
    requires IsTarget(t) && NoProposal(repo, t.branch) && t.main == repo.main && Setup(repo, t.branch) == [setup]
    ensures Apply(repo, setup) == Some(next)
    ensures next.prs == repo.prs && SameOutside(repo, next, t.branch) && InMotion(next, t)
    ensures next.branches[t.branch].docs == t.main
  {
    next := Apply(repo, setup).value;
    assert next.branches - {t.branch} == repo.branches - {t.branch};
  }

  lemma StillMissingIsShort(t: Target, baseline: Json, docs: Docs)
    requires CatalogueFile in docs && BaselineFile in docs
    ensures |StillMissing(t, baseline, docs)| <= 2
  {
  }

  /** The plan cut short anywhere, the branch included. */
  lemma PlanRuns(repo: Repo, t: Target, baseline: Json, budget: nat) returns (after: Repo)
    requires IsTarget(t) && HasWork(t) && t.main == repo.main && baseline in t.baselines
    requires Recoverable(repo, t) && IsStage(t, ReadDocs(repo, t.branch))
    ensures after == Exec(repo, Setup(repo, t.branch) + StillMissing(t, baseline, ReadDocs(repo, t.branch))
                                + [OpenPr(t.branch)], budget)
    ensures SameOutside(repo, after, t.branch)
    ensures Proposed(after, t) || (budget < 4 && after.prs == repo.prs && Recoverable(after, t))
  {
    var setup := Setup(repo, t.branch);
    var missing := StillMissing(t, baseline, ReadDocs(repo, t.branch));
    StillMissingIsShort(t, baseline, ReadDocs(repo, t.branch));
    Regroup(setup, missing, [OpenPr(t.branch)]);
    if setup == [] {
      NothingAdded(missing + [OpenPr(t.branch)]);
      after := TailRuns(repo, t, baseline, missing, missing + [OpenPr(t.branch)], budget);
      StoppedIsRecoverable(repo, after, t, budget > |missing|);
    } else {
      after := SetupRuns(repo, t, baseline, setup[0], missing, budget);
    }
  }

  /** The plan that begins with the branch, cut short anywhere. */
  lemma SetupRuns(repo: Repo, t: Target, baseline: Json, setup: Op, missing: seq<Op>, budget: nat) returns (after: Repo)
    requires IsTarget(t) && HasWork(t) && t.main == repo.main && baseline in t.baselines
    requires Recoverable(repo, t) && Setup(repo, t.branch) == [setup]
    requires missing == StillMissing(t, baseline, t.main) && |missing| <= 2
    ensures after == Exec(repo, [setup] + (missing + [OpenPr(t.branch)]), budget)
    ensures SameOutside(repo, after, t.branch)
    ensures Proposed(after, t) || (budget < 4 && after.prs == repo.prs && Recoverable(after, t))
  {
    var tail := missing + [OpenPr(t.branch)];
    ExecStep(repo, setup, tail, budget);
    if budget == 0 {
      return repo;
    }
    var next := SetupStep(repo, t, setup);
    after := TailRuns(next, t, baseline, missing, tail, budget - 1);
    AdvancedFurther(repo, next, after, t, budget - 1 > |missing|);
    StoppedIsRecoverable(repo, after, t, budget - 1 > |missing|);
  }

  lemma StoppedIsRecoverable(before: Repo, after: Repo, t: Target, done: bool)
    requires IsTarget(t) && Advanced(before, after, t, done)
    ensures Proposed(after, t) || (!done && after.prs == before.prs && Recoverable(after, t))
  {
    var withPr := before.prs + [Pr(t.branch, Open, true, false)];
    assert withPr[|before.prs|] == Pr(t.branch, Open, true, false);
  }

  /** A run that dies anywhere leaves what the next one continues from; one with four writes to spend is done. */
  lemma RunStep(repo: Repo, job: Job, days: set<string>, today: string, budget: nat) returns (after: Repo)
    requires Ready(repo.main, job) && Lags(repo.main, job) && today in days && NoBump(repo, job.server)
    requires Recoverable(repo, TargetOf(repo.main, job, days))
    ensures after == RunLand(repo, job, today, budget)
    ensures SameOutside(repo, after, job.branch)
    ensures || Proposed(after, TargetOf(repo.main, job, days))
            || (budget < 4 && after.prs == repo.prs && Recoverable(after, TargetOf(repo.main, job, days)))
  {
    LagMeansWork(repo.main, job, days);
    PlanOf(repo, job, days, today);
    after := PlanRuns(repo, TargetOf(repo.main, job, days), LandedBaseline(repo.main, job, today), budget);
  }

  lemma LagMeansWork(main: Docs, job: Job, days: set<string>)
    requires Ready(main, job) && Lags(main, job) && days != {}
    ensures HasWork(TargetOf(main, job, days))
  {
    var written := StageRecordsTotal(main, job, days, main);
  }

  /** Once proposed, a run plans nothing. */
  lemma ProposedIsLeftAlone(repo: Repo, job: Job, today: string, budget: nat)
    requires HasPr(repo, job.branch, Open) && NoBump(repo, job.server)
    ensures RunLand(repo, job, today, budget) == repo
  {
  }

  /** The PR that a run opens is not a bump PR. */
  lemma OwnPrIsNoBump(before: Repo, after: Repo, job: Job)
    requires NoBump(before, job.server) && !IsBumpBranch(job.server, job.branch)
    requires SameOutside(before, after, job.branch)
    ensures NoBump(after, job.server)
  {
    forall p | p in OpenPrs(after.prs) ensures !IsBumpBranch(job.server, p.head) {
      if p in before.prs {
        assert p in OpenPrs(before.prs);
        assert p !in BumpPrs(job.server, OpenPrs(before.prs));
      }
    }
    HasAMember(BumpPrs(job.server, OpenPrs(after.prs)));
  }

  lemma HasAMember(prs: seq<Pr>)
    ensures prs == [] || exists p :: p in prs
  {
    if prs != [] {
      assert prs[0] in prs;
    }
  }

  // ---------------------------------------------------------------- any number of runs

  // One run: its date, and the number of writes it gets to make before it is killed.
  datatype Attempt = Attempt(today: string, budget: nat)

  function RunAll(repo: Repo, job: Job, attempts: seq<Attempt>): Repo
    decreases |attempts|
  {
    if attempts == [] then repo
    else RunAll(RunLand(repo, job, attempts[0].today, attempts[0].budget), job, attempts[1..])
  }

  function DaysOf(attempts: seq<Attempt>): set<string> {
    set i | 0 <= i < |attempts| :: attempts[i].today
  }

  /** No bump PR, no earlier proposal, and no branch of the proposal's name with anything on it. */
  predicate Unproposed(repo: Repo, job: Job) {
    NoBump(repo, job.server) && NoProposal(repo, job.branch) && Untouched(repo, job.branch)
  }

  lemma {:induction false} ProposedStays(repo: Repo, job: Job, attempts: seq<Attempt>)
    requires HasPr(repo, job.branch, Open) && NoBump(repo, job.server)
    ensures RunAll(repo, job, attempts) == repo
    decreases |attempts|
  {
    if attempts != [] {
      ProposedIsLeftAlone(repo, job, attempts[0].today, attempts[0].budget);
      ProposedStays(repo, job, attempts[1..]);
    }
  }

  predicate AllKilled(attempts: seq<Attempt>) {
    forall i :: 0 <= i < |attempts| ==> attempts[i].budget < 4
  }

  lemma AllKilledAfter(attempts: seq<Attempt>)
    requires attempts != [] && attempts[0].budget < 4 && AllKilled(attempts[1..])
    ensures AllKilled(attempts)
  {
    forall i | 0 <= i < |attempts| ensures attempts[i].budget < 4 {
      assert i > 0 ==> attempts[i] == attempts[1..][i - 1];
    }
  }

  lemma {:induction false} RunsStayRecoverable(repo: Repo, job: Job, days: set<string>, attempts: seq<Attempt>)
    returns (after: Repo)
    requires Ready(repo.main, job) && Lags(repo.main, job) && NoBump(repo, job.server)
    requires Recoverable(repo, TargetOf(repo.main, job, days)) && DaysOf(attempts) <= days
    ensures after == RunAll(repo, job, attempts)
    ensures SameOutside(repo, after, job.branch)
    ensures Proposed(after, TargetOf(repo.main, job, days)) || AllKilled(attempts)
    decreases |attempts|
  {
    if attempts == [] {
      return repo;
    }
    DaysOfRest(attempts);
    var next := RunStep(repo, job, days, attempts[0].today, attempts[0].budget);
    OwnPrIsNoBump(repo, next, job);
    if Proposed(next, TargetOf(repo.main, job, days)) {
      ProposedStays(next, job, attempts[1..]);
      after := next;
    } else {
      after := RunsStayRecoverable(next, job, days, attempts[1..]);
      OutsideTwice(repo, next, after, job.branch);
      if AllKilled(attempts[1..]) {
        AllKilledAfter(attempts);
      }
    }
  }

  lemma DaysOfRest(attempts: seq<Attempt>)
    requires attempts != []
    ensures attempts[0].today in DaysOf(attempts) && DaysOf(attempts[1..]) <= DaysOf(attempts)
  {
  }

  lemma OnlyFinal(t: Target, baseline: Json, docs: Docs)
    requires IsFinal(t, docs) && t.baselines == {baseline}
    ensures docs == FinalDocs(t.main, t.catalogue, baseline)
  {
  }

  lemma TargetOfOneDay(main: Docs, job: Job, day: string)
    requires Ready(main, job)
    ensures TargetOf(main, job, {day}).baselines == {LandedBaseline(main, job, day)}
  {
    var t := TargetOf(main, job, {day});
    assert day in {day} && LandedBaseline(main, job, day) in t.baselines;
  }

  /** What one uninterrupted run leaves: one open PR, and main's documents with both entries landed that day. */
  lemma UninterruptedRun(repo: Repo, job: Job, today: string, budget: nat) returns (after: Repo)
    requires Ready(repo.main, job) && Lags(repo.main, job) && Unproposed(repo, job) && budget >= 4
    ensures after == RunLand(repo, job, today, budget)
    ensures CountOpen(after.prs, job.branch) == 1 && HasPr(after, job.branch, Open)
    ensures job.branch in after.branches && after.branches[job.branch].docs
         == FinalDocs(repo.main, LandedCatalogue(repo.main, job), LandedBaseline(repo.main, job, today))
  {
    after := RunStep(repo, job, {today}, today, budget);
    TargetOfOneDay(repo.main, job, today);
    OnlyFinal(TargetOf(repo.main, job, {today}), LandedBaseline(repo.main, job, today), after.branches[job.branch].docs);
  }

  /**
   Crash recovery. Whatever the runs, each killed after any number of writes, one that is
   not killed makes the whole sequence end as a single uninterrupted run on one of those
   days would have: the same documents on the branch, one open PR, the rest untouched.
   A further run, on any day, writes nothing.
   */
  lemma CrashesAreContinued(repo: Repo, job: Job, attempts: seq<Attempt>, whole: nat, later: Attempt)
    returns (end: Repo, day: string)
    requires Ready(repo.main, job) && Lags(repo.main, job) && Unproposed(repo, job)
    requires whole < |attempts| && attempts[whole].budget >= 4
    ensures end == RunAll(repo, job, attempts) && day in DaysOf(attempts)
    ensures job.branch in end.branches && job.branch in RunLand(repo, job, day, 4).branches
    ensures end.branches[job.branch].docs == RunLand(repo, job, day, 4).branches[job.branch].docs
    ensures CountOpen(end.prs, job.branch) == 1 && SameOutside(repo, end, job.branch)
    ensures RunLand(end, job, later.today, later.budget) == end
  {
    var days := DaysOf(attempts);
    var t := TargetOf(repo.main, job, days);
    assert attempts[whole].today in days;
    end := RunsStayRecoverable(repo, job, days, attempts);
    var baseline :| baseline in t.baselines && end.branches[job.branch].docs == FinalDocs(repo.main, t.catalogue, baseline);
    day :| day in days && baseline == LandedBaseline(repo.main, job, day);
    var single := UninterruptedRun(repo, job, day, 4);
    OwnPrIsNoBump(repo, end, job);
    ProposedIsLeftAlone(end, job, later.today, later.budget);
  }

  /** With nothing to land no run ever opens a PR, however often it is tried. */
  lemma {:induction false} NothingToLandIsNeverProposed(repo: Repo, job: Job, attempts: seq<Attempt>)
    requires Ready(repo.main, job) && !Lags(repo.main, job) && Unproposed(repo, job)
    ensures var end := RunAll(repo, job, attempts);
      end.prs == repo.prs && SameOutside(repo, end, job.branch) && Unproposed(end, job)
    decreases |attempts|
  {
    if attempts != [] {
      var next := EmptyRun(repo, job, attempts[0].today, attempts[0].budget);
      NothingToLandIsNeverProposed(next, job, attempts[1..]);
      OutsideTwice(repo, next, RunAll(next, job, attempts[1..]), job.branch);
    }
  }

  lemma EmptyRun(repo: Repo, job: Job, today: string, budget: nat) returns (next: Repo)
    requires Ready(repo.main, job) && !Lags(repo.main, job) && Unproposed(repo, job)
    ensures next == RunLand(repo, job, today, budget)
    ensures next.prs == repo.prs && SameOutside(repo, next, job.branch) && Unproposed(next, job)
  {
    PlanOf(repo, job, {today}, today);
    NothingMissing(repo.main, job, today);
    next := EmptyPlanRuns(repo, job.branch, budget);
  }

  lemma NothingMissing(main: Docs, job: Job, today: string)
    requires Ready(main, job) && !Lags(main, job)
    ensures StillMissing(TargetOf(main, job, {today}), LandedBaseline(main, job, today), main) == []
  {
    var written := StageRecordsTotal(main, job, {today}, main);
  }

  lemma EmptyPlanRuns(repo: Repo, branch: string, budget: nat) returns (next: Repo)
    requires Untouched(repo, branch)
    ensures next == Exec(repo, Setup(repo, branch) + [] + [OpenPr(branch)], budget)
    ensures next.prs == repo.prs && SameOutside(repo, next, branch) && Untouched(next, branch)
  {
    var setup := Setup(repo, branch)[0];
    assert Setup(repo, branch) + [] + [OpenPr(branch)] == [setup] + [OpenPr(branch)];
    ExecStep(repo, setup, [OpenPr(branch)], budget);
    next := if budget == 0 then repo else Apply(repo, setup).value;
    assert next.branches - {branch} == repo.branches - {branch};
  }

  /** main with one vendored server, one tool in its catalogue, and a baseline that records no tools yet. */
  function OneToolMain(server: string, live: string): Docs {
    MainWith(server, live, Allowlist([Tool(live, true)]))
  }

  /** The same with any allowlist. */
  function MainWith(server: string, live: string, allowlist: Json): Docs {
    var inputs := OneLiveTool(server, live, allowlist);
    map[CatalogueFile := File(inputs.catalogue, true), BaselineFile := File(inputs.baseline, true),
        MappingFile := File(OneServer(server, VENDORED), true), AllowlistFile(server) := File(inputs.allowlist, true)]
  }

  /** The results above are about something: each server and tool has a repository to land in. */
  lemma SomeJobIsReady(server: string, live: string, digest: string) returns (repo: Repo, job: Job)
    requires IsServerId(server) && IsToolName(Str(live))
    ensures Ready(repo.main, job) && Lags(repo.main, job) && Unproposed(repo, job)
    ensures job == JobOf(server, Arr([Str(live)]), digest)
  {
    job := JobOf(server, Arr([Str(live)]), digest);
    repo := Repo(OneToolMain(server, live), map[], []);
    OneToolMainIsReady(server, live, digest);
    OneToolTotals(server, live);
    OldTotalLags(repo.main, job);
    NothingIsProposed(repo.main, job);
  }

  lemma NothingIsProposed(main: Docs, job: Job)
    ensures Unproposed(Repo(main, map[], []), job)
  {
  }

  lemma OneToolTotals(server: string, live: string)
    requires IsToolName(Str(live))
    ensures var main := OneToolMain(server, live);
      && HasEntries(main, server) && Total(main, server) == 1
      && Get(Entry(main[BaselineFile].doc, server).value, "tools_total") == Some(Num(0))
  {
    OneToolFiles(server, live, Allowlist([Tool(live, true)]));
    OneToolDecides(live, true);
    OneEntryReads(server, live);
    OneDecisionCounts(OneToolMain(server, live), server, live);
  }

  lemma OneDecisionCounts(main: Docs, server: string, live: string)
    requires HasAllDocs(main, server) && Decisions(main[AllowlistFile(server)].doc) == Some(map[live := true])
    requires Entry(main[CatalogueFile].doc, server).Some? && HasEntry(main[BaselineFile].doc, server)
    ensures HasEntries(main, server) && Total(main, server) == 1
  {
    assert |map[live := true]| == 1;
  }

  lemma OneToolFiles(server: string, live: string, allowlist: Json)
    ensures var main := MainWith(server, live, allowlist);
      && HasAllDocs(main, server) && main[CatalogueFile].doc == OneServer(server, Arr([Str(live)]))
      && main[BaselineFile].doc == OneServer(server, OneToolEntry(live))
      && main[AllowlistFile(server)].doc == allowlist
  {
  }

  lemma OneToolMainIsReady(server: string, live: string, digest: string)
    requires IsServerId(server) && IsToolName(Str(live))
    ensures Ready(OneToolMain(server, live), JobOf(server, Arr([Str(live)]), digest))
  {
    ProposalIsNoBump(server, digest);
    MainReads(server, live, Allowlist([Tool(live, true)]));
    OneToolTotals(server, live);
    OneToolDecides(live, true);
    OneLiveToolIsAChange(server, live, Allowlist([Tool(live, true)]), "");
  }

  lemma MainReads(server: string, live: string, allowlist: Json)
    ensures var main := MainWith(server, live, allowlist);
      && Vendored(main, server) == Some(true) && HasAllDocs(main, server)
      && StageInputs(main, server, main) == OneLiveTool(server, live, allowlist)
  {
    assert Get(MainWith(server, live, allowlist)[MappingFile].doc, "servers") == Some(Obj(map[server := VENDORED]));
    assert "vendored" in VENDORED.fields && Truthy(VENDORED);
  }

  lemma OldTotalLags(main: Docs, job: Job)
    requires HasEntries(main, job.server) && Total(main, job.server) > 0
    requires Get(Entry(main[BaselineFile].doc, job.server).value, "tools_total") == Some(Num(0))
    ensures Lags(main, job)
  {
  }
}

/**
 When a run of scripts/portal-catalogue-land.py writes, and what it says when it does not,
 in terms of the pull requests, the commits and the documents it finds.
 */
module PortalWrites {
  import opened Wrappers
  import opened JsonDocs
  import opened PortalDecision
  import opened PortalLander
  import opened PortalChanges
  import opened Seqs
  import opened Text

  /** One to 63 lower-case letters, digits and dashes, the first no dash. */
  predicate IsServer(server: string) {
    && 1 <= |server| <= 63 && server[0] != '-'
    && forall i :: 0 <= i < |server| ==> server[i] in LOWER || server[i] in DIGITS || server[i] == '-'
  }

  lemma ServerExactly(server: string)
    ensures IsServerId(server) <==> IsServer(server)
  {
    AreAlphabets();
    forall c ensures IsServerChar(c, false) <==> c in LOWER || c in DIGITS || c == '-' {
      InAlphabet(LOWER, 'a', c);
      InAlphabet(DIGITS, '0', c);
    }
    assert server != "" ==> (IsServerChar(server[0], true) <==> IsServerChar(server[0], false) && server[0] != '-');
  }

  /** A list of names, each once. */
  predicate IsLive(live: Json) {
    && live.Arr? && live.items != [] && (forall i :: 0 <= i < |live.items| ==> IsName(live.items[i]))
    && forall i, j :: 0 <= i < j < |live.items| ==> live.items[i] != live.items[j]
  }

  lemma LiveExactly(live: Json)
    ensures IsLiveList(live) <==> IsLive(live)
  {
    NamesExactly();
  }

  /** The positions of the open pull requests. */
  function OpenAt(prs: seq<Pr>): set<int> {
    set i | 0 <= i < |prs| && prs[i].state == Open
  }

  lemma {:induction false} OpenPrsLast(prs: seq<Pr>, last: Pr)
    ensures OpenPrs(prs + [last]) == OpenPrs(prs) + (if last.state.Open? then [last] else [])
  {
    if prs == [] {
      NothingAdded([last]);
      assert [last][1..] == [];
    } else {
      RestOfBoth(prs, [last]);
      OpenPrsLast(prs[1..], last);
      Regroup(if prs[0].state.Open? then [prs[0]] else [], OpenPrs(prs[1..]), if last.state.Open? then [last] else []);
    }
  }

  lemma OpenAtLast(prs: seq<Pr>, last: Pr)
    ensures |OpenAt(prs + [last])| == |OpenAt(prs)| + (if last.state == Open then 1 else 0)
  {
    var n := |prs|;
    var longer := prs + [last];
    assert forall i :: 0 <= i < n ==> longer[i] == prs[i];
    assert longer[n] == last && n !in OpenAt(prs);
    assert OpenAt(longer) == OpenAt(prs) + (if last.state == Open then {n} else {});
  }

  lemma {:induction false} OpenPrsCount(prs: seq<Pr>)
    ensures |OpenPrs(prs)| == |OpenAt(prs)|
  {
    if prs != [] {
      var (front, last) := (prs[..|prs| - 1], prs[|prs| - 1]);
      OpenPrsCount(front);
      OpenPrsLast(front, last);
      OpenAtLast(front, last);
      assert front + [last] == prs;
    }
  }

  /** mapping.json has an entry for the server whose vendored switch is on. */
  predicate IsVendoredIn(main: Docs, server: string) {
    && MappingFile in main && main[MappingFile].doc.Obj? && "servers" in main[MappingFile].doc.fields
    && var servers := main[MappingFile].doc.fields["servers"];
       servers.Obj? && server in servers.fields && servers.fields[server].Obj?
       && "vendored" in servers.fields[server].fields && Truthy(servers.fields[server].fields["vendored"])
  }

  lemma VendoredExactly(main: Docs, server: string)
    ensures Vendored(main, server) == Some(true) <==> IsVendoredIn(main, server)
  {
  }

  /** The run can read what it needs before it looks at pull requests and branches. */
  ghost predicate CanStart(repo: Repo, job: Job) {
    && IsServer(job.server) && IsLive(job.live) && IsVendoredIn(repo.main, job.server)
    && BaselineFile in repo.main && CatalogueFile in repo.main && |OpenAt(repo.prs)| < 500
  }

  lemma StartExactly(repo: Repo, job: Job)
    ensures CanStart(repo, job) <==> GetsToTheBranch(repo, job)
  {
    ServerExactly(job.server);
    LiveExactly(job.live);
    VendoredExactly(repo.main, job.server);
    OpenPrsCount(repo.prs);
  }

  /** On the bump branch if there is one, else on the proposal branch, a change is decided. */
  ghost predicate MayWrite(repo: Repo, job: Job, today: string) {
    && CanStart(repo, job)
    && ((exists branch :: IsOnlyBump(repo, job.server, branch) && branch in repo.branches
                          && IsDecided(repo.main, job, repo.branches[branch].docs, today))
        || (IsFreeProposal(repo, job, job.branch)
            && IsDecided(repo.main, job, ProposalDocs(repo, job.branch), today)))
  }

  lemma PlanFromWrites(main: Docs, job: Job, today: string, branch: string, docs: Docs, setup: seq<Op>, hasPr: bool)
    ensures PlanFrom(main, job, today, branch, docs, setup, hasPr).Write? <==> IsDecided(main, job, docs, today)
    ensures PlanFrom(main, job, today, branch, docs, setup, hasPr).Stop? ==>
              PlanFrom(main, job, today, branch, docs, setup, hasPr).report in {StateUnknown}
              || PlanFrom(main, job, today, branch, docs, setup, hasPr).report.NeedsDecision?
  {
  }

  /** A run writes exactly when it may. */
  lemma WritesExactly(repo: Repo, job: Job, today: string)
    ensures PlanLand(repo, job, today).Write? <==> MayWrite(repo, job, today)
  {
    StartExactly(repo, job);
    NoBumpExactly(repo.prs, job.server);
    if CanStart(repo, job) {
      if |BumpPrs(job.server, OpenPrs(repo.prs))| == 1 {
        BumpWritesExactly(repo, job, today);
      } else {
        forall branch ensures !IsOnlyBump(repo, job.server, branch) {
          if IsOnlyBump(repo, job.server, branch) {
            var p := OnlyBumpIsRead(repo, job.server, branch);
          }
        }
        ProposalWritesExactly(repo, job, today);
      }
    }
  }

  lemma BumpWritesExactly(repo: Repo, job: Job, today: string)
    requires CanStart(repo, job) && |BumpPrs(job.server, OpenPrs(repo.prs))| == 1
    ensures PlanLand(repo, job, today).Write? <==> MayWrite(repo, job, today)
  {
    StartExactly(repo, job);
    var p := TheBump(repo, job, today);
    if ByApp(p) && p.head in repo.branches {
      PlanFromWrites(repo.main, job, today, p.head, repo.branches[p.head].docs, [], true);
    }
  }

  lemma BumpPlanIs(repo: Repo, job: Job, today: string, p: Pr)
    requires GetsToTheBranch(repo, job) && BumpPrs(job.server, OpenPrs(repo.prs)) == [p]
    ensures PlanLand(repo, job, today)
         == if !ByApp(p) then Stop(ManyBumps) else if p.head !in repo.branches then Stop(StateUnknown)
            else PlanFrom(repo.main, job, today, p.head, repo.branches[p.head].docs, [], true)
  {
    assert p in BumpPrs(job.server, OpenPrs(repo.prs));
  }

  /** What a run does with the one open bump PR. */
  lemma TheBump(repo: Repo, job: Job, today: string) returns (p: Pr)
    requires CanStart(repo, job) && |BumpPrs(job.server, OpenPrs(repo.prs))| == 1
    ensures !HasNoBump(repo, job.server)
    ensures forall branch :: IsOnlyBump(repo, job.server, branch) <==> ByApp(p) && branch == p.head
    ensures PlanLand(repo, job, today)
         == if !ByApp(p) then Stop(ManyBumps) else if p.head !in repo.branches then Stop(StateUnknown)
            else PlanFrom(repo.main, job, today, p.head, repo.branches[p.head].docs, [], true)
  {
    StartExactly(repo, job);
    NoneIsFiltered(repo, job.server);
    var i := OneBumpStands(repo.prs, job.server);
    p := repo.prs[i];
    BumpPlanIs(repo, job, today, p);
    if ByApp(p) {
      OnlyBumpReads(repo, job.server, p);
    }
    forall branch | IsOnlyBump(repo, job.server, branch) ensures branch == p.head && ByApp(p) {
      var q := OnlyBumpIsRead(repo, job.server, branch);
    }
  }

  lemma StartedPlan(repo: Repo, job: Job, today: string)
    requires CanStart(repo, job)
    ensures |BumpPrs(job.server, OpenPrs(repo.prs))| > 1 ==> PlanLand(repo, job, today) == Stop(ManyBumps)
    ensures HasNoBump(repo, job.server) ==> PlanLand(repo, job, today) == PlanProposal(repo, job, today)
  {
    StartExactly(repo, job);
    NoneIsFiltered(repo, job.server);
    if HasNoBump(repo, job.server) {
      PlanWithoutBump(repo, job, today);
    } else if |BumpPrs(job.server, OpenPrs(repo.prs))| > 1 {
      PlanWithBumps(repo, job, today);
    }
  }

  lemma PlanWithoutBump(repo: Repo, job: Job, today: string)
    requires GetsToTheBranch(repo, job) && BumpPrs(job.server, OpenPrs(repo.prs)) == []
    ensures PlanLand(repo, job, today) == PlanProposal(repo, job, today)
  {
  }

  lemma PlanWithBumps(repo: Repo, job: Job, today: string)
    requires GetsToTheBranch(repo, job) && |BumpPrs(job.server, OpenPrs(repo.prs))| > 1
    ensures PlanLand(repo, job, today) == Stop(ManyBumps)
  {
  }

  lemma NoneIsFiltered(repo: Repo, server: string)
    ensures HasNoBump(repo, server) <==> BumpPrs(server, OpenPrs(repo.prs)) == []
  {
    NoBumpExactly(repo.prs, server);
  }

  lemma ProposalWritesExactly(repo: Repo, job: Job, today: string)
    requires CanStart(repo, job) && |BumpPrs(job.server, OpenPrs(repo.prs))| != 1
    requires forall branch :: !IsOnlyBump(repo, job.server, branch)
    ensures PlanLand(repo, job, today).Write? <==> MayWrite(repo, job, today)
  {
    StartedPlan(repo, job, today);
    NoBumpExactly(repo.prs, job.server);
    if HasNoBump(repo, job.server) {
      FreeProposalWrites(repo, job, today);
    }
  }

  lemma FreeProposalWrites(repo: Repo, job: Job, today: string)
    requires HasNoBump(repo, job.server)
    ensures PlanProposal(repo, job, today).Write? <==>
      IsFreeProposal(repo, job, job.branch)
      && IsDecided(repo.main, job, ProposalDocs(repo, job.branch), today)
  {
    if IsFreeProposal(repo, job, job.branch) {
      var setup := FreeProposalPlan(repo, job, today);
      PlanFromWrites(repo.main, job, today, job.branch, ProposalDocs(repo, job.branch), setup, false);
    } else {
      TakenProposalStops(repo, job, today);
    }
  }

  /** A PR from the branch in that state. */
  predicate SomePr(repo: Repo, branch: string, state: PrState) {
    exists i :: 0 <= i < |repo.prs| && repo.prs[i].head == branch && repo.prs[i].state == state
  }

  /** What is found when the run stops for a person or for nothing. */
  ghost predicate IsTheCase(report: Report, repo: Repo, job: Job) {
    match report
    case ManyBumps => !HasNoBump(repo, job.server) && forall branch :: !IsOnlyBump(repo, job.server, branch)
    case AlreadyProposed => HasNoBump(repo, job.server) && SomePr(repo, job.branch, Open)
    case WasClosed => HasNoBump(repo, job.server) && !SomePr(repo, job.branch, Open) && SomePr(repo, job.branch, Closed)
    case ForeignBranch => IsLeftToAPerson(repo, job)
    case _ => false
  }

  /** Each of these reports is given exactly when it is the case. */
  lemma ReportsExactly(repo: Repo, job: Job, today: string, report: Report)
    requires CanStart(repo, job) && report in {ManyBumps, AlreadyProposed, WasClosed, ForeignBranch}
    ensures PlanLand(repo, job, today) == Stop(report) <==> IsTheCase(report, repo, job)
  {
    NoneIsFiltered(repo, job.server);
    var bumps := BumpPrs(job.server, OpenPrs(repo.prs));
    if |bumps| == 1 {
      BumpReports(repo, job, today, report);
    } else {
      StartedPlan(repo, job, today);
      NotOneIsNone(repo, job.server);
      if bumps == [] {
        ProposalReports(repo, job, today, report);
      }
    }
  }

  lemma NotOneIsNone(repo: Repo, server: string)
    requires |BumpPrs(server, OpenPrs(repo.prs))| != 1
    ensures forall branch :: !IsOnlyBump(repo, server, branch)
  {
    forall branch ensures !IsOnlyBump(repo, server, branch) {
      if IsOnlyBump(repo, server, branch) {
        var p := OnlyBumpIsRead(repo, server, branch);
      }
    }
  }

  lemma BumpReports(repo: Repo, job: Job, today: string, report: Report)
    requires CanStart(repo, job) && |BumpPrs(job.server, OpenPrs(repo.prs))| == 1
    requires report in {ManyBumps, AlreadyProposed, WasClosed, ForeignBranch}
    ensures PlanLand(repo, job, today) == Stop(report) <==> IsTheCase(report, repo, job)
  {
    var p := TheBump(repo, job, today);
    assert IsOnlyBump(repo, job.server, p.head) <==> ByApp(p);
    if ByApp(p) && p.head in repo.branches {
      PlanFromWrites(repo.main, job, today, p.head, repo.branches[p.head].docs, [], true);
    }
  }

  lemma ProposalReports(repo: Repo, job: Job, today: string, report: Report)
    requires HasNoBump(repo, job.server) && report in {ManyBumps, AlreadyProposed, WasClosed, ForeignBranch}
    ensures PlanProposal(repo, job, today) == Stop(report) <==> IsTheCase(report, repo, job)
  {
    assert OnlyMerged(repo, job.branch) <==> !SomePr(repo, job.branch, Open) && !SomePr(repo, job.branch, Closed);
    if IsFreeProposal(repo, job, job.branch) {
      var setup := FreeProposalPlan(repo, job, today);
      PlanFromWrites(repo.main, job, today, job.branch, ProposalDocs(repo, job.branch), setup, false);
      FreeIsNotForeign(repo, job);
    } else {
      TakenProposalStops(repo, job, today);
    }
  }

  lemma FreeIsNotForeign(repo: Repo, job: Job)
    ensures IsFreeProposal(repo, job, job.branch) <==>
      HasNoBump(repo, job.server) && OnlyMerged(repo, job.branch) && !IsLeftToAPerson(repo, job)
  {
    if job.branch in repo.branches {
      ForeignExactly(repo.branches[job.branch]);
    }
  }

  /** What a run reads of a branch before it decides. */
  predicate CanDecide(main: Docs, docs: Docs, server: string) {
    && CatalogueFile in main && BaselineFile in main && AllowlistFile(server) in docs
    && CatalogueFile in docs && docs[CatalogueFile].canonical && BaselineFile in docs && docs[BaselineFile].canonical
  }

  /** A refusal is handed on as it is. */
  lemma RefusalIsReported(
    main: Docs, job: Job, today: string, branch: string, docs: Docs, setup: seq<Op>, hasPr: bool, reason: Reason)
    ensures PlanFrom(main, job, today, branch, docs, setup, hasPr) == Stop(NeedsDecision(reason)) <==>
      CanDecide(main, docs, job.server)
      && Decide(job.server, job.live,
                Inputs(docs[CatalogueFile].doc, docs[BaselineFile].doc, docs[AllowlistFile(job.server)].doc,
                       main[BaselineFile].doc, main[CatalogueFile].doc), today) == Refusal(reason)
  {
  }

  /** The report of a write says whether a file was among the writes. */
  lemma OutcomeIsReported(main: Docs, job: Job, today: string, branch: string, docs: Docs, setup: seq<Op>, hasPr: bool)
    requires forall op :: op in setup ==> !op.PutFile?
    ensures var plan := PlanFrom(main, job, today, branch, docs, setup, hasPr);
      plan.Write? ==> plan.report == Landed(exists op :: op in plan.ops && op.PutFile?)
  {
    PlanFromWrites(main, job, today, branch, docs, setup, hasPr);
    if IsDecided(main, job, docs, today) {
      var change := Decide(job.server, job.live,
                           Inputs(docs[CatalogueFile].doc, docs[BaselineFile].doc, docs[AllowlistFile(job.server)].doc,
                                  main[BaselineFile].doc, main[CatalogueFile].doc), today);
      PlanIsFinish(main, job, today, branch, docs, setup, hasPr, change);
      WrittenIsReported(branch, docs, setup, change, hasPr);
    }
  }

  lemma PlanIsFinish(
    main: Docs, job: Job, today: string, branch: string, docs: Docs, setup: seq<Op>, hasPr: bool, change: Outcome)
    requires CanDecide(main, docs, job.server) && change.Change?
    requires change == Decide(job.server, job.live,
                              Inputs(docs[CatalogueFile].doc, docs[BaselineFile].doc, docs[AllowlistFile(job.server)].doc,
                                     main[BaselineFile].doc, main[CatalogueFile].doc), today)
    ensures PlanFrom(main, job, today, branch, docs, setup, hasPr) == Finish(branch, docs, setup, change, hasPr)
  {
  }

  lemma WrittenIsReported(branch: string, docs: Docs, setup: seq<Op>, change: Outcome, hasPr: bool)
    requires change.Change? && CatalogueFile in docs && BaselineFile in docs
    requires forall op :: op in setup ==> !op.PutFile?
    ensures var plan := Finish(branch, docs, setup, change, hasPr);
      plan.report == Landed(exists op :: op in plan.ops && op.PutFile?)
  {
    var puts := Puts(branch, docs, change);
    if puts != [] {
      assert puts[0].PutFile? && puts[0] in Finish(branch, docs, setup, change, hasPr).ops;
    }
  }

  /** A server that is mapped but not vendored is left to a person. */
  lemma NotVendoredExactly(repo: Repo, job: Job, today: string)
    ensures PlanLand(repo, job, today) == Stop(NotVendored) <==>
      IsServer(job.server) && IsLive(job.live) && Vendored(repo.main, job.server) == Some(false)
  {
    ServerExactly(job.server);
    LiveExactly(job.live);
    if Vendored(repo.main, job.server) == Some(true) {
      VendoredRunsOn(repo, job, today);
    }
  }

  lemma VendoredRunsOn(repo: Repo, job: Job, today: string)
    requires Vendored(repo.main, job.server) == Some(true)
    ensures PlanLand(repo, job, today) != Stop(NotVendored)
  {
    var bumps := BumpPrs(job.server, OpenPrs(repo.prs));
    if !GetsToTheBranch(repo, job) {
      NotStarted(repo, job, today);
    } else if |bumps| > 1 {
      PlanWithBumps(repo, job, today);
    } else if |bumps| == 1 {
      BumpPlanIs(repo, job, today, bumps[0]);
      if bumps[0].head in repo.branches {
        PlanFromWrites(repo.main, job, today, bumps[0].head, repo.branches[bumps[0].head].docs, [], true);
      }
    } else {
      PlanWithoutBump(repo, job, today);
      ProposalIsOfAVendored(repo, job, today);
    }
  }

  lemma NotStarted(repo: Repo, job: Job, today: string)
    requires Vendored(repo.main, job.server) == Some(true) && !GetsToTheBranch(repo, job)
    ensures PlanLand(repo, job, today) == Stop(StateUnknown)
  {
  }

  lemma ProposalIsOfAVendored(repo: Repo, job: Job, today: string)
    requires BumpPrs(job.server, OpenPrs(repo.prs)) == []
    ensures PlanProposal(repo, job, today) != Stop(NotVendored)
  {
    NoneIsFiltered(repo, job.server);
    if IsFreeProposal(repo, job, job.branch) {
      var setup := FreeProposalPlan(repo, job, today);
      PlanFromWrites(repo.main, job, today, job.branch, ProposalDocs(repo, job.branch), setup, false);
    } else {
      TakenProposalStops(repo, job, today);
    }
  }

  /**
   Whatever happened to the repository since the run read it, a write that goes through takes
   nothing from anybody: no branch, no commit, no newer content, and no second open PR.
   */
  lemma WritesAreSafe(later: Repo, op: Op)
    requires Apply(later, op).Some?
    ensures match op
            case CreateBranch(branch) => branch !in later.branches
            case FastForward(branch) => branch in later.branches && later.branches[branch].commits == []
            case PutFile(branch, path, expected, _) =>
              branch in later.branches && path in later.branches[branch].docs && later.branches[branch].docs[path] == expected
            case OpenPr(branch) =>
              branch in later.branches && later.branches[branch].commits != [] && !SomePr(later, branch, Open)
  {
  }
}

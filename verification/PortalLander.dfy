/**
 The writing half of scripts/portal-catalogue-land.py: a decision about one server is
 turned into a few ordered writes to a repository on GitHub, any of which may be the last
 one before the process dies. The next run has to continue from whatever it left behind.
 */
module PortalLander {
  import opened Wrappers
  import opened JsonDocs
  import opened PortalDecision
  import opened Seqs

  // ---------------------------------------------------------------- the repository

  datatype Path = CatalogueFile | BaselineFile | MappingFile | AllowlistFile(server: string) | OtherFile(name: string)

  // A JSON file. canonical: writing the document back would give the same text.
  datatype File = File(doc: Json, canonical: bool)

  type Docs = map<Path, File>

  // One change that the commits ahead of main make to a file.
  datatype FileChange = FileChange(path: Path, modified: bool)

  // commits: those ahead of main, true when the App made and signed it.
  datatype Branch = Branch(docs: Docs, commits: seq<bool>, changes: seq<FileChange>)

  datatype PrState = Open | Closed | Merged

  datatype Pr = Pr(head: string, state: PrState, byApp: bool, fork: bool)

  datatype Repo = Repo(main: Docs, branches: map<string, Branch>, prs: seq<Pr>)

  const PR_LIMIT: nat := 500

  // ---------------------------------------------------------------- remote writes

  datatype Op =
    | CreateBranch(branch: string)
    | FastForward(branch: string)
    // Replaces the file whose content is `expected`, and nothing else.
    | PutFile(branch: string, path: Path, expected: File, doc: Json)
    | OpenPr(branch: string)

  /** One write, None when GitHub refuses it. */
  function Apply(repo: Repo, op: Op): Option<Repo> {
    match op
    case CreateBranch(branch) =>
      if branch in repo.branches then None
      else Some(repo.(branches := repo.branches[branch := Branch(repo.main, [], [])]))
    case FastForward(branch) =>
      if branch in repo.branches && repo.branches[branch].commits == []
      then Some(repo.(branches := repo.branches[branch := Branch(repo.main, [], [])])) else None
    case PutFile(branch, path, expected, doc) =>
      if branch in repo.branches && path in repo.branches[branch].docs && repo.branches[branch].docs[path] == expected
      then
        var b := repo.branches[branch];
        Some(repo.(branches := repo.branches[branch :=
          Branch(b.docs[path := File(doc, true)], b.commits + [true], b.changes + [FileChange(path, true)])]))
      else None
    case OpenPr(branch) =>
      // Refused for a branch with nothing on it, and for a second open PR.
      if branch in repo.branches && repo.branches[branch].commits != [] && !HasPr(repo, branch, Open)
      then Some(repo.(prs := repo.prs + [Pr(branch, Open, true, false)])) else None
  }

  predicate HasPr(repo: Repo, branch: string, state: PrState) {
    exists i :: 0 <= i < |repo.prs| && repo.prs[i].head == branch && repo.prs[i].state == state
  }

  /** The writes in order, until one is refused or the process dies after `budget` of them. */
  function Exec(repo: Repo, ops: seq<Op>, budget: nat): Repo
    decreases |ops|
  {
    if ops == [] || budget == 0 then repo
    else match Apply(repo, ops[0])
      case None => repo
      case Some(next) => Exec(next, ops[1..], budget - 1)
  }

  lemma ExecStep(repo: Repo, op: Op, rest: seq<Op>, budget: nat)
    ensures Exec(repo, [op] + rest, budget)
         == if budget > 0 && Apply(repo, op).Some? then Exec(Apply(repo, op).value, rest, budget - 1) else repo
  {
    assert ([op] + rest)[1..] == rest;
  }

  // ---------------------------------------------------------------- what a run decides to write

  datatype Report =
    | NotVendored
    | ManyBumps
    | AlreadyProposed
    | WasClosed
    | ForeignBranch
    | NeedsDecision(reason: Reason)
    | Landed(wrote: bool)
    | StateUnknown

  datatype Plan = Stop(report: Report) | Write(ops: seq<Op>, report: Report)

  predicate IsServerChar(c: char, first: bool) {
    'a' <= c <= 'z' || '0' <= c <= '9' || (c == '-' && !first)
  }

  /** SERVER_RE */
  predicate IsServerId(server: string) {
    1 <= |server| <= 63 && forall i :: 0 <= i < |server| ==> IsServerChar(server[i], i == 0)
  }

  predicate IsHex(c: char) {
    '0' <= c <= '9' || 'a' <= c <= 'f'
  }

  /** portal-allowlist/<server>-<seven hex digits> */
  predicate IsBumpBranch(server: string, head: string) {
    var prefix := "portal-allowlist/" + server + "-";
    prefix <= head && |head| == |prefix| + 7 && forall i :: |prefix| <= i < |head| ==> IsHex(head[i])
  }

  function ProposalBranch(server: string, digest: string): string {
    "portal-catalogue/" + server + "-" + digest
  }

  /** A proposal branch is never taken for a bump branch. */
  lemma ProposalIsNoBump(server: string, digest: string)
    ensures !IsBumpBranch(server, ProposalBranch(server, digest))
  {
    var prefix := "portal-allowlist/" + server + "-";
    assert prefix[7] == 'a' && ProposalBranch(server, digest)[7] == 'c';
  }

  /** The mapping's vendored switch of the server; None when the mapping cannot be read. */
  function Vendored(main: Docs, server: string): Option<bool> {
    if MappingFile !in main || !main[MappingFile].doc.Obj? then None
    else match Get(main[MappingFile].doc, "servers")
      case None => Some(false)
      case Some(Obj(servers)) =>
        if server !in servers || !Truthy(servers[server]) then Some(false)
        else if !servers[server].Obj? then None
        else Some(Get(servers[server], "vendored").Some? && Truthy(Get(servers[server], "vendored").value))
      case _ => None
  }

  function OpenPrs(prs: seq<Pr>): (r: seq<Pr>)
    ensures forall p :: p in r <==> p in prs && p.state.Open?
  {
    if prs == [] then [] else (if prs[0].state.Open? then [prs[0]] else []) + OpenPrs(prs[1..])
  }

  function BumpPrs(server: string, prs: seq<Pr>): (r: seq<Pr>)
    ensures forall p :: p in r <==> p in prs && IsBumpBranch(server, p.head)
  {
    if prs == [] then [] else (if IsBumpBranch(server, prs[0].head) then [prs[0]] else []) + BumpPrs(server, prs[1..])
  }

  predicate ByApp(p: Pr) {
    !p.fork && p.byApp
  }

  /** leftover_problem: only catalogue.json and baseline.json modified, only by the App. */
  predicate IsOwnWork(b: Branch) {
    && (forall i :: 0 <= i < |b.changes| ==>
          (b.changes[i].path.CatalogueFile? || b.changes[i].path.BaselineFile?) && b.changes[i].modified)
    && (forall i :: 0 <= i < |b.commits| ==> b.commits[i])
  }

  /** read(..., rewrite=True) */
  predicate Rewritable(docs: Docs, path: Path) {
    path in docs && docs[path].canonical
  }

  /** write_change, then the PR when there is none yet. */
  function Finish(branch: string, docs: Docs, setup: seq<Op>, change: Outcome, hasPr: bool): Plan
    requires change.Change? && CatalogueFile in docs && BaselineFile in docs
  {
    var puts := Puts(branch, docs, change);
    Write(setup + puts + (if hasPr then [] else [OpenPr(branch)]), Landed(puts != []))
  }

  function Puts(branch: string, docs: Docs, change: Outcome): seq<Op>
    requires change.Change? && CatalogueFile in docs && BaselineFile in docs
  {
    PutCatalogue(branch, docs, change.catalogue) + PutBaseline(branch, docs, change)
  }

  function PutBaseline(branch: string, docs: Docs, change: Outcome): seq<Op>
    requires change.Change? && BaselineFile in docs
  {
    if change.baselineChanged then [PutFile(branch, BaselineFile, docs[BaselineFile], change.baseline)] else []
  }

  function PutCatalogue(branch: string, docs: Docs, catalogue: Json): seq<Op>
    requires CatalogueFile in docs
  {
    if catalogue != docs[CatalogueFile].doc
    then [PutFile(branch, CatalogueFile, docs[CatalogueFile], catalogue)] else []
  }

  // What a run is started with, and the branch it proposes on when no bump PR is open.
  datatype Job = Job(server: string, live: Json, branch: string)

  /** digest: the first seven hex digits of the SHA-256 of the live list. */
  function JobOf(server: string, live: Json, digest: string): Job {
    Job(server, live, ProposalBranch(server, digest))
  }

  /** From the documents of the chosen commit to the decision and its writes. */
  function PlanFrom(main: Docs, job: Job, today: string, branch: string, docs: Docs, setup: seq<Op>, hasPr: bool): Plan {
    if !(CatalogueFile in main && BaselineFile in main) then Stop(StateUnknown)
    else if !(Rewritable(docs, CatalogueFile) && Rewritable(docs, BaselineFile) && AllowlistFile(job.server) in docs)
    then Stop(StateUnknown)
    else
      var inputs := Inputs(docs[CatalogueFile].doc, docs[BaselineFile].doc, docs[AllowlistFile(job.server)].doc,
                           main[BaselineFile].doc, main[CatalogueFile].doc);
      match Decide(job.server, job.live, inputs, today)
      case Unknown => Stop(StateUnknown)
      case Refusal(reason) => Stop(NeedsDecision(reason))
      case Change(c, b, added, gone, changed) => Finish(branch, docs, setup, Change(c, b, added, gone, changed), hasPr)
  }

  /** The proposal branch of its own, when no bump PR is open. */
  function PlanProposal(repo: Repo, job: Job, today: string): Plan {
    var branch := job.branch;
    if HasPr(repo, branch, Open) then Stop(AlreadyProposed)
    else if HasPr(repo, branch, Closed) then Stop(WasClosed)
    else if branch !in repo.branches then
      PlanFrom(repo.main, job, today, branch, repo.main, [CreateBranch(branch)], false)
    else
      var b := repo.branches[branch];
      if !IsOwnWork(b) then Stop(ForeignBranch)
      // behind or identical: everything on it is in main already
      else if b.commits == [] then PlanFrom(repo.main, job, today, branch, repo.main, [FastForward(branch)], false)
      else PlanFrom(repo.main, job, today, branch, b.docs, [], false)
  }

  /** land(), up to its first write. */
  function PlanLand(repo: Repo, job: Job, today: string): Plan {
    if !IsServerId(job.server) || !IsLiveList(job.live) then Stop(StateUnknown)
    else
      var vendored := Vendored(repo.main, job.server);
      var open := OpenPrs(repo.prs);
      var bumps := BumpPrs(job.server, open);
      if vendored.None? then Stop(StateUnknown)
      else if !vendored.value then Stop(NotVendored)
      else if !(BaselineFile in repo.main && CatalogueFile in repo.main) || |open| >= PR_LIMIT then Stop(StateUnknown)
      else if (exists p :: p in bumps && !ByApp(p)) || |bumps| > 1 then Stop(ManyBumps)
      else if |bumps| == 1 then
        if bumps[0].head !in repo.branches then Stop(StateUnknown)
        else PlanFrom(repo.main, job, today, bumps[0].head, repo.branches[bumps[0].head].docs, [], true)
      else PlanProposal(repo, job, today)
  }

  function OpsOf(plan: Plan): seq<Op> {
    if plan.Write? then plan.ops else []
  }

  /** The repository after a run that dies after `budget` writes. */
  function RunLand(repo: Repo, job: Job, today: string, budget: nat): Repo {
    Exec(repo, OpsOf(PlanLand(repo, job, today)), budget)
  }

  // ---------------------------------------------------------------- the run itself

  /** The repository as the script talks to it, and how many writes are left before it is killed. */
  class Gh {
    var repo: Repo
    var budget: nat

    constructor (repo: Repo, budget: nat)
      ensures this.repo == repo && this.budget == budget
    {
      this.repo, this.budget := repo, budget;
    }

    /** One write. False ends the run: GitHub refused, or the process is gone. */
    method Do(op: Op) returns (ok: bool)
      modifies this
      ensures ok <==> old(budget) > 0 && Apply(old(repo), op).Some?
      ensures ok ==> repo == Apply(old(repo), op).value && budget == old(budget) - 1
      ensures !ok ==> repo == old(repo)
    {
      if budget == 0 {
        return false;
      }
      var next := Apply(repo, op);
      if next.None? {
        return false;
      }
      repo, budget, ok := next.value, budget - 1, true;
    }
  }

  /** One write, when there is one to make. */
  method DoIfAny(gh: Gh, ops: seq<Op>, ghost rest: seq<Op>) returns (ok: bool)
    requires |ops| <= 1
    modifies gh
    ensures Exec(old(gh.repo), ops + rest, old(gh.budget)) == (if ok then Exec(gh.repo, rest, gh.budget) else gh.repo)
  {
    if ops == [] {
      NothingAdded(rest);
      ok := true;
    } else {
      assert ops == [ops[0]];
      ExecStep(gh.repo, ops[0], rest, gh.budget);
      ok := gh.Do(ops[0]);
    }
  }

  /** write_change: the catalogue first, then the baseline, each only when it differs. */
  method WriteChange(gh: Gh, change: Outcome, branch: string, docs: Docs, ghost rest: seq<Op>)
    returns (ok: bool, wrote: bool)
    requires change.Change? && CatalogueFile in docs && BaselineFile in docs
    modifies gh
    ensures var puts := Puts(branch, docs, change);
      && (wrote <==> puts != [])
      && Exec(old(gh.repo), puts + rest, old(gh.budget)) == (if ok then Exec(gh.repo, rest, gh.budget) else gh.repo)
  {
    var (first, second) := (PutCatalogue(branch, docs, change.catalogue), PutBaseline(branch, docs, change));
    Regroup(first, second, rest);
    wrote := first != [] || second != [];
    ok := DoIfAny(gh, first, second + rest);
    if ok {
      ok := DoIfAny(gh, second, rest);
    }
  }

  /** The writes of one run, in land()'s order: the branch, the files, the PR. */
  method WriteAll(gh: Gh, change: Outcome, branch: string, docs: Docs, setup: Option<Op>, hasPr: bool)
    returns (report: Report)
    requires change.Change? && CatalogueFile in docs && BaselineFile in docs
    modifies gh
    ensures var plan := Finish(branch, docs, if setup.Some? then [setup.value] else [], change, hasPr);
      && gh.repo == Exec(old(gh.repo), plan.ops, old(gh.budget))
      && (report == plan.report || report == StateUnknown)
  {
    var puts := Puts(branch, docs, change);
    var first, last := if setup.Some? then [setup.value] else [], if hasPr then [] else [OpenPr(branch)];
    Regroup(first, puts, last);
    var ok := DoIfAny(gh, first, puts + last);
    if !ok {
      return StateUnknown;
    }
    var wrote: bool;
    ok, wrote := WriteChange(gh, change, branch, docs, last);
    if !ok {
      return StateUnknown;
    }
    NothingAdded(last);
    ok := DoIfAny(gh, last, []);
    report := if ok then Landed(wrote) else StateUnknown;
  }

  /** From the chosen commit's documents on. */
  method LandOn(gh: Gh, main: Docs, job: Job, today: string, branch: string, docs: Docs, setup: Option<Op>, hasPr: bool)
    returns (report: Report)
    modifies gh
    ensures var plan := PlanFrom(main, job, today, branch, docs, if setup.Some? then [setup.value] else [], hasPr);
      && gh.repo == Exec(old(gh.repo), OpsOf(plan), old(gh.budget))
      && (report == plan.report || (plan.Write? && report == StateUnknown))
  {
    if !(CatalogueFile in main && BaselineFile in main) {
      return StateUnknown;
    }
    if !(Rewritable(docs, CatalogueFile) && Rewritable(docs, BaselineFile) && AllowlistFile(job.server) in docs) {
      return StateUnknown;
    }
    var inputs := Inputs(docs[CatalogueFile].doc, docs[BaselineFile].doc, docs[AllowlistFile(job.server)].doc,
                         main[BaselineFile].doc, main[CatalogueFile].doc);
    var outcome := Decide(job.server, job.live, inputs, today);
    match outcome
    case Unknown => report := StateUnknown;
    case Refusal(reason) => report := NeedsDecision(reason);
    case Change(_, _, _, _, _) => report := WriteAll(gh, outcome, branch, docs, setup, hasPr);
  }

  // ---------------------------------------------------------------- whose branch it is

  /** An open PR whose head is portal-allowlist/<server>-<seven hex digits>. */
  ghost predicate IsOpenBump(p: Pr, server: string) {
    p.state == Open
    && exists hex: string :: |hex| == 7 && (forall i :: 0 <= i < 7 ==> hex[i] in "0123456789abcdef")
                             && p.head == "portal-allowlist/" + server + "-" + hex
  }

  /** The one open bump PR, opened by the App from a branch of this repository. */
  ghost predicate IsOnlyBump(repo: Repo, server: string, branch: string) {
    exists i :: 0 <= i < |repo.prs| && IsOpenBump(repo.prs[i], server) && repo.prs[i].head == branch
                && repo.prs[i].byApp && !repo.prs[i].fork
                && forall j :: 0 <= j < |repo.prs| && IsOpenBump(repo.prs[j], server) ==> j == i
  }

  ghost predicate HasNoBump(repo: Repo, server: string) {
    forall i :: 0 <= i < |repo.prs| ==> !IsOpenBump(repo.prs[i], server)
  }

  /** Every PR from the branch was merged. */
  predicate OnlyMerged(repo: Repo, branch: string) {
    forall i :: 0 <= i < |repo.prs| && repo.prs[i].head == branch ==> repo.prs[i].state == Merged
  }

  /** Somebody else's: a commit the App did not make and sign, or a change that is not to one of the two files. */
  predicate IsForeign(b: Branch) {
    || (exists i :: 0 <= i < |b.commits| && !b.commits[i])
    || (exists i :: 0 <= i < |b.changes| && (!b.changes[i].modified || b.changes[i].path !in {CatalogueFile, BaselineFile}))
  }

  /** The proposal branch: no bump PR is open, nobody closed or holds a proposal, and nobody else worked on it. */
  ghost predicate IsFreeProposal(repo: Repo, job: Job, branch: string) {
    && branch == job.branch && HasNoBump(repo, job.server) && OnlyMerged(repo, branch)
    && (branch in repo.branches ==>
          && (forall i :: 0 <= i < |repo.branches[branch].commits| ==> repo.branches[branch].commits[i])
          && (forall i :: 0 <= i < |repo.branches[branch].changes| ==>
                repo.branches[branch].changes[i] in {FileChange(CatalogueFile, true), FileChange(BaselineFile, true)}))
  }

  lemma ForeignIsNotOwn(b: Branch)
    ensures IsForeign(b) <==> !IsOwnWork(b)
  {
  }

  lemma HexDigit(c: char)
    ensures IsHex(c) <==> c in "0123456789abcdef"
  {
    var digits := "0123456789abcdef";
    if '0' <= c <= '9' {
      assert digits[c as int - '0' as int] == c;
    }
    if 'a' <= c <= 'f' {
      assert digits[10 + c as int - 'a' as int] == c;
    }
  }

  lemma BumpBranchExactly(server: string, head: string)
    ensures IsBumpBranch(server, head) <==>
      exists hex: string :: |hex| == 7 && (forall i :: 0 <= i < 7 ==> hex[i] in "0123456789abcdef")
                            && head == "portal-allowlist/" + server + "-" + hex
  {
    var prefix := "portal-allowlist/" + server + "-";
    forall c ensures IsHex(c) <==> c in "0123456789abcdef" {
      HexDigit(c);
    }
    if IsBumpBranch(server, head) {
      var hex := head[|prefix|..];
      AfterPrefix(prefix, head);
      assert |hex| == 7 && forall i :: 0 <= i < 7 ==> hex[i] == head[|prefix| + i] && hex[i] in "0123456789abcdef";
    }
    if hex: string :| |hex| == 7 && (forall i :: 0 <= i < 7 ==> hex[i] in "0123456789abcdef")
                      && head == "portal-allowlist/" + server + "-" + hex {
      AfterFirst(prefix, hex);
      assert forall i :: |prefix| <= i < |head| ==> head[i] == hex[i - |prefix|];
    }
  }

  lemma OpenBumpExactly(p: Pr, server: string)
    ensures IsOpenBump(p, server) <==> p.state.Open? && IsBumpBranch(server, p.head)
  {
    BumpBranchExactly(server, p.head);
  }

  /** The open bump PRs, in order. */
  lemma {:induction false} OpenBumpsStep(prs: seq<Pr>, server: string)
    requires prs != []
    ensures BumpPrs(server, OpenPrs(prs))
         == (if IsOpenBump(prs[0], server) then [prs[0]] else []) + BumpPrs(server, OpenPrs(prs[1..]))
  {
    OpenBumpExactly(prs[0], server);
    var rest := OpenPrs(prs[1..]);
    if prs[0].state.Open? {
      AfterFirst([prs[0]], rest);
      assert OpenPrs(prs) == [prs[0]] + rest && ([prs[0]] + rest)[1..] == rest;
    } else {
      NothingAdded(rest);
    }
    NothingAdded(BumpPrs(server, rest));
  }

  lemma {:induction false} NoBumpExactly(prs: seq<Pr>, server: string)
    ensures BumpPrs(server, OpenPrs(prs)) == [] <==> forall i :: 0 <= i < |prs| ==> !IsOpenBump(prs[i], server)
  {
    if prs != [] {
      OpenBumpsStep(prs, server);
      NoBumpExactly(prs[1..], server);
      assert forall i :: 0 < i < |prs| ==> prs[i] == prs[1..][i - 1];
    }
  }

  /** The only one, where it stands. */
  ghost predicate IsTheBump(prs: seq<Pr>, server: string, i: nat) {
    i < |prs| && IsOpenBump(prs[i], server) && forall j :: 0 <= j < |prs| && IsOpenBump(prs[j], server) ==> j == i
  }

  lemma {:induction false} OneBumpStands(prs: seq<Pr>, server: string) returns (i: nat)
    requires |BumpPrs(server, OpenPrs(prs))| == 1
    ensures IsTheBump(prs, server, i) && BumpPrs(server, OpenPrs(prs)) == [prs[i]]
  {
    OpenBumpsStep(prs, server);
    if IsOpenBump(prs[0], server) {
      NoBumpExactly(prs[1..], server);
      FirstIsTheBump(prs, server);
      i := 0;
    } else {
      var k := OneBumpStands(prs[1..], server);
      LaterIsTheBump(prs, server, k);
      i := k + 1;
    }
  }

  lemma FirstIsTheBump(prs: seq<Pr>, server: string)
    requires prs != [] && IsOpenBump(prs[0], server)
    requires forall j :: 0 <= j < |prs| - 1 ==> !IsOpenBump(prs[1..][j], server)
    ensures IsTheBump(prs, server, 0)
  {
    forall j | 0 < j < |prs| ensures !IsOpenBump(prs[j], server) {
      assert prs[j] == prs[1..][j - 1];
    }
  }

  lemma LaterIsTheBump(prs: seq<Pr>, server: string, k: nat)
    requires prs != [] && !IsOpenBump(prs[0], server) && IsTheBump(prs[1..], server, k)
    ensures IsTheBump(prs, server, k + 1)
  {
    assert prs[k + 1] == prs[1..][k];
    forall j | 0 <= j < |prs| && IsOpenBump(prs[j], server) ensures j == k + 1 {
      assert j > 0 ==> prs[j] == prs[1..][j - 1];
    }
  }

  lemma {:induction false} TheBumpIsFound(prs: seq<Pr>, server: string, i: nat)
    requires IsTheBump(prs, server, i)
    ensures BumpPrs(server, OpenPrs(prs)) == [prs[i]]
  {
    OpenBumpsStep(prs, server);
    assert forall j :: 0 < j < |prs| ==> prs[j] == prs[1..][j - 1];
    if i == 0 {
      NoBumpExactly(prs[1..], server);
    } else {
      TheBumpIsFound(prs[1..], server, i - 1);
    }
  }

  /** The branch's documents if something of its own is on it, else main's. */
  function ProposalDocs(repo: Repo, branch: string): Docs {
    if branch in repo.branches && repo.branches[branch].commits != [] then repo.branches[branch].docs else repo.main
  }

  lemma ForeignExactly(b: Branch)
    ensures IsForeign(b) <==>
      !((forall i :: 0 <= i < |b.commits| ==> b.commits[i])
        && (forall i :: 0 <= i < |b.changes| ==>
              b.changes[i] in {FileChange(CatalogueFile, true), FileChange(BaselineFile, true)}))
  {
  }

  lemma MergedExactly(repo: Repo, branch: string)
    ensures OnlyMerged(repo, branch) <==> !HasPr(repo, branch, Open) && !HasPr(repo, branch, Closed)
  {
    if OnlyMerged(repo, branch) {
      if i :| 0 <= i < |repo.prs| && repo.prs[i].head == branch && (repo.prs[i].state == Open || repo.prs[i].state == Closed) {
        assert false;
      }
    }
  }

  /** What is planned on a free proposal branch. */
  lemma FreeProposalPlan(repo: Repo, job: Job, today: string) returns (setup: seq<Op>)
    requires IsFreeProposal(repo, job, job.branch)
    ensures forall op :: op in setup ==> BranchOf(op) == job.branch && !op.PutFile?
    ensures PlanProposal(repo, job, today)
         == PlanFrom(repo.main, job, today, job.branch, ProposalDocs(repo, job.branch), setup, false)
  {
    var branch := job.branch;
    MergedExactly(repo, branch);
    if branch !in repo.branches {
      setup := [CreateBranch(branch)];
    } else {
      ForeignExactly(repo.branches[branch]);
      ForeignIsNotOwn(repo.branches[branch]);
      setup := if repo.branches[branch].commits == [] then [FastForward(branch)] else [];
    }
  }

  lemma TakenProposalStops(repo: Repo, job: Job, today: string)
    requires HasNoBump(repo, job.server) && !IsFreeProposal(repo, job, job.branch)
    ensures PlanProposal(repo, job, today)
         == Stop(if HasPr(repo, job.branch, Open) then AlreadyProposed
                 else if HasPr(repo, job.branch, Closed) then WasClosed else ForeignBranch)
    ensures !HasPr(repo, job.branch, Open) && !HasPr(repo, job.branch, Closed) ==>
              job.branch in repo.branches && IsForeign(repo.branches[job.branch])
  {
    MergedExactly(repo, job.branch);
    if job.branch in repo.branches {
      ForeignExactly(repo.branches[job.branch]);
      ForeignIsNotOwn(repo.branches[job.branch]);
    }
  }

  /** The run gets as far as looking at the proposal branch. */
  ghost predicate GetsToTheBranch(repo: Repo, job: Job) {
    && IsServerId(job.server) && IsLiveList(job.live) && Vendored(repo.main, job.server) == Some(true)
    && BaselineFile in repo.main && CatalogueFile in repo.main && |OpenPrs(repo.prs)| < PR_LIMIT
  }

  /** No PR of any kind is in the way, but somebody else worked on the proposal branch. */
  ghost predicate IsLeftToAPerson(repo: Repo, job: Job) {
    && HasNoBump(repo, job.server) && OnlyMerged(repo, job.branch)
    && job.branch in repo.branches && IsForeign(repo.branches[job.branch])
  }

  lemma ForeignIsLeftAlone(repo: Repo, job: Job, today: string, budget: nat)
    requires IsLeftToAPerson(repo, job)
    ensures RunLand(repo, job, today, budget) == repo && PlanLand(repo, job, today).Stop?
    ensures GetsToTheBranch(repo, job) ==> PlanLand(repo, job, today).report == ForeignBranch
  {
    NoBumpExactly(repo.prs, job.server);
    MergedExactly(repo, job.branch);
    ForeignExactly(repo.branches[job.branch]);
    TakenProposalStops(repo, job, today);
  }

  /** The part of land() without a bump PR. */
  method LandProposal(gh: Gh, job: Job, today: string) returns (report: Report)
    modifies gh
    ensures var plan := PlanProposal(old(gh.repo), job, today);
      && gh.repo == Exec(old(gh.repo), OpsOf(plan), old(gh.budget))
      && (report == plan.report || (plan.Write? && report == StateUnknown))
  {
    var main := gh.repo.main;
    var branch := job.branch;
    if HasPr(gh.repo, branch, Open) {
      return AlreadyProposed;
    }
    if HasPr(gh.repo, branch, Closed) {
      return WasClosed;
    }
    if branch !in gh.repo.branches {
      report := LandOn(gh, main, job, today, branch, main, Some(CreateBranch(branch)), false);
      return;
    }
    var b := gh.repo.branches[branch];
    if !IsOwnWork(b) {
      return ForeignBranch;
    }
    if b.commits == [] {
      report := LandOn(gh, main, job, today, branch, main, Some(FastForward(branch)), false);
    } else {
      report := LandOn(gh, main, job, today, branch, b.docs, None, false);
    }
  }

  /** land(): one server's run against the repository. */
  method Land(gh: Gh, job: Job, today: string) returns (report: Report)
    modifies gh
    ensures gh.repo == RunLand(old(gh.repo), job, today, old(gh.budget))
    ensures var plan := PlanLand(old(gh.repo), job, today);
      report == plan.report || (plan.Write? && report == StateUnknown)
    ensures IsLeftToAPerson(old(gh.repo), job) ==>
              gh.repo == old(gh.repo) && (GetsToTheBranch(old(gh.repo), job) ==> report == ForeignBranch)
  {
    if IsLeftToAPerson(gh.repo, job) {
      ForeignIsLeftAlone(gh.repo, job, today, gh.budget);
    }
    if !IsServerId(job.server) || !IsLiveList(job.live) {
      return StateUnknown;
    }
    var main := gh.repo.main;
    var vendored := Vendored(main, job.server);
    if vendored.None? {
      return StateUnknown;
    }
    if !vendored.value {
      return NotVendored;
    }
    if !(BaselineFile in main && CatalogueFile in main) {
      return StateUnknown;
    }
    var open := OpenPrs(gh.repo.prs);
    if |open| >= PR_LIMIT {
      return StateUnknown;
    }
    var bumps := BumpPrs(job.server, open);
    if (exists p :: p in bumps && !ByApp(p)) || |bumps| > 1 {
      return ManyBumps;
    }
    if |bumps| == 1 {
      var branch := bumps[0].head;
      if branch !in gh.repo.branches {
        return StateUnknown;
      }
      report := LandOn(gh, main, job, today, branch, gh.repo.branches[branch].docs, None, true);
      return;
    }
    report := LandProposal(gh, job, today);
  }

  /** A write of the run replaces a file of the branch that the decision read, as it read it. */
  predicate ReplacesWhatWasRead(op: Op, branch: string, docs: Docs) {
    op.PutFile? ==>
      op.branch == branch && (op.path.CatalogueFile? || op.path.BaselineFile?)
      && op.path in docs && op.expected == docs[op.path]
  }

  lemma FinishReplacesWhatWasRead(branch: string, docs: Docs, setup: seq<Op>, change: Outcome, hasPr: bool, op: Op)
    requires change.Change? && CatalogueFile in docs && BaselineFile in docs
    requires (forall o :: o in setup ==> !o.PutFile?) && op in OpsOf(Finish(branch, docs, setup, change, hasPr))
    ensures ReplacesWhatWasRead(op, branch, docs)
  {
  }

  /**
   Compare-and-swap: whatever happened to the repository in the meantime, a write of this
   run that succeeds replaces exactly the content its decision read, and no other file.
   */
  lemma PutsReplaceWhatWasRead(
    main: Docs, job: Job, today: string, branch: string, docs: Docs, setup: seq<Op>, hasPr: bool, op: Op, later: Repo)
    requires op in OpsOf(PlanFrom(main, job, today, branch, docs, setup, hasPr))
    requires op.PutFile? && (forall o :: o in setup ==> !o.PutFile?) && Apply(later, op).Some?
    ensures op.branch == branch && (op.path.CatalogueFile? || op.path.BaselineFile?) && op.path in docs
    ensures later.branches[branch].docs[op.path] == docs[op.path]
    ensures Apply(later, op).value.branches[branch].docs == later.branches[branch].docs[op.path := File(op.doc, true)]
  {
    PlanReplacesWhatWasRead(main, job, today, branch, docs, setup, hasPr, op);
    PutReplaces(later, op);
  }

  lemma PutReplaces(repo: Repo, op: Op)
    requires op.PutFile? && Apply(repo, op).Some?
    ensures op.branch in repo.branches && op.path in repo.branches[op.branch].docs
    ensures repo.branches[op.branch].docs[op.path] == op.expected
    ensures op.branch in Apply(repo, op).value.branches
    ensures Apply(repo, op).value.branches[op.branch].docs == repo.branches[op.branch].docs[op.path := File(op.doc, true)]
  {
  }

  lemma PlanReplacesWhatWasRead(
    main: Docs, job: Job, today: string, branch: string, docs: Docs, setup: seq<Op>, hasPr: bool, op: Op)
    requires op in OpsOf(PlanFrom(main, job, today, branch, docs, setup, hasPr))
    requires forall o :: o in setup ==> !o.PutFile?
    ensures ReplacesWhatWasRead(op, branch, docs)
  {
    var inputs := Inputs(docs[CatalogueFile].doc, docs[BaselineFile].doc, docs[AllowlistFile(job.server)].doc,
                         main[BaselineFile].doc, main[CatalogueFile].doc);
    FinishReplacesWhatWasRead(branch, docs, setup, Decide(job.server, job.live, inputs, today), hasPr, op);
  }

  // ---------------------------------------------------------------- where a run may write

  function BranchOf(op: Op): string {
    op.branch
  }

  /** Nothing but the branch, and pull requests opened from it. */
  predicate TouchesOnly(before: Repo, after: Repo, branch: string) {
    && after.main == before.main
    && after.branches - {branch} == before.branches - {branch}
    && before.prs <= after.prs
    && forall i :: |before.prs| <= i < |after.prs| ==> after.prs[i] == Pr(branch, Open, true, false)
  }

  lemma ApplyTouchesOnly(repo: Repo, op: Op)
    requires Apply(repo, op).Some?
    ensures TouchesOnly(repo, Apply(repo, op).value, BranchOf(op))
  {
    var next := Apply(repo, op).value;
    assert next.branches - {BranchOf(op)} == repo.branches - {BranchOf(op)};
  }

  lemma {:induction false} ExecTouchesOnly(repo: Repo, ops: seq<Op>, budget: nat, branch: string)
    requires forall op :: op in ops ==> BranchOf(op) == branch
    ensures TouchesOnly(repo, Exec(repo, ops, budget), branch)
    decreases |ops|
  {
    if ops != [] && budget > 0 && Apply(repo, ops[0]).Some? {
      var next := Apply(repo, ops[0]).value;
      ApplyTouchesOnly(repo, ops[0]);
      ExecTouchesOnly(next, ops[1..], budget - 1, branch);
      TouchesOnlyTwice(repo, next, Exec(next, ops[1..], budget - 1), branch);
    }
  }

  lemma TouchesOnlyTwice(before: Repo, next: Repo, after: Repo, branch: string)
    requires TouchesOnly(before, next, branch) && TouchesOnly(next, after, branch)
    ensures TouchesOnly(before, after, branch)
  {
    forall i | |before.prs| <= i < |after.prs| ensures after.prs[i] == Pr(branch, Open, true, false) {
      assert i < |next.prs| ==> after.prs[i] == next.prs[i];
    }
  }

  /** The documents a run on the branch reads. */
  ghost function DocsRead(repo: Repo, server: string, branch: string): Docs {
    if branch !in repo.branches || (!IsOnlyBump(repo, server, branch) && repo.branches[branch].commits == [])
    then repo.main else repo.branches[branch].docs
  }

  predicate IsDecided(main: Docs, job: Job, docs: Docs, today: string) {
    && CatalogueFile in main && BaselineFile in main
    && Rewritable(docs, CatalogueFile) && Rewritable(docs, BaselineFile) && AllowlistFile(job.server) in docs
    && Decide(job.server, job.live,
              Inputs(docs[CatalogueFile].doc, docs[BaselineFile].doc, docs[AllowlistFile(job.server)].doc,
                     main[BaselineFile].doc, main[CatalogueFile].doc), today).Change?
  }

  lemma FinishOnBranch(branch: string, docs: Docs, setup: seq<Op>, change: Outcome, hasPr: bool)
    requires change.Change? && CatalogueFile in docs && BaselineFile in docs
    requires forall op :: op in setup ==> BranchOf(op) == branch
    ensures forall op :: op in OpsOf(Finish(branch, docs, setup, change, hasPr)) ==> BranchOf(op) == branch
  {
  }

  lemma PlannedOnBranch(main: Docs, job: Job, today: string, branch: string, docs: Docs, setup: seq<Op>, hasPr: bool)
    requires forall op :: op in setup ==> BranchOf(op) == branch
    ensures var plan := PlanFrom(main, job, today, branch, docs, setup, hasPr);
      && (forall op :: op in OpsOf(plan) ==> BranchOf(op) == branch)
      && (plan.Write? ==> IsDecided(main, job, docs, today))
  {
    if PlanFrom(main, job, today, branch, docs, setup, hasPr).Write? {
      var inputs := Inputs(docs[CatalogueFile].doc, docs[BaselineFile].doc, docs[AllowlistFile(job.server)].doc,
                           main[BaselineFile].doc, main[CatalogueFile].doc);
      FinishOnBranch(branch, docs, setup, Decide(job.server, job.live, inputs, today), hasPr);
    }
  }

  /**
   A run writes for vendored servers only, on the one bump branch of the App or on a
   proposal branch that is free, after a decision on its documents, and touches nothing else.
   */
  lemma WritesAreWarranted(repo: Repo, job: Job, today: string, budget: nat) returns (branch: string)
    ensures var after := RunLand(repo, job, today, budget);
      after != repo ==>
        && Vendored(repo.main, job.server) == Some(true)
        && (IsOnlyBump(repo, job.server, branch) || IsFreeProposal(repo, job, branch))
        && IsDecided(repo.main, job, DocsRead(repo, job.server, branch), today)
        && TouchesOnly(repo, after, branch)
  {
    var (plan, bumps) := (PlanLand(repo, job, today), BumpPrs(job.server, OpenPrs(repo.prs)));
    branch := if |bumps| == 1 then bumps[0].head else job.branch;
    if plan.Write? {
      if |bumps| == 1 {
        BumpPlan(repo, job, today);
      } else {
        ProposalPlan(repo, job, today);
      }
      ExecTouchesOnly(repo, plan.ops, budget, branch);
    }
  }

  lemma BumpPlan(repo: Repo, job: Job, today: string)
    requires PlanLand(repo, job, today).Write? && |BumpPrs(job.server, OpenPrs(repo.prs))| == 1
    ensures var branch := BumpPrs(job.server, OpenPrs(repo.prs))[0].head;
      && Vendored(repo.main, job.server) == Some(true) && IsOnlyBump(repo, job.server, branch)
      && (forall op :: op in PlanLand(repo, job, today).ops ==> BranchOf(op) == branch)
      && IsDecided(repo.main, job, DocsRead(repo, job.server, branch), today)
  {
    var p := BumpPrs(job.server, OpenPrs(repo.prs))[0];
    BumpPlanReads(repo, job, today, p);
    OnlyBumpReads(repo, job.server, p);
    PlannedOnBranch(repo.main, job, today, p.head, repo.branches[p.head].docs, [], true);
  }

  lemma BumpPlanReads(repo: Repo, job: Job, today: string, p: Pr)
    requires PlanLand(repo, job, today).Write? && BumpPrs(job.server, OpenPrs(repo.prs)) == [p]
    ensures Vendored(repo.main, job.server) == Some(true) && p.head in repo.branches && ByApp(p)
    ensures PlanLand(repo, job, today) == PlanFrom(repo.main, job, today, p.head, repo.branches[p.head].docs, [], true)
  {
    assert p in BumpPrs(job.server, OpenPrs(repo.prs));
  }

  lemma OnlyBumpReads(repo: Repo, server: string, p: Pr)
    requires BumpPrs(server, OpenPrs(repo.prs)) == [p] && ByApp(p)
    ensures IsOnlyBump(repo, server, p.head)
  {
    var i := OneBumpStands(repo.prs, server);
  }

  lemma OnlyBumpIsRead(repo: Repo, server: string, branch: string) returns (p: Pr)
    requires IsOnlyBump(repo, server, branch)
    ensures BumpPrs(server, OpenPrs(repo.prs)) == [p] && ByApp(p) && p.head == branch
  {
    var i :| 0 <= i < |repo.prs| && IsOpenBump(repo.prs[i], server) && repo.prs[i].head == branch
             && repo.prs[i].byApp && !repo.prs[i].fork
             && forall j :: 0 <= j < |repo.prs| && IsOpenBump(repo.prs[j], server) ==> j == i;
    TheBumpIsFound(repo.prs, server, i);
    p := repo.prs[i];
  }

  lemma ProposalPlan(repo: Repo, job: Job, today: string)
    requires PlanLand(repo, job, today).Write? && |BumpPrs(job.server, OpenPrs(repo.prs))| != 1
    ensures && Vendored(repo.main, job.server) == Some(true) && IsFreeProposal(repo, job, job.branch)
            && (forall op :: op in PlanLand(repo, job, today).ops ==> BranchOf(op) == job.branch)
            && IsDecided(repo.main, job, DocsRead(repo, job.server, job.branch), today)
  {
    NoBumpExactly(repo.prs, job.server);
    OnlyProposalIsLeft(repo, job, today);
    if IsFreeProposal(repo, job, job.branch) {
      var setup := FreeProposalPlan(repo, job, today);
      PlannedOnBranch(repo.main, job, today, job.branch, ProposalDocs(repo, job.branch), setup, false);
      NoBumpIsNotOne(repo, job.server, job.branch);
    } else {
      TakenProposalStops(repo, job, today);
    }
  }

  lemma OnlyProposalIsLeft(repo: Repo, job: Job, today: string)
    requires PlanLand(repo, job, today).Write? && |BumpPrs(job.server, OpenPrs(repo.prs))| != 1
    ensures BumpPrs(job.server, OpenPrs(repo.prs)) == [] && Vendored(repo.main, job.server) == Some(true)
    ensures PlanLand(repo, job, today) == PlanProposal(repo, job, today)
  {
  }

  lemma NoBumpIsNotOne(repo: Repo, server: string, branch: string)
    requires HasNoBump(repo, server)
    ensures !IsOnlyBump(repo, server, branch)
  {
  }
}

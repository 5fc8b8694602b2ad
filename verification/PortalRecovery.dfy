/**
 Crash recovery of scripts/portal-catalogue-land.py: with main, the live list and the
 allowlist fixed, any number of runs may each die after any number of writes; what they
 leave behind is continued, never redone and never refused.
 */
module PortalRecovery {
  import opened Wrappers
  import opened JsonDocs
  import opened PortalLander
  import opened Seqs

  // ---------------------------------------------------------------- what has to end up on the branch

  // Where the branch starts from (main, as a rule), the catalogue to write, and every baseline that one
  // of the runs may write, or that needs no write.
  datatype Target = Target(main: Docs, branch: string, catalogue: Json, baselines: set<Json>)

  predicate IsTarget(t: Target) {
    Rewritable(t.main, CatalogueFile) && Rewritable(t.main, BaselineFile)
  }

  predicate HasWork(t: Target)
    requires IsTarget(t)
  {
    t.catalogue != t.main[CatalogueFile].doc || t.main[BaselineFile].doc !in t.baselines
  }

  /** Documents in between: each of the two files is main's, or as some run wrote it. */
  predicate IsStage(t: Target, docs: Docs)
    requires IsTarget(t)
  {
    && docs.Keys == t.main.Keys
    && (forall p :: p in t.main && !p.CatalogueFile? && !p.BaselineFile? ==> docs[p] == t.main[p])
    && (docs[CatalogueFile] == t.main[CatalogueFile] || docs[CatalogueFile] == File(t.catalogue, true))
    && (docs[BaselineFile] == t.main[BaselineFile]
        || (docs[BaselineFile].canonical && docs[BaselineFile].doc in t.baselines))
  }

  /** The documents an uninterrupted run leaves on the branch when it writes this baseline. */
  function FinalDocs(main: Docs, catalogue: Json, baseline: Json): Docs {
    main[CatalogueFile := File(catalogue, true)][BaselineFile := File(baseline, true)]
  }

  predicate IsFinal(t: Target, docs: Docs) {
    exists b :: b in t.baselines && docs == FinalDocs(t.main, t.catalogue, b)
  }

  /** The writes still missing from a stage. */
  function StillMissing(t: Target, baseline: Json, docs: Docs): seq<Op>
    requires CatalogueFile in docs && BaselineFile in docs
  {
    PutCatalogue(t.branch, docs, t.catalogue)
    + (if docs[BaselineFile].doc in t.baselines then []
       else [PutFile(t.branch, BaselineFile, docs[BaselineFile], baseline)])
  }

  lemma CatalogueWritten(t: Target, baseline: Json, docs: Docs)
    requires IsTarget(t) && IsStage(t, docs) && t.catalogue != docs[CatalogueFile].doc
    ensures var after := docs[CatalogueFile := File(t.catalogue, true)];
      IsStage(t, after)
      && StillMissing(t, baseline, docs)
         == [PutFile(t.branch, CatalogueFile, docs[CatalogueFile], t.catalogue)] + StillMissing(t, baseline, after)
  {
  }

  lemma BaselineWritten(t: Target, baseline: Json, docs: Docs)
    requires IsTarget(t) && IsStage(t, docs) && t.catalogue == docs[CatalogueFile].doc
    requires docs[BaselineFile].doc !in t.baselines && baseline in t.baselines
    ensures var after := docs[BaselineFile := File(baseline, true)];
      IsStage(t, after)
      && StillMissing(t, baseline, after) == []
      && StillMissing(t, baseline, docs) == [PutFile(t.branch, BaselineFile, docs[BaselineFile], baseline)]
  {
  }

  lemma NothingMissingIsFinal(t: Target, baseline: Json, docs: Docs)
    requires IsTarget(t) && IsStage(t, docs) && StillMissing(t, baseline, docs) == []
    ensures IsFinal(t, docs)
  {
    assert PutCatalogue(t.branch, docs, t.catalogue) == [];
    var b := docs[BaselineFile].doc;
    var merged := FinalDocs(t.main, t.catalogue, b);
    forall p | p in docs ensures docs[p] == merged[p] {}
    assert docs == merged;
  }

  // ---------------------------------------------------------------- what interrupted runs leave behind

  function CountOpen(prs: seq<Pr>, branch: string): nat {
    if prs == [] then 0
    else CountOpen(prs[..|prs| - 1], branch)
         + if prs[|prs| - 1].head == branch && prs[|prs| - 1].state.Open? then 1 else 0
  }

  lemma {:induction false} NoPrCountsZero(prs: seq<Pr>, branch: string)
    requires forall i :: 0 <= i < |prs| ==> !(prs[i].head == branch && prs[i].state.Open?)
    ensures CountOpen(prs, branch) == 0
  {
    if prs != [] {
      NoPrCountsZero(prs[..|prs| - 1], branch);
    }
  }

  predicate NoProposal(repo: Repo, branch: string) {
    !HasPr(repo, branch, Open) && !HasPr(repo, branch, Closed) && |OpenPrs(repo.prs)| < PR_LIMIT
  }

  /** No branch yet, or one that holds nothing main does not have. */
  predicate Untouched(repo: Repo, branch: string) {
    branch in repo.branches ==> repo.branches[branch].commits == [] && IsOwnWork(repo.branches[branch])
  }

  /** The branch holds some of the writes. */
  predicate Staged(repo: Repo, t: Target)
    requires IsTarget(t)
  {
    t.branch in repo.branches && IsStage(t, repo.branches[t.branch].docs)
  }

  /** And it holds nothing but writes made by the App. */
  predicate InMotion(repo: Repo, t: Target)
    requires IsTarget(t)
  {
    && Staged(repo, t)
    && var b := repo.branches[t.branch];
       IsOwnWork(b) && (b.commits == [] ==> b.docs == t.main)
  }

  /** One PR is open, and its branch holds the documents of an uninterrupted run. */
  predicate Proposed(repo: Repo, t: Target) {
    && CountOpen(repo.prs, t.branch) == 1 && HasPr(repo, t.branch, Open)
    && t.branch in repo.branches && IsFinal(t, repo.branches[t.branch].docs)
  }

  /** Nothing but the proposal branch and its PR has changed. */
  predicate SameOutside(before: Repo, after: Repo, branch: string) {
    && after.main == before.main
    && after.branches - {branch} == before.branches - {branch}
    && (after.prs == before.prs || after.prs == before.prs + [Pr(branch, Open, true, false)])
  }

  /** How far a run got: to the open PR, or to a stage that the next run continues from. */
  predicate Advanced(before: Repo, after: Repo, t: Target, done: bool)
    requires IsTarget(t)
  {
    && SameOutside(before, after, t.branch)
    && if done then Proposed(after, t) else NoProposal(after, t.branch) && InMotion(after, t)
  }

  /** What one write of the script does to its branch. */
  lemma PutOnBranch(repo: Repo, branch: string, path: Path, doc: Json) returns (next: Repo)
    requires branch in repo.branches
    requires path in repo.branches[branch].docs && (path.CatalogueFile? || path.BaselineFile?)
    ensures Apply(repo, PutFile(branch, path, repo.branches[branch].docs[path], doc)) == Some(next)
    ensures next.prs == repo.prs && SameOutside(repo, next, branch) && branch in next.branches
    ensures IsOwnWork(repo.branches[branch]) ==> IsOwnWork(next.branches[branch])
    ensures next.branches[branch].commits != []
    ensures next.branches[branch].docs == repo.branches[branch].docs[path := File(doc, true)]
  {
    next := Apply(repo, PutFile(branch, path, repo.branches[branch].docs[path], doc)).value;
    assert next.branches - {branch} == repo.branches - {branch};
  }

  /** The first missing write applies, and leaves the others missing. */
  lemma PutStep(repo: Repo, t: Target, baseline: Json, missing: seq<Op>) returns (next: Repo)
    requires IsTarget(t) && Staged(repo, t) && baseline in t.baselines
    requires missing == StillMissing(t, baseline, repo.branches[t.branch].docs) && missing != []
    ensures Apply(repo, missing[0]) == Some(next)
    ensures next.prs == repo.prs && SameOutside(repo, next, t.branch)
    ensures Staged(next, t) && (InMotion(repo, t) ==> InMotion(next, t))
    ensures StillMissing(t, baseline, next.branches[t.branch].docs) == missing[1..]
  {
    var docs := repo.branches[t.branch].docs;
    if t.catalogue != docs[CatalogueFile].doc {
      CatalogueWritten(t, baseline, docs);
      next := PutOnBranch(repo, t.branch, CatalogueFile, t.catalogue);
    } else {
      BaselineWritten(t, baseline, docs);
      next := PutOnBranch(repo, t.branch, BaselineFile, baseline);
    }
  }

  lemma OpenStep(repo: Repo, t: Target, baseline: Json) returns (next: Repo)
    requires IsTarget(t) && HasWork(t) && NoProposal(repo, t.branch) && InMotion(repo, t)
    requires StillMissing(t, baseline, repo.branches[t.branch].docs) == []
    ensures Apply(repo, OpenPr(t.branch)) == Some(next)
    ensures Advanced(repo, next, t, true)
  {
    var docs := repo.branches[t.branch].docs;
    assert PutCatalogue(t.branch, docs, t.catalogue) == [];
    NothingMissingIsFinal(t, baseline, docs);
    next := Apply(repo, OpenPr(t.branch)).value;
    NoPrCountsZero(repo.prs, t.branch);
    assert next.prs[..|next.prs| - 1] == repo.prs;
    assert next.prs[|repo.prs|] == Pr(t.branch, Open, true, false);
  }

  lemma AdvancedFurther(before: Repo, next: Repo, after: Repo, t: Target, done: bool)
    requires IsTarget(t) && SameOutside(before, next, t.branch) && next.prs == before.prs
    requires Advanced(next, after, t, done)
    ensures Advanced(before, after, t, done)
  {
    OutsideTwice(before, next, after, t.branch);
  }

  /** From a stage on: the missing writes and the PR, cut short anywhere. */
  lemma {:induction false} TailRuns(repo: Repo, t: Target, baseline: Json, missing: seq<Op>, ops: seq<Op>, budget: nat)
    returns (after: Repo)
    requires IsTarget(t) && HasWork(t) && NoProposal(repo, t.branch) && InMotion(repo, t) && baseline in t.baselines
    requires missing == StillMissing(t, baseline, repo.branches[t.branch].docs)
    requires ops == missing + [OpenPr(t.branch)]
    ensures after == Exec(repo, ops, budget)
    ensures Advanced(repo, after, t, budget > |missing|)
    decreases budget
  {
    if budget == 0 {
      return repo;
    }
    if missing == [] {
      after := OpenRuns(repo, t, baseline, budget);
    } else {
      var next := PutAndGoOn(repo, t, baseline, missing);
      after := TailRuns(next, t, baseline, missing[1..], missing[1..] + [OpenPr(t.branch)], budget - 1);
      PutFirst(repo, next, after, t, missing, budget);
    }
  }

  /** What the rest of the run leaves, seen from before the first write. */
  lemma PutFirst(repo: Repo, next: Repo, after: Repo, t: Target, missing: seq<Op>, budget: nat)
    requires IsTarget(t) && SameOutside(repo, next, t.branch) && next.prs == repo.prs
    requires missing != [] && Apply(repo, missing[0]) == Some(next) && budget > 0
    requires after == Exec(next, missing[1..] + [OpenPr(t.branch)], budget - 1)
    requires Advanced(next, after, t, budget - 1 > |missing[1..]|)
    ensures after == Exec(repo, missing + [OpenPr(t.branch)], budget)
    ensures Advanced(repo, after, t, budget > |missing|)
  {
    ExecFirst(repo, next, missing, OpenPr(t.branch), budget);
    AdvancedFurther(repo, next, after, t, budget > |missing|);
  }

  /** With nothing missing the PR is opened. */
  lemma OpenRuns(repo: Repo, t: Target, baseline: Json, budget: nat) returns (after: Repo)
    requires IsTarget(t) && HasWork(t) && NoProposal(repo, t.branch) && InMotion(repo, t) && budget > 0
    requires StillMissing(t, baseline, repo.branches[t.branch].docs) == []
    ensures after == Exec(repo, [] + [OpenPr(t.branch)], budget) && Advanced(repo, after, t, true)
  {
    after := OpenStep(repo, t, baseline);
    NothingAdded([OpenPr(t.branch)]);
    ExecStep(repo, OpenPr(t.branch), [], budget);
  }

  lemma ExecFirst(repo: Repo, next: Repo, ops: seq<Op>, last: Op, budget: nat)
    requires ops != [] && Apply(repo, ops[0]) == Some(next) && budget > 0
    ensures Exec(repo, ops + [last], budget) == Exec(next, ops[1..] + [last], budget - 1)
  {
    RestOfBoth(ops, [last]);
  }

  /** PutStep, for a branch without a PR that holds the App's writes only. */
  lemma PutAndGoOn(repo: Repo, t: Target, baseline: Json, missing: seq<Op>) returns (next: Repo)
    requires IsTarget(t) && NoProposal(repo, t.branch) && InMotion(repo, t) && baseline in t.baselines
    requires missing == StillMissing(t, baseline, repo.branches[t.branch].docs) && missing != []
    ensures Apply(repo, missing[0]) == Some(next)
    ensures next.prs == repo.prs && SameOutside(repo, next, t.branch)
    ensures NoProposal(next, t.branch) && InMotion(next, t)
    ensures missing[1..] == StillMissing(t, baseline, next.branches[t.branch].docs)
  {
    next := PutStep(repo, t, baseline, missing);
  }

  /** The missing writes alone, cut short anywhere. */
  lemma {:induction false} PutsRun(repo: Repo, t: Target, baseline: Json, missing: seq<Op>, budget: nat)
    returns (after: Repo)
    requires IsTarget(t) && Staged(repo, t) && baseline in t.baselines
    requires missing == StillMissing(t, baseline, repo.branches[t.branch].docs)
    ensures after == Exec(repo, missing, budget)
    ensures after.prs == repo.prs && SameOutside(repo, after, t.branch) && Staged(after, t)
    ensures budget >= |missing| ==> IsFinal(t, after.branches[t.branch].docs)
    decreases budget
  {
    if missing == [] {
      NothingMissingIsFinal(t, baseline, repo.branches[t.branch].docs);
      return repo;
    }
    if budget == 0 {
      return repo;
    }
    FirstAndRest(missing);
    ExecStep(repo, missing[0], missing[1..], budget);
    var next := PutStep(repo, t, baseline, missing);
    after := PutsRun(next, t, baseline, missing[1..], budget - 1);
    OutsideTwice(repo, next, after, t.branch);
  }

  lemma OutsideTwice(before: Repo, next: Repo, after: Repo, branch: string)
    requires SameOutside(before, next, branch) && next.prs == before.prs && SameOutside(next, after, branch)
    ensures SameOutside(before, after, branch)
  {
  }

  /** Once final, nothing is missing, whatever the day. */
  lemma FinalMissesNothing(t: Target, baseline: Json, docs: Docs)
    requires IsTarget(t) && IsFinal(t, docs)
    ensures StillMissing(t, baseline, docs) == []
  {
  }
}

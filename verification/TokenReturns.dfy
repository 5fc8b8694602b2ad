/**
 What a call of APIToken or ZitadelToken hands to its caller, over any run of TokenLock:
 a token that was in the credential file while the call was on its way, and, when the call
 refreshed, the very token that the server issued to it. And what it removes: a lock that
 was its own when it looked. No hypothesis on the order or the timing of the steps.
 */
module TokenReturns {
  import opened Wrappers
  import opened TokenLock

  /** After the first k steps of the run. */
  ghost predicate IsPrefix(s: State, steps: seq<Step>, k: nat) {
    k <= |steps| && IsRun(s, steps[..k])
  }

  lemma {:induction false} RunFront(s: State, steps: seq<Step>)
    requires IsRun(s, steps) && steps != []
    ensures var n := |steps| - 1;
      && IsRun(s, steps[..n]) && Enabled(Exec(s, steps[..n]), steps[n])
      && Exec(s, steps) == Apply(Exec(s, steps[..n]), steps[n])
    decreases |steps|
  {
    var n := |steps| - 1;
    if n == 0 {
      assert steps[1..] == [] && steps[..0] == [];
    } else {
      RunFront(Apply(s, steps[0]), steps[1..]);
      assert steps[1..][..n - 1] == steps[..n][1..];
    }
  }

  /** The outcome that a process has settled on. */
  function Settled(phase: Phase): Option<Outcome> {
    match phase
    case Held(_, Releasing(out)) => Some(out)
    case Held(_, Removing(out)) => Some(out)
    case Done(out) => Some(out)
    case _ => None
  }

  /** The file holds this token for that home; one that is returned without a refresh has not expired. */
  predicate FileOffers(s: State, home: nat, access: nat, contacted: bool) {
    && s.file.Some? && s.file.value.home == home && s.file.value.token.access == access
    && (!contacted && s.file.value.token.expiry.Some? ==> s.now + 10 <= s.file.value.token.expiry.value)
  }

  /** It did in some state of the run, from the given one on. */
  ghost predicate FileOffered(s: State, steps: seq<Step>, from: nat, home: nat, access: nat, contacted: bool) {
    exists k :: from <= k && IsPrefix(s, steps, k) && FileOffers(Exec(s, steps[..k]), home, access, contacted)
  }

  /** The server accepted the process's refresh and issued this token. */
  predicate WasIssued(steps: seq<Step>, from: nat, p: Pid, token: Token) {
    exists i :: from <= i < |steps| && steps[i] == Exchange(p, Accepted(token))
  }

  lemma FileOfferedLonger(s: State, steps: seq<Step>, from: nat, home: nat, access: nat, contacted: bool)
    requires steps != [] && FileOffered(s, steps[..|steps| - 1], from, home, access, contacted)
    ensures FileOffered(s, steps, from, home, access, contacted)
  {
    var front := steps[..|steps| - 1];
    var k :| from <= k && IsPrefix(s, front, k) && FileOffers(Exec(s, front[..k]), home, access, contacted);
    assert front[..k] == steps[..k];
    assert IsPrefix(s, steps, k);
  }

  /** What a process read or was issued is for its own home. */
  predicate IsForItsHome(proc: Proc) {
    match proc.phase
    case Held(_, Expired(read)) => read.home == proc.home
    case Held(_, Exchanged(next)) => next.home == proc.home
    case _ => true
  }

  lemma StepKeepsHome(s: State, step: Step, p: Pid)
    requires Enabled(s, step) && p in Apply(s, step).procs && (p in s.procs ==> IsForItsHome(s.procs[p]))
    ensures IsForItsHome(Apply(s, step).procs[p])
    ensures p in s.procs ==> Apply(s, step).procs[p].home == s.procs[p].home
    ensures p !in s.procs ==> step == Begin(p, Apply(s, step).procs[p].home)
  {
  }

  /** A process settles on what the file offers right before or right after that step. */
  lemma SettlesOnTheFile(s: State, step: Step, p: Pid, access: nat, contacted: bool)
    requires Enabled(s, step) && p in Apply(s, step).procs && (p in s.procs ==> IsForItsHome(s.procs[p]))
    requires Settled(Apply(s, step).procs[p].phase) == Some(Returned(access, contacted))
    ensures var home := Apply(s, step).procs[p].home;
      || (p in s.procs && Settled(s.procs[p].phase) == Some(Returned(access, contacted)))
      || FileOffers(s, home, access, contacted)
      || FileOffers(Apply(s, step), home, access, contacted)
  {
  }

  /** The same for the token in its hands, issued by the server. */
  lemma IsIssuedByTheServer(s: State, step: Step, p: Pid, token: Token)
    requires Enabled(s, step) && p in Apply(s, step).procs && Carries(Apply(s, step).procs[p].phase, token)
    ensures (p in s.procs && Carries(s.procs[p].phase, token)) || step == Exchange(p, Accepted(token))
  {
  }

  predicate Carries(phase: Phase, token: Token) {
    phase.Held? && phase.work.Exchanged? && phase.work.next.token == token
  }

  lemma SettlesOnItsToken(s: State, step: Step, p: Pid, access: nat)
    requires Enabled(s, step) && p in Apply(s, step).procs
    requires Settled(Apply(s, step).procs[p].phase) == Some(Returned(access, true))
    ensures p in s.procs
    ensures Settled(s.procs[p].phase) == Some(Returned(access, true))
         || exists token: Token :: token.access == access && Carries(s.procs[p].phase, token)
  {
    if p !in s.procs || Settled(s.procs[p].phase) != Some(Returned(access, true)) {
      assert step == Store(p);
      assert Carries(s.procs[p].phase, s.procs[p].phase.work.next.token);
    }
  }

  lemma IssuedLonger(steps: seq<Step>, from: nat, p: Pid, token: Token)
    requires steps != [] && WasIssued(steps[..|steps| - 1], from, p, token)
    ensures WasIssued(steps, from, p, token)
  {
    var i :| from <= i < |steps| - 1 && steps[..|steps| - 1][i] == Exchange(p, Accepted(token));
    assert steps[i] == Exchange(p, Accepted(token));
  }

  /** Everything said of a process that began after the first `from` steps. */
  ghost predicate IsAccounted(s: State, steps: seq<Step>, from: nat, p: Pid)
    requires IsRun(s, steps) && p in Exec(s, steps).procs
  {
    var proc := Exec(s, steps).procs[p];
    && IsForItsHome(proc)
    && (forall token :: Carries(proc.phase, token) ==> WasIssued(steps, from, p, token))
    && (forall access, contacted :: Settled(proc.phase) == Some(Returned(access, contacted)) ==>
          FileOffered(s, steps, from, proc.home, access, contacted))
    && (forall access :: Settled(proc.phase) == Some(Returned(access, true)) ==>
          exists token: Token :: token.access == access && WasIssued(steps, from, p, token))
  }

  lemma {:induction false} EverythingIsAccounted(s: State, steps: seq<Step>, from: nat, p: Pid, home: nat)
    requires IsRun(s, steps) && from < |steps| && steps[from] == Begin(p, home)
    ensures var t := Exec(s, steps); p in t.procs && t.procs[p].home == home && IsAccounted(s, steps, from, p)
    decreases |steps|
  {
    var n := |steps| - 1;
    RunFront(s, steps);
    var u := Exec(s, steps[..n]);
    if n > from {
      EverythingIsAccounted(s, steps[..n], from, p, home);
    }
    if p in Apply(u, steps[n]).procs {
      StepKeepsHome(u, steps[n], p);
    }
    LastStepIsAccounted(s, steps, from, p);
  }

  lemma LastStepIsAccounted(s: State, steps: seq<Step>, from: nat, p: Pid)
    requires IsRun(s, steps) && p in Exec(s, steps).procs && from < |steps|
    requires IsRun(s, steps[..|steps| - 1])
    requires p in Exec(s, steps[..|steps| - 1]).procs ==> IsAccounted(s, steps[..|steps| - 1], from, p)
    ensures IsAccounted(s, steps, from, p)
  {
    RunFront(s, steps);
    var n := |steps| - 1;
    var (front, last) := (steps[..n], steps[n]);
    var (u, t) := (Exec(s, front), Exec(s, steps));
    var proc := t.procs[p];
    StepKeepsHome(u, last, p);
    forall token | Carries(proc.phase, token) ensures WasIssued(steps, from, p, token) {
      TokenIsAccounted(s, steps, from, p, token);
    }
    forall access, contacted | Settled(proc.phase) == Some(Returned(access, contacted))
      ensures FileOffered(s, steps, from, proc.home, access, contacted)
    {
      ReturnIsAccounted(s, steps, from, p, access, contacted);
    }
    forall access | Settled(proc.phase) == Some(Returned(access, true))
      ensures exists token: Token :: token.access == access && WasIssued(steps, from, p, token)
    {
      SettlesOnItsToken(u, last, p, access);
      var token: Token :| token.access == access && (Carries(u.procs[p].phase, token) || WasIssued(front, from, p, token));
      IssuedLonger(steps, from, p, token);
    }
  }

  lemma TokenIsAccounted(s: State, steps: seq<Step>, from: nat, p: Pid, token: Token)
    requires IsRun(s, steps) && p in Exec(s, steps).procs && from < |steps|
    requires IsRun(s, steps[..|steps| - 1]) && Carries(Exec(s, steps).procs[p].phase, token)
    requires p in Exec(s, steps[..|steps| - 1]).procs ==> IsAccounted(s, steps[..|steps| - 1], from, p)
    ensures WasIssued(steps, from, p, token)
  {
    RunFront(s, steps);
    var u := Exec(s, steps[..|steps| - 1]);
    IsIssuedByTheServer(u, steps[|steps| - 1], p, token);
    if p in u.procs && Carries(u.procs[p].phase, token) {
      IssuedLonger(steps, from, p, token);
    }
  }

  lemma ReturnIsAccounted(s: State, steps: seq<Step>, from: nat, p: Pid, access: nat, contacted: bool)
    requires IsRun(s, steps) && p in Exec(s, steps).procs && from < |steps|
    requires IsRun(s, steps[..|steps| - 1])
    requires Settled(Exec(s, steps).procs[p].phase) == Some(Returned(access, contacted))
    requires p in Exec(s, steps[..|steps| - 1]).procs ==> IsAccounted(s, steps[..|steps| - 1], from, p)
    ensures FileOffered(s, steps, from, Exec(s, steps).procs[p].home, access, contacted)
  {
    RunFront(s, steps);
    var n := |steps| - 1;
    var (u, t) := (Exec(s, steps[..n]), Exec(s, steps));
    var home := t.procs[p].home;
    SettlesOnTheFile(u, steps[n], p, access, contacted);
    StepKeepsHome(u, steps[n], p);
    if FileOffers(u, home, access, contacted) {
      assert IsPrefix(s, steps, n);
    } else if FileOffers(t, home, access, contacted) {
      assert steps[..n + 1] == steps && IsPrefix(s, steps, n + 1);
    } else {
      FileOfferedLonger(s, steps, from, home, access, contacted);
    }
  }

  /**
   Whatever any process did before, and whatever any process does meanwhile: a call that
   returns a token returns one that the file held for its home while the call was on its
   way, an unexpired one if it did not refresh; if it did, the server issued it to this call.
   */
  lemma ReturnedTokenWasStored(s: State, steps: seq<Step>, from: nat, p: Pid, home: nat, access: nat, contacted: bool)
    requires IsRun(s, steps) && from < |steps| && steps[from] == Begin(p, home)
    requires p in Exec(s, steps).procs && Exec(s, steps).procs[p].phase == Done(Returned(access, contacted))
    ensures FileOffered(s, steps, from, home, access, contacted)
    ensures contacted ==> exists token: Token :: token.access == access && WasIssued(steps, from, p, token)
  {
    EverythingIsAccounted(s, steps, from, p, home);
  }

  // ---------------------------------------------------------------- what the file holds

  /** Every token on its way into the file was issued by the server. */
  ghost predicate CarriedAreIssued(s: State, steps: seq<Step>)
    requires IsRun(s, steps)
  {
    forall q, token :: q in Exec(s, steps).procs && Carries(Exec(s, steps).procs[q].phase, token) ==>
      WasIssued(steps, 0, q, token)
  }

  /** The file is the one from the beginning, or holds a token that the server issued during the run. */
  ghost predicate FileIsIssued(s: State, steps: seq<Step>)
    requires IsRun(s, steps)
  {
    var t := Exec(s, steps);
    t.file == s.file || (t.file.Some? && exists q :: WasIssued(steps, 0, q, t.file.value.token))
  }

  lemma {:induction false} StoredTokensAreIssued(s: State, steps: seq<Step>)
    requires s.procs == map[] && IsRun(s, steps)
    ensures CarriedAreIssued(s, steps) && FileIsIssued(s, steps)
    decreases |steps|
  {
    if steps != [] {
      RunFront(s, steps);
      StoredTokensAreIssued(s, steps[..|steps| - 1]);
      CarriedOneMore(s, steps);
      FileOneMore(s, steps);
    }
  }

  lemma CarriedOneMore(s: State, steps: seq<Step>)
    requires IsRun(s, steps) && steps != [] && IsRun(s, steps[..|steps| - 1])
    requires CarriedAreIssued(s, steps[..|steps| - 1])
    ensures CarriedAreIssued(s, steps)
  {
    RunFront(s, steps);
    var (u, last) := (Exec(s, steps[..|steps| - 1]), steps[|steps| - 1]);
    forall q, token | q in Exec(s, steps).procs && Carries(Exec(s, steps).procs[q].phase, token)
      ensures WasIssued(steps, 0, q, token)
    {
      IsIssuedByTheServer(u, last, q, token);
      if q in u.procs && Carries(u.procs[q].phase, token) {
        IssuedLonger(steps, 0, q, token);
      }
    }
  }

  lemma FileOneMore(s: State, steps: seq<Step>)
    requires IsRun(s, steps) && steps != [] && IsRun(s, steps[..|steps| - 1])
    requires CarriedAreIssued(s, steps[..|steps| - 1]) && FileIsIssued(s, steps[..|steps| - 1])
    ensures FileIsIssued(s, steps)
  {
    RunFront(s, steps);
    var (front, last) := (steps[..|steps| - 1], steps[|steps| - 1]);
    var u := Exec(s, front);
    if last.Store? {
      var token := u.procs[last.p].phase.work.next.token;
      assert Carries(u.procs[last.p].phase, token);
      IssuedLonger(steps, 0, last.p, token);
    } else if u.file != s.file {
      var q :| WasIssued(front, 0, q, u.file.value.token);
      IssuedLonger(steps, 0, q, u.file.value.token);
    }
  }

  // ---------------------------------------------------------------- what a process removes

  /** When the process compared the owner, after the first k steps, the lock was its own. */
  ghost predicate LookedAndOwned(s: State, steps: seq<Step>, p: Pid) {
    exists k :: 0 <= k < |steps| && IsPrefix(s, steps, k) && steps[k] == ReadOwner(p)
                && Exec(s, steps[..k]).lock.Some? && Exec(s, steps[..k]).lock.value.owner == Some(p)
  }

  /** Over any run, a process about to unlock by removing the file looked first, and the file was its own. */
  lemma {:induction false} RemovesOnlyItsOwn(s: State, steps: seq<Step>, p: Pid)
    requires s.procs == map[] && IsRun(s, steps) && Enabled(Exec(s, steps), RemoveLock(p))
    ensures LookedAndOwned(s, steps, p)
    decreases |steps|
  {
    if steps == [] {
      return;
    }
    RunFront(s, steps);
    var n := |steps| - 1;
    var front := steps[..n];
    var u := Exec(s, front);
    if Enabled(u, RemoveLock(p)) {
      RemovesOnlyItsOwn(s, front, p);
      var k :| 0 <= k < n && IsPrefix(s, front, k) && front[k] == ReadOwner(p)
               && Exec(s, front[..k]).lock.Some? && Exec(s, front[..k]).lock.value.owner == Some(p);
      assert front[..k] == steps[..k] && IsPrefix(s, steps, k);
    } else {
      LooksBeforeRemoving(u, steps[n], p);
      assert IsPrefix(s, steps, n);
    }
  }

  lemma LooksBeforeRemoving(s: State, step: Step, p: Pid)
    requires Enabled(s, step) && Enabled(Apply(s, step), RemoveLock(p)) && !Enabled(s, RemoveLock(p))
    ensures step == ReadOwner(p) && s.lock.Some? && s.lock.value.owner == Some(p)
  {
  }

  /** A process whose lock was taken over leaves the other's lock where it is, and its outcome stands. */
  lemma RobbedHolderLeavesTheLock(s: State, p: Pid)
    requires Enabled(s, ReadOwner(p)) && !(s.lock.Some? && s.lock.value.owner == Some(p))
    ensures var t := Apply(s, ReadOwner(p));
      t.lock == s.lock && Settled(s.procs[p].phase).Some? && t.procs[p].phase == Done(Settled(s.procs[p].phase).value)
  {
  }

  /** A lock that names a process is the one that process created. */
  ghost predicate SignedByItsCreator(s: State) {
    forall p :: s.lock.Some? && s.lock.value.owner == Some(p) && p in s.procs ==>
      match s.procs[p].phase
      case Held(inode, _) => inode == s.lock.value.inode
      case Done(_) => true
      case Dead => true
      case _ => false
  }

  lemma StepKeepsSignature(s: State, step: Step)
    requires SignedByItsCreator(s) && Enabled(s, step)
    ensures SignedByItsCreator(Apply(s, step))
  {
  }

  /** Over any run, thefts included: the owner in a lock file is the process that created that file. */
  lemma {:induction false} SignsOnlyItsOwn(s: State, steps: seq<Step>)
    requires SignedByItsCreator(s) && IsRun(s, steps)
    ensures SignedByItsCreator(Exec(s, steps))
    decreases |steps|
  {
    if steps != [] {
      StepKeepsSignature(s, steps[0]);
      SignsOnlyItsOwn(Apply(s, steps[0]), steps[1..]);
    }
  }

  /** So from the beginning a live holder that the lock names has created it. */
  lemma LockNamesItsCreator(s: State, steps: seq<Step>, p: Pid)
    requires Init(s) && IsRun(s, steps)
    ensures var t := Exec(s, steps);
      Holds(t, p) && t.lock.Some? && t.lock.value.owner == Some(p) ==> t.procs[p].phase.inode == t.lock.value.inode
  {
    SignsOnlyItsOwn(s, steps);
  }

  /** Whoever is done, well or badly, has left no lock behind while the lock was its own. */
  lemma DoneLeavesNoLock(s: State, step: Step, p: Pid)
    requires LockInv(s) && Enabled(s, step) && Holds(s, p) && Apply(s, step).procs[p].phase.Done?
    ensures Apply(s, step).lock.None?
  {
  }

  /** A lock is taken for a killed process's exactly when it was not touched for five minutes. */
  lemma StaleExactly(s: State, p: Pid)
    requires Enabled(s, Stat(p))
    ensures Apply(s, Stat(p)).procs[p].phase.Renaming? <==> s.lock.Some? && s.now > s.lock.value.mtime + 300
    ensures Apply(s, Stat(p)).lock == s.lock
  {
  }
}

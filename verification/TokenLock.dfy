/**
 The credential refresh of the CLI (cli/mctl/internal/auth): any number of processes
 share a token file and an O_EXCL lock file, and refresh tokens rotate on every use.

 The protocol is a transition system. One step is one file-system call, one call to the
 authorization server, one local decision, a passing of time, or a crash; steps of
 different processes interleave freely. A process is one call of APIToken or
 ZitadelToken, and its identity doubles as the random owner string it draws.
 */
module TokenLock {
  import opened Wrappers

  const TOKEN_LOCK_WAIT: nat := 45
  const TOKEN_LOCK_STALE: nat := 300
  // golang.org/x/oauth2 treats a token as expired this many seconds early.
  const EXPIRY_DELTA: nat := 10

  type Pid = nat

  datatype Token = Token(access: nat, refresh: Option<nat>, expiry: Option<nat>) {
    predicate Valid(now: nat) {
      expiry.Some? ==> now + EXPIRY_DELTA <= expiry.value
    }
  }

  // The credential file: the token and the issuer and client, or the API, it belongs to.
  datatype Stored = Stored(home: nat, token: Token)

  // The inode tells two files apart that were created at the same path.
  datatype LockFile = LockFile(inode: nat, owner: Option<Pid>, mtime: nat)

  datatype Outcome = Failed | Returned(access: nat, contacted: bool)

  // What a process that created the lock file does next.
  datatype Work =
    | Created                    // owner not yet written
    | Undoing                    // writing the owner failed
    | Locked                     // token file not yet re-read
    | Expired(read: Stored)      // re-read; must refresh
    | Exchanged(next: Stored)    // the server rotated; not yet stored
    | Releasing(out: Outcome)    // owner not yet compared
    | Removing(out: Outcome)     // owner compared equal

  datatype Phase =
    | Trying(deadline: nat)
    | Blocked(deadline: nat)
    | Statting(deadline: nat)
    | Renaming(deadline: nat, seen: nat)
    | Held(inode: nat, work: Work)
    | Done(result: Outcome)
    | Dead

  datatype Proc = Proc(home: nat, phase: Phase)

  datatype Presentation = Presentation(client: Pid, token: nat, accepted: bool)

  // issued: every refresh token handed out; consumed: those already used once.
  datatype Server = Server(issued: set<nat>, consumed: set<nat>, log: seq<Presentation>)

  datatype State = State(
    now: nat,
    lock: Option<LockFile>,
    nextInode: nat,
    procs: map<Pid, Proc>,
    file: Option<Stored>,
    server: Server)

  datatype Answer =
    | Accepted(tok: Token)   // rotated, and the new token reached the client
    | AnswerLost(tok: Token) // rotated, but the client saw an error
    | Refused                // not rotated

  datatype Step =
    | Tick(seconds: nat)
    | Begin(p: Pid, home: nat)
    | Create(p: Pid)
    | CreateError(p: Pid)
    | WriteOwner(p: Pid)
    | WriteError(p: Pid)
    | Undo(p: Pid)
    | CheckDeadline(p: Pid)
    | Stat(p: Pid)
    | Rename(p: Pid)
    | ReadToken(p: Pid)
    | RefreshError(p: Pid)
    | Exchange(p: Pid, answer: Answer)
    | Store(p: Pid)
    | StoreError(p: Pid)
    | ReadOwner(p: Pid)
    | RemoveLock(p: Pid)
    | Crash(p: Pid)

  predicate Holds(s: State, p: Pid) {
    p in s.procs && s.procs[p].phase.Held?
  }

  /** The server rotates: an accepted token was never used, and its successor is new. */
  predicate ServerMay(server: Server, presented: nat, answer: Answer) {
    answer.Refused?
    || (presented !in server.consumed
        && answer.tok.refresh.Some?
        && answer.tok.refresh.value !in server.issued)
  }

  predicate Enabled(s: State, step: Step) {
    match step
    case Tick(_) => true
    // The random owner is one that no process and no lock file already has.
    case Begin(p, _) => p !in s.procs && (s.lock.Some? ==> s.lock.value.owner != Some(p))
    case Create(p) => p in s.procs && s.procs[p].phase.Trying?
    case CreateError(p) => p in s.procs && s.procs[p].phase.Trying?
    case WriteOwner(p) => Holds(s, p) && s.procs[p].phase.work.Created?
    case WriteError(p) => Holds(s, p) && s.procs[p].phase.work.Created?
    case Undo(p) => Holds(s, p) && s.procs[p].phase.work.Undoing?
    case CheckDeadline(p) => p in s.procs && s.procs[p].phase.Blocked?
    case Stat(p) => p in s.procs && s.procs[p].phase.Statting?
    case Rename(p) => p in s.procs && s.procs[p].phase.Renaming?
    case ReadToken(p) => Holds(s, p) && s.procs[p].phase.work.Locked?
    case RefreshError(p) => Holds(s, p) && (s.procs[p].phase.work.Locked? || s.procs[p].phase.work.Expired?)
    case Exchange(p, answer) =>
      Holds(s, p) && s.procs[p].phase.work.Expired?
      && var st := s.procs[p].phase.work.read;
      st.token.refresh.Some? && ServerMay(s.server, st.token.refresh.value, answer)
    case Store(p) => Holds(s, p) && s.procs[p].phase.work.Exchanged?
    case StoreError(p) => Holds(s, p) && s.procs[p].phase.work.Exchanged?
    case ReadOwner(p) => Holds(s, p) && s.procs[p].phase.work.Releasing?
    case RemoveLock(p) => Holds(s, p) && s.procs[p].phase.work.Removing?
    case Crash(p) => p in s.procs && !s.procs[p].phase.Done? && !s.procs[p].phase.Dead?
  }

  function SetPhase(s: State, p: Pid, phase: Phase): State
    requires p in s.procs
  {
    s.(procs := s.procs[p := s.procs[p].(phase := phase)])
  }

  function SetWork(s: State, p: Pid, work: Work): State
    requires Holds(s, p)
  {
    SetPhase(s, p, Held(s.procs[p].phase.inode, work))
  }

  /** What a re-read of the token file under the lock leads to. */
  function AfterRead(file: Option<Stored>, home: nat, now: nat): Work {
    if file.None? || file.value.home != home then Releasing(Failed)
    else if file.value.token.Valid(now) then Releasing(Returned(file.value.token.access, false))
    else if file.value.token.refresh.None? then Releasing(Failed)
    else Expired(file.value)
  }

  function AfterExchange(server: Server, p: Pid, presented: nat, answer: Answer): Server {
    var log := server.log + [Presentation(p, presented, !answer.Refused?)];
    if answer.Refused? || answer.tok.refresh.None? then server.(log := log)
    else Server(server.issued + {answer.tok.refresh.value}, server.consumed + {presented}, log)
  }

  function Apply(s: State, step: Step): State
    requires Enabled(s, step)
  {
    match step
    case Tick(seconds) => s.(now := s.now + seconds)
    case Begin(p, home) =>
      // The read without the lock: a valid token is returned at once.
      var phase :=
        if s.file.None? || s.file.value.home != home then Done(Failed)
        else if s.file.value.token.Valid(s.now) then Done(Returned(s.file.value.token.access, false))
        else Trying(s.now + TOKEN_LOCK_WAIT);
      s.(procs := s.procs[p := Proc(home, phase)])
    case Create(p) =>
      if s.lock.None? then
        SetPhase(s, p, Held(s.nextInode, Created))
        .(lock := Some(LockFile(s.nextInode, None, s.now)), nextInode := s.nextInode + 1)
      else
        SetPhase(s, p, Blocked(s.procs[p].phase.deadline))
    case CreateError(p) => SetPhase(s, p, Done(Failed))
    case WriteOwner(p) =>
      // The write goes to the file that was created, wherever it is by now.
      var written := SetWork(s, p, Locked);
      if s.lock.Some? && s.lock.value.inode == s.procs[p].phase.inode
      then written.(lock := Some(s.lock.value.(owner := Some(p), mtime := s.now)))
      else written
    case WriteError(p) => SetWork(s, p, Undoing)
    case Undo(p) => SetPhase(s, p, Done(Failed)).(lock := None)
    case CheckDeadline(p) =>
      var deadline := s.procs[p].phase.deadline;
      SetPhase(s, p, if s.now > deadline then Done(Failed) else Statting(deadline))
    case Stat(p) =>
      var deadline := s.procs[p].phase.deadline;
      SetPhase(s, p,
               if s.lock.Some? && s.now > s.lock.value.mtime + TOKEN_LOCK_STALE
               then Renaming(deadline, s.lock.value.inode)
               else Trying(deadline))
    // A rename acts on whatever is at the path now, not on the file that was statted.
    case Rename(p) => SetPhase(s, p, Trying(s.procs[p].phase.deadline)).(lock := None)
    case ReadToken(p) => SetWork(s, p, AfterRead(s.file, s.procs[p].home, s.now))
    case RefreshError(p) => SetWork(s, p, Releasing(Failed))
    case Exchange(p, answer) =>
      var st := s.procs[p].phase.work.read;
      var work := if answer.Accepted? then Exchanged(st.(token := answer.tok)) else Releasing(Failed);
      SetWork(s, p, work).(server := AfterExchange(s.server, p, st.token.refresh.value, answer))
    case Store(p) =>
      var st := s.procs[p].phase.work.next;
      SetWork(s, p, Releasing(Returned(st.token.access, true))).(file := Some(st))
    case StoreError(p) => SetWork(s, p, Releasing(Failed))
    case ReadOwner(p) =>
      var out := s.procs[p].phase.work.out;
      if s.lock.Some? && s.lock.value.owner == Some(p)
      then SetWork(s, p, Removing(out)) else SetPhase(s, p, Done(out))
    case RemoveLock(p) => SetPhase(s, p, Done(s.procs[p].phase.work.out)).(lock := None)
    case Crash(p) => SetPhase(s, p, Dead)
  }

  // ---------------------------------------------------------------- runs

  ghost predicate IsRun(s: State, steps: seq<Step>)
    decreases |steps|
  {
    steps != [] ==> Enabled(s, steps[0]) && IsRun(Apply(s, steps[0]), steps[1..])
  }

  ghost function Exec(s: State, steps: seq<Step>): State
    requires IsRun(s, steps)
    decreases |steps|
  {
    if steps == [] then s else Exec(Apply(s, steps[0]), steps[1..])
  }

  /** Every step of the run, with the state it is taken in, satisfies `ok`. */
  ghost predicate Always(s: State, steps: seq<Step>, ok: (State, Step) -> bool)
    requires IsRun(s, steps)
    decreases |steps|
  {
    steps != [] ==> ok(s, steps[0]) && Always(Apply(s, steps[0]), steps[1..], ok)
  }

  /** No process yet; perhaps a lock file that a killed process left behind. */
  ghost predicate Init(s: State) {
    && s.procs == map[]
    && (s.lock.Some? ==> s.lock.value.inode < s.nextInode && s.lock.value.mtime <= s.now)
    && s.server.consumed == {} && s.server.log == []
    && (s.file.Some? && s.file.value.token.refresh.Some? ==>
          s.file.value.token.refresh.value in s.server.issued)
  }

  // ---------------------------------------------------------------- mutual exclusion

  /** At most one live process is between creating the lock file and letting go of it. */
  ghost predicate Exclusive(s: State) {
    forall p, q :: Holds(s, p) && Holds(s, q) ==> p == q
  }

  /** The file at the lock path is the one that the live holder created and signed. */
  ghost predicate HolderOwnsLock(s: State) {
    forall p :: Holds(s, p) ==>
      && s.lock.Some?
      && s.lock.value.inode == s.procs[p].phase.inode
      && (!s.procs[p].phase.work.Created? && !s.procs[p].phase.work.Undoing? ==> s.lock.value.owner == Some(p))
  }

  ghost predicate InodesKnown(s: State) {
    && (s.lock.Some? ==> s.lock.value.inode < s.nextInode && s.lock.value.mtime <= s.now)
    && (forall p :: p in s.procs && s.procs[p].phase.Renaming? ==> s.procs[p].phase.seen < s.nextInode)
  }

  ghost predicate LockInv(s: State) {
    Exclusive(s) && HolderOwnsLock(s) && InodesKnown(s)
  }

  /** The step renames away a lock file whose creator is alive and still holds it. */
  ghost predicate StealsLock(s: State, step: Step) {
    step.Rename? && exists p :: Holds(s, p)
  }

  lemma StepKeepsLockExactly(s: State, step: Step)
    requires LockInv(s) && Enabled(s, step)
    ensures LockInv(Apply(s, step)) <==> !StealsLock(s, step)
  {
    var t := Apply(s, step);
    if StealsLock(s, step) {
      var p :| Holds(s, p);
      assert Holds(t, p);
    } else {
      OtherStepsKeepLock(s, step);
    }
  }

  lemma OtherStepsKeepLock(s: State, step: Step)
    requires LockInv(s) && Enabled(s, step) && !StealsLock(s, step)
    ensures LockInv(Apply(s, step))
  {
    var t := Apply(s, step);
    assert InodesKnown(t);
    assert Exclusive(t) by {
      forall p, q | Holds(t, p) && Holds(t, q) ensures p == q {
        HolderHeldOrCreates(s, step, p);
        HolderHeldOrCreates(s, step, q);
      }
    }
    forall p | Holds(t, p) ensures
      && t.lock.Some?
      && t.lock.value.inode == t.procs[p].phase.inode
      && (!t.procs[p].phase.work.Created? && !t.procs[p].phase.work.Undoing? ==> t.lock.value.owner == Some(p))
    {
      HolderStillOwns(s, step, p);
    }
  }

  /** A holder held before, or has just created the lock where there was none and so no holder. */
  lemma HolderHeldOrCreates(s: State, step: Step, p: Pid)
    requires LockInv(s) && Enabled(s, step) && Holds(Apply(s, step), p)
    ensures Holds(s, p) || (step == Create(p) && s.lock.None?)
    ensures Holds(s, p) ==> s.lock.Some?
  {
  }

  lemma HolderStillOwns(s: State, step: Step, p: Pid)
    requires LockInv(s) && Enabled(s, step) && !StealsLock(s, step) && Holds(Apply(s, step), p)
    ensures var t := Apply(s, step);
      && t.lock.Some?
      && t.lock.value.inode == t.procs[p].phase.inode
      && (!t.procs[p].phase.work.Created? && !t.procs[p].phase.work.Undoing? ==> t.lock.value.owner == Some(p))
  {
    if !step.Create? {
      assert Holds(s, p);
      assert !step.Rename?;
      assert step.Undo? || step.RemoveLock? || step.WriteOwner? ==> Holds(s, step.p);
    }
  }

  /** After a theft the thief's next step gives the lock a second live holder. */
  lemma TheftAdmitsSecondHolder(s: State, thief: Pid)
    requires LockInv(s) && Enabled(s, Rename(thief)) && StealsLock(s, Rename(thief))
    ensures IsRun(s, [Rename(thief), Create(thief)])
    ensures !Exclusive(Exec(s, [Rename(thief), Create(thief)]))
  {
    var victim :| Holds(s, victim);
    var t := Apply(s, Rename(thief));
    var u := Apply(t, Create(thief));
    RunCons(t, Create(thief), []);
    RunCons(s, Rename(thief), [Create(thief)] + []);
    assert [Rename(thief)] + ([Create(thief)] + []) == [Rename(thief), Create(thief)];
    assert Holds(u, victim) && Holds(u, thief);
  }

  ghost predicate NoTheft(s: State, step: Step) {
    !StealsLock(s, step)
  }

  lemma {:induction false} ExclusiveWithoutTheft(s: State, steps: seq<Step>)
    requires LockInv(s) && IsRun(s, steps) && Always(s, steps, NoTheft)
    ensures LockInv(Exec(s, steps))
    decreases |steps|
  {
    if steps != [] {
      StepKeepsLockExactly(s, steps[0]);
      ExclusiveWithoutTheft(Apply(s, steps[0]), steps[1..]);
    }
  }

  // ---------------------------------------------------------------- the two hypotheses

  /** Timing: no live holder's lock file is older than the staleness bound. */
  ghost predicate Timely(s: State) {
    forall p :: Holds(s, p) && s.lock.Some? && s.lock.value.inode == s.procs[p].phase.inode ==>
      s.now <= s.lock.value.mtime + TOKEN_LOCK_STALE
  }

  /** Interleaving: what a process renames away, if anything, is the file it statted. */
  ghost predicate NotRecreated(s: State, step: Step)
    requires Enabled(s, step)
  {
    step.Rename? && s.lock.Some? ==> s.lock.value.inode == s.procs[step.p].phase.seen
  }

  ghost predicate Orderly(s: State, step: Step) {
    Enabled(s, step) && Timely(s) && NotRecreated(s, step)
  }

  /** A file that a process is about to rename, if it is still there, is still stale. */
  ghost predicate SeenIsStale(s: State) {
    forall q :: q in s.procs && s.procs[q].phase.Renaming? && s.lock.Some?
                && s.lock.value.inode == s.procs[q].phase.seen ==>
      s.now > s.lock.value.mtime + TOKEN_LOCK_STALE
  }

  lemma OrderlyStepIsNoTheft(s: State, step: Step)
    requires LockInv(s) && SeenIsStale(s) && Orderly(s, step)
    ensures NoTheft(s, step)
    ensures SeenIsStale(Apply(s, step))
  {
    var t := Apply(s, step);
    if step.WriteOwner? {
      assert Holds(s, step.p);
    }
    forall q | q in t.procs && t.procs[q].phase.Renaming? && t.lock.Some?
               && t.lock.value.inode == t.procs[q].phase.seen
      ensures t.now > t.lock.value.mtime + TOKEN_LOCK_STALE
    {
      if !step.Stat? || step.p != q {
        assert q in s.procs && s.procs[q].phase.Renaming?;
      }
    }
  }

  lemma {:induction false} OrderlyRunHasNoTheft(s: State, steps: seq<Step>)
    requires LockInv(s) && SeenIsStale(s) && IsRun(s, steps) && Always(s, steps, Orderly)
    ensures Always(s, steps, NoTheft)
    decreases |steps|
  {
    if steps != [] {
      OrderlyStepIsNoTheft(s, steps[0]);
      StepKeepsLockExactly(s, steps[0]);
      OrderlyRunHasNoTheft(Apply(s, steps[0]), steps[1..]);
    }
  }

  /** Mutual exclusion, for any number of processes and any interleaving. */
  lemma MutualExclusion(s: State, steps: seq<Step>)
    requires Init(s) && IsRun(s, steps) && Always(s, steps, Orderly)
    ensures LockInv(Exec(s, steps))
  {
    OrderlyRunHasNoTheft(s, steps);
    ExclusiveWithoutTheft(s, steps);
  }

  // ---------------------------------------------------------------- rotation

  /** No refresh token is presented again after the server accepted it once. */
  ghost predicate SingleUse(log: seq<Presentation>) {
    forall i, j :: 0 <= i < j < |log| && log[i].accepted ==> log[j].token != log[i].token
  }

  /** The step leaves the only live refresh token nowhere but in a lost answer. */
  predicate LosesToken(s: State, step: Step) {
    match step
    case Crash(p) => Holds(s, p) && s.procs[p].phase.work.Exchanged?
    case StoreError(p) => true
    case Exchange(_, answer) => answer.AnswerLost?
    case _ => false
  }

  predicate HasSpent(file: Option<Stored>, server: Server) {
    file.Some? && file.value.token.refresh.Some? && file.value.token.refresh.value in server.consumed
  }

  ghost predicate ServerKnows(server: Server) {
    && server.consumed <= server.issued
    && (forall e :: e in server.log && e.accepted ==> e.token in server.consumed)
    && (forall r :: r in server.consumed ==> exists e :: e in server.log && e.accepted && e.token == r)
    && SingleUse(server.log)
  }

  /** What a holder carries agrees with the token file and the server. */
  ghost predicate WorkAgrees(s: State, p: Pid)
    requires Holds(s, p)
  {
    match s.procs[p].phase.work
    case Expired(st) =>
      s.file == Some(st) && st.home == s.procs[p].home && st.token.refresh.Some?
    case Exchanged(st) =>
      && st.home == s.procs[p].home
      && st.token.refresh.Some?
      && st.token.refresh.value in s.server.issued - s.server.consumed
      && HasSpent(s.file, s.server)
    case Releasing(out) => out.Returned? ==> FileHas(s, s.procs[p].home, out.access)
    case Removing(out) => out.Returned? ==> FileHas(s, s.procs[p].home, out.access)
    case _ => true
  }

  ghost predicate FileHas(s: State, home: nat, access: nat) {
    s.file.Some? && s.file.value.home == home && s.file.value.token.access == access
  }

  /** Phases in which a process cannot have contacted the server yet. */
  predicate Quiet(phase: Phase) {
    match phase
    case Held(_, work) =>
      (match work
       case Exchanged(_) => false
       case Releasing(out) => out.Returned? && !out.contacted
       case Removing(out) => out.Returned? && !out.contacted
       case _ => true)
    case Done(out) => out.Returned? && !out.contacted
    case Dead => false
    case _ => true
  }

  ghost predicate QuietAreNotLogged(s: State) {
    forall e :: e in s.server.log ==> e.client in s.procs && !Quiet(s.procs[e.client].phase)
  }

  ghost predicate TokenInv(s: State) {
    && ServerKnows(s.server)
    && (s.file.Some? && s.file.value.token.refresh.Some? ==> s.file.value.token.refresh.value in s.server.issued)
    && (forall p :: Holds(s, p) ==> WorkAgrees(s, p))
    && (HasSpent(s.file, s.server) ==> exists p :: Holds(s, p) && s.procs[p].phase.work.Exchanged?)
    && QuietAreNotLogged(s)
  }

  lemma StepKeepsQuiet(s: State, step: Step)
    requires Enabled(s, step) && QuietAreNotLogged(s)
    ensures QuietAreNotLogged(Apply(s, step))
  {
    var t := Apply(s, step);
    forall e | e in t.server.log ensures e.client in t.procs && !Quiet(t.procs[e.client].phase) {
      if step.Exchange? && e !in s.server.log {
        assert e.client == step.p;
      }
    }
  }

  lemma StepKeepsServer(s: State, step: Step)
    requires LockInv(s) && TokenInv(s) && Enabled(s, step)
    ensures ServerKnows(Apply(s, step).server)
  {
    if step.Exchange? {
      var presented := s.procs[step.p].phase.work.read.token.refresh.value;
      assert WorkAgrees(s, step.p);
      assert presented !in s.server.consumed;
      var t := Apply(s, step).server;
      var last := Presentation(step.p, presented, !step.answer.Refused?);
      assert t.log == s.server.log + [last];
      assert last in t.log;
      assert forall e :: e in s.server.log ==> e in t.log;
    }
  }

  lemma StepKeepsWork(s: State, step: Step)
    requires LockInv(s) && TokenInv(s) && Enabled(s, step) && NoTheft(s, step)
    ensures var t := Apply(s, step); forall p :: Holds(t, p) ==> WorkAgrees(t, p)
  {
    var t := Apply(s, step);
    forall p | Holds(t, p) ensures WorkAgrees(t, p) {
      if Holds(s, p) {
        assert WorkAgrees(s, p);
      }
    }
  }

  /** A lost token leaves a spent one in the file, and nobody to replace it. */
  lemma LossBreaksTokens(s: State, step: Step)
    requires LockInv(s) && TokenInv(s) && Enabled(s, step) && LosesToken(s, step)
    ensures !TokenInv(Apply(s, step))
  {
    var t := Apply(s, step);
    assert WorkAgrees(s, step.p);
    assert HasSpent(t.file, t.server);
    forall q ensures !(Holds(t, q) && t.procs[q].phase.work.Exchanged?) {
      if Holds(t, q) { assert Holds(s, q) && q == step.p; }
    }
  }

  lemma StepKeepsTokensExactly(s: State, step: Step)
    requires LockInv(s) && TokenInv(s) && Enabled(s, step) && NoTheft(s, step)
    ensures TokenInv(Apply(s, step)) <==> !LosesToken(s, step)
  {
    var t := Apply(s, step);
    StepKeepsQuiet(s, step);
    StepKeepsServer(s, step);
    StepKeepsWork(s, step);
    if LosesToken(s, step) {
      LossBreaksTokens(s, step);
    } else if HasSpent(t.file, t.server) {
      if HasSpent(s.file, s.server) {
        var p :| Holds(s, p) && s.procs[p].phase.work.Exchanged?;
        if step.Store? {
          assert false;
        }
        assert Holds(t, p) && t.procs[p].phase.work.Exchanged?;
      } else {
        assert step.Exchange? || step.Store?;
        assert Holds(t, step.p) && t.procs[step.p].phase.work.Exchanged?;
      }
    }
  }

  ghost predicate OrderlyAndStored(s: State, step: Step) {
    Orderly(s, step) && !LosesToken(s, step)
  }

  lemma {:induction false} TokensOverRuns(s: State, steps: seq<Step>)
    requires LockInv(s) && SeenIsStale(s) && TokenInv(s)
    requires IsRun(s, steps) && Always(s, steps, OrderlyAndStored)
    ensures LockInv(Exec(s, steps)) && TokenInv(Exec(s, steps))
    decreases |steps|
  {
    if steps != [] {
      OrderlyStepIsNoTheft(s, steps[0]);
      StepKeepsLockExactly(s, steps[0]);
      StepKeepsTokensExactly(s, steps[0]);
      TokensOverRuns(Apply(s, steps[0]), steps[1..]);
    }
  }

  /**
   Single use: over any orderly run in which every accepted exchange is stored, no
   refresh token is presented again once accepted. Whatever a live holder is about to
   return is then the token in the file, and a process that did not refresh itself
   contacted no one.
   */
  lemma RefreshTokensAreSingleUse(s: State, steps: seq<Step>)
    requires Init(s) && IsRun(s, steps) && Always(s, steps, OrderlyAndStored)
    ensures var t := Exec(s, steps);
      && SingleUse(t.server.log)
      && (forall p, out :: Holds(t, p) && t.procs[p].phase.work == Releasing(out) && out.Returned? ==>
            FileHas(t, t.procs[p].home, out.access))
      && (forall p, access :: p in t.procs && t.procs[p].phase == Done(Returned(access, false)) ==>
            forall e :: e in t.server.log ==> e.client != p)
  {
    TokensOverRuns(s, steps);
    var t := Exec(s, steps);
    forall p, out | Holds(t, p) && t.procs[p].phase.work == Releasing(out) && out.Returned?
      ensures FileHas(t, t.procs[p].home, out.access)
    {
      assert WorkAgrees(t, p);
    }
  }

  lemma {:induction false} QuietOverRuns(s: State, steps: seq<Step>)
    requires QuietAreNotLogged(s) && IsRun(s, steps)
    ensures QuietAreNotLogged(Exec(s, steps))
    decreases |steps|
  {
    if steps != [] {
      StepKeepsQuiet(s, steps[0]);
      QuietOverRuns(Apply(s, steps[0]), steps[1..]);
    }
  }

  /** The process is about to return this token, has returned it, or was killed; it never contacted the server. */
  ghost predicate ReturnsStored(s: State, p: Pid, access: nat) {
    && p in s.procs
    && (match s.procs[p].phase
        case Held(_, Releasing(out)) => out == Returned(access, false)
        case Held(_, Removing(out)) => out == Returned(access, false)
        case Done(out) => out == Returned(access, false)
        case Dead => true
        case _ => false)
    && forall e :: e in s.server.log ==> e.client != p
  }

  lemma StepKeepsStored(s: State, step: Step, p: Pid, access: nat)
    requires ReturnsStored(s, p, access) && Enabled(s, step)
    ensures ReturnsStored(Apply(s, step), p, access)
  {
    var t := Apply(s, step);
    forall e | e in t.server.log ensures e.client != p {
      if step.Exchange? && e !in s.server.log {
        assert e.client == step.p;
      }
    }
  }

  lemma {:induction false} StoredOverRuns(s: State, steps: seq<Step>, p: Pid, access: nat)
    requires ReturnsStored(s, p, access) && IsRun(s, steps)
    ensures ReturnsStored(Exec(s, steps), p, access)
    decreases |steps|
  {
    if steps != [] {
      StepKeepsStored(s, steps[0], p, access);
      StoredOverRuns(Apply(s, steps[0]), steps[1..], p, access);
    }
  }

  /**
   The waiter that finds a valid token under the lock: whatever any process did before, and
   whatever any process does next, the only thing it ever returns is that token, and it is
   never a client of the server. No hypothesis on the order or the timing of the steps.
   */
  lemma WaiterReturnsTheStoredToken(start: State, before: seq<Step>, p: Pid, after: seq<Step>)
    requires Init(start) && IsRun(start, before)
    requires var s := Exec(start, before);
      && Enabled(s, ReadToken(p)) && IsRun(Apply(s, ReadToken(p)), after)
      && s.file.Some? && s.file.value.home == s.procs[p].home && s.file.value.token.Valid(s.now)
    ensures var s := Exec(start, before);
      ReturnsStored(Exec(Apply(s, ReadToken(p)), after), p, s.file.value.token.access)
  {
    QuietOverRuns(start, before);
    var s := Exec(start, before);
    assert Quiet(s.procs[p].phase);
    StoredOverRuns(Apply(s, ReadToken(p)), after, p, s.file.value.token.access);
  }

  /** Undisturbed, it does return it, and takes its lock away. */
  lemma UndisturbedWaiterUnlocks(s: State, p: Pid)
    requires LockInv(s) && TokenInv(s) && Enabled(s, ReadToken(p))
    requires s.file.Some? && s.file.value.home == s.procs[p].home && s.file.value.token.Valid(s.now)
    ensures IsRun(s, [ReadToken(p), ReadOwner(p), RemoveLock(p)])
    ensures var t := Exec(s, [ReadToken(p), ReadOwner(p), RemoveLock(p)]);
      && p in t.procs && t.procs[p].phase == Done(Returned(s.file.value.token.access, false))
      && t.server == s.server && t.file == s.file && t.lock.None?
  {
    var s1 := Apply(s, ReadToken(p));
    var s2 := Apply(s1, ReadOwner(p));
    RunCons(s2, RemoveLock(p), []);
    RunCons(s1, ReadOwner(p), [RemoveLock(p)]);
    RunCons(s, ReadToken(p), [ReadOwner(p), RemoveLock(p)]);
    assert [ReadOwner(p)] + [RemoveLock(p)] == [ReadOwner(p), RemoveLock(p)];
    assert [ReadToken(p)] + [ReadOwner(p), RemoveLock(p)] == [ReadToken(p), ReadOwner(p), RemoveLock(p)];
    assert [RemoveLock(p)] + [] == [RemoveLock(p)];
  }

  lemma RunCons(s: State, step: Step, rest: seq<Step>)
    requires Enabled(s, step) && IsRun(Apply(s, step), rest)
    ensures IsRun(s, [step] + rest) && Exec(s, [step] + rest) == Exec(Apply(s, step), rest)
    ensures forall ok :: Always(s, [step] + rest, ok) <==> ok(s, step) && Always(Apply(s, step), rest, ok)
  {
    assert ([step] + rest)[1..] == rest;
  }

  // ---------------------------------------------------------------- why the hypotheses are needed

  const HOME: nat := 7
  const OLD: Stored := Stored(HOME, Token(1, Some(1), Some(0)))

  /** A stale lock of a killed process, and an expired token. */
  const LEFTOVER: State :=
    State(TOKEN_LOCK_STALE + 1, Some(LockFile(0, None, 0)), 1, map[], Some(OLD), Server({1}, {}, []))

  ghost predicate TimelyStep(s: State, step: Step) {
    Timely(s)
  }

  ghost predicate NotRecreatedStep(s: State, step: Step) {
    Enabled(s, step) && NotRecreated(s, step)
  }

  /** The protocol seen as one process: from Begin to the decision to rename. */
  function UpToRename(p: Pid): seq<Step> {
    [Begin(p, HOME), Create(p), CheckDeadline(p), Stat(p)]
  }

  /** The state in which p has just statted a stale lock. */
  function AboutToRename(s: State, p: Pid): State
    requires s.lock.Some?
  {
    s.(procs := s.procs[p := Proc(HOME, Renaming(s.now + TOKEN_LOCK_WAIT, s.lock.value.inode))])
  }

  lemma BlockedSteps(s: State, p: Pid) returns (s1: State, s2: State, s3: State)
    requires p !in s.procs && s.lock.Some? && s.lock.value.owner != Some(p)
    requires s.file == Some(OLD) && s.now > s.lock.value.mtime + TOKEN_LOCK_STALE
    ensures Enabled(s, Begin(p, HOME)) && Apply(s, Begin(p, HOME)) == s1
    ensures Enabled(s1, Create(p)) && Apply(s1, Create(p)) == s2
    ensures Enabled(s2, CheckDeadline(p)) && Apply(s2, CheckDeadline(p)) == s3
    ensures Enabled(s3, Stat(p)) && Apply(s3, Stat(p)) == AboutToRename(s, p)
    ensures Timely(s) ==> Timely(s1) && Timely(s2) && Timely(s3)
  {
    s1 := Apply(s, Begin(p, HOME));
    s2 := Apply(s1, Create(p));
    s3 := Apply(s2, CheckDeadline(p));
    assert Apply(s3, Stat(p)).procs == AboutToRename(s, p).procs;
  }

  lemma BlockedProcessRuns(s: State, p: Pid, rest: seq<Step>)
    requires p !in s.procs && s.lock.Some? && s.lock.value.owner != Some(p)
    requires s.file == Some(OLD) && s.now > s.lock.value.mtime + TOKEN_LOCK_STALE
    requires IsRun(AboutToRename(s, p), rest)
    ensures IsRun(s, UpToRename(p) + rest)
    ensures Exec(s, UpToRename(p) + rest) == Exec(AboutToRename(s, p), rest)
    ensures Always(AboutToRename(s, p), rest, TimelyStep) && Timely(s) ==> Always(s, UpToRename(p) + rest, TimelyStep)
    ensures Always(AboutToRename(s, p), rest, NotRecreatedStep) ==> Always(s, UpToRename(p) + rest, NotRecreatedStep)
  {
    var s1, s2, s3 := BlockedSteps(s, p);
    RunCons(s3, Stat(p), rest);
    RunCons(s2, CheckDeadline(p), [Stat(p)] + rest);
    RunCons(s1, Create(p), [CheckDeadline(p)] + ([Stat(p)] + rest));
    RunCons(s, Begin(p, HOME), [Create(p)] + ([CheckDeadline(p)] + ([Stat(p)] + rest)));
    assert [Begin(p, HOME)] + ([Create(p)] + ([CheckDeadline(p)] + ([Stat(p)] + rest))) == UpToRename(p) + rest;
  }

  const OVERLAP: seq<Step> :=
    UpToRename(1) + (UpToRename(2) + [Rename(1), Create(1), Rename(2), Create(2)])

  /**
   Two takeovers overlap: both processes stat the leftover lock, the first renames it
   away and creates its own, and the second renames that one away. Every lock is fresh
   throughout, so the timing hypothesis alone is not enough.
   */
  lemma OverlappingTakeover()
    ensures Init(LEFTOVER) && IsRun(LEFTOVER, OVERLAP) && Always(LEFTOVER, OVERLAP, TimelyStep)
    ensures !Exclusive(Exec(LEFTOVER, OVERLAP))
  {
    var deadline := LEFTOVER.now + TOKEN_LOCK_WAIT;
    var s := LEFTOVER.(procs := map[1 := Proc(HOME, Renaming(deadline, 0))]);
    var t := s.(procs := s.procs[2 := Proc(HOME, Renaming(deadline, 0))]);
    var tail := [Rename(1), Create(1), Rename(2), Create(2)];
    BothRename(t);
    BlockedProcessRuns(s, 2, tail);
    assert LEFTOVER.procs[1 := Proc(HOME, Renaming(deadline, 0))] == s.procs;
    BlockedProcessRuns(LEFTOVER, 1, UpToRename(2) + tail);
  }

  /** Two processes rename and create, one after the other. */
  lemma BothRename(t: State)
    requires 1 in t.procs && t.procs[1].phase.Renaming? && 2 in t.procs && t.procs[2].phase.Renaming?
    requires Timely(t) && forall p :: !Holds(t, p)
    ensures var tail := [Rename(1), Create(1), Rename(2), Create(2)];
      IsRun(t, tail) && Always(t, tail, TimelyStep) && !Exclusive(Exec(t, tail))
  {
    var t1 := Apply(t, Rename(1));
    var t2 := Apply(t1, Create(1));
    var t3 := Apply(t2, Rename(2));
    var t4 := Apply(t3, Create(2));
    RunCons(t3, Create(2), []);
    RunCons(t2, Rename(2), [Create(2)] + []);
    RunCons(t1, Create(1), [Rename(2)] + ([Create(2)] + []));
    RunCons(t, Rename(1), [Create(1)] + ([Rename(2)] + ([Create(2)] + [])));
    assert [Rename(1)] + ([Create(1)] + ([Rename(2)] + ([Create(2)] + [])))
        == [Rename(1), Create(1), Rename(2), Create(2)];
    assert Holds(t4, 1) && Holds(t4, 2);
  }

  const SLOW_HOLDER: seq<Step> :=
    [Begin(1, HOME), Create(1), Tick(TOKEN_LOCK_STALE + 1)] + (UpToRename(2) + [Rename(2), Create(2)])

  lemma ThiefRuns(t: State, victim: Pid, thief: Pid)
    requires Holds(t, victim) && thief in t.procs && t.procs[thief].phase.Renaming?
    requires t.lock.Some? && t.procs[thief].phase.seen == t.lock.value.inode
    ensures var tail := [Rename(thief), Create(thief)];
      IsRun(t, tail) && Always(t, tail, NotRecreatedStep) && !Exclusive(Exec(t, tail))
  {
    var t1 := Apply(t, Rename(thief));
    var t2 := Apply(t1, Create(thief));
    RunCons(t1, Create(thief), []);
    RunCons(t, Rename(thief), [Create(thief)] + []);
    assert [Rename(thief)] + ([Create(thief)] + []) == [Rename(thief), Create(thief)];
    assert Holds(t2, victim) && Holds(t2, thief);
  }

  /** A holder that outlives its lock is robbed even if no lock is ever re-created in between. */
  lemma SlowHolderIsRobbed()
    ensures var s := LEFTOVER.(lock := None);
      Init(s) && IsRun(s, SLOW_HOLDER) && Always(s, SLOW_HOLDER, NotRecreatedStep)
      && !Exclusive(Exec(s, SLOW_HOLDER))
  {
    var s := LEFTOVER.(lock := None);
    var s1 := Apply(s, Begin(1, HOME));
    var s2 := Apply(s1, Create(1));
    var s3 := Apply(s2, Tick(TOKEN_LOCK_STALE + 1));
    var tail := [Rename(2), Create(2)];
    ThiefRuns(AboutToRename(s3, 2), 1, 2);
    BlockedProcessRuns(s3, 2, tail);
    var late := UpToRename(2) + tail;
    RunCons(s2, Tick(TOKEN_LOCK_STALE + 1), late);
    RunCons(s1, Create(1), [Tick(TOKEN_LOCK_STALE + 1)] + late);
    RunCons(s, Begin(1, HOME), [Create(1)] + ([Tick(TOKEN_LOCK_STALE + 1)] + late));
    assert [Begin(1, HOME)] + ([Create(1)] + ([Tick(TOKEN_LOCK_STALE + 1)] + late)) == SLOW_HOLDER;
  }

  function Replay(p: Pid, home: nat): seq<Step> {
    [Begin(p, home), Create(p), WriteOwner(p), ReadToken(p), Exchange(p, Refused)]
  }

  /**
   A token that was accepted but not stored is presented again by the next process that
   takes the lock, so the storing hypothesis is needed as well.
   */
  lemma LostTokenIsReplayed(s: State, p: Pid)
    requires LockInv(s) && ServerKnows(s.server) && HasSpent(s.file, s.server)
    requires s.lock.None? && p !in s.procs && !s.file.value.token.Valid(s.now)
    ensures IsRun(s, Replay(p, s.file.value.home))
    ensures !SingleUse(Exec(s, Replay(p, s.file.value.home)).server.log)
  {
    ReplayRuns(s, p);
    var token := s.file.value.token.refresh.value;
    var e :| e in s.server.log && e.accepted && e.token == token;
    PresentedTwice(s.server.log, e, Presentation(p, token, false));
  }

  /** The next process to take the lock presents what the file holds. */
  lemma ReplayRuns(s: State, p: Pid)
    requires s.file.Some? && s.file.value.token.refresh.Some? && !s.file.value.token.Valid(s.now)
    requires s.lock.None? && p !in s.procs
    ensures IsRun(s, Replay(p, s.file.value.home))
    ensures Exec(s, Replay(p, s.file.value.home)).server.log
         == s.server.log + [Presentation(p, s.file.value.token.refresh.value, false)]
  {
    var home := s.file.value.home;
    var s1 := Apply(s, Begin(p, home));
    var s2 := Apply(s1, Create(p));
    var s3 := Apply(s2, WriteOwner(p));
    var rest := [ReadToken(p), Exchange(p, Refused)];
    RefusedRuns(s3, p);
    RunCons(s2, WriteOwner(p), rest);
    RunCons(s1, Create(p), [WriteOwner(p)] + rest);
    RunCons(s, Begin(p, home), [Create(p)] + ([WriteOwner(p)] + rest));
    assert [Begin(p, home)] + ([Create(p)] + ([WriteOwner(p)] + rest)) == Replay(p, home);
  }

  lemma RefusedRuns(s: State, p: Pid)
    requires Enabled(s, ReadToken(p)) && s.file.Some? && s.file.value.home == s.procs[p].home
    requires s.file.value.token.refresh.Some? && !s.file.value.token.Valid(s.now)
    ensures var rest := [ReadToken(p), Exchange(p, Refused)];
      IsRun(s, rest)
      && Exec(s, rest).server.log == s.server.log + [Presentation(p, s.file.value.token.refresh.value, false)]
  {
    var next := Apply(s, ReadToken(p));
    RunCons(next, Exchange(p, Refused), []);
    RunCons(s, ReadToken(p), [Exchange(p, Refused)] + []);
    assert [ReadToken(p)] + ([Exchange(p, Refused)] + []) == [ReadToken(p), Exchange(p, Refused)];
  }

  lemma PresentedTwice(log: seq<Presentation>, first: Presentation, again: Presentation)
    requires first in log && first.accepted && again.token == first.token
    ensures !SingleUse(log + [again])
  {
    var i :| 0 <= i < |log| && log[i] == first;
    assert (log + [again])[i] == first && (log + [again])[|log|] == again;
  }
}

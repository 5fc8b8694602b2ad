/**
 How long a process of TokenLock waits for the lock. The comment at the constants of
 cli/mctl/internal/auth/zitadel.go says that a waiter never gives up on a healthy holder:
 so it is while one process holds throughout the wait, and not when several healthy ones
 hold in turn.
 */
module TokenWait {
  import opened Wrappers
  import opened TokenLock

  // ---------------------------------------------------------------- the wait of one process

  /** In the loop, with this deadline. */
  predicate Waits(s: State, p: Pid, deadline: nat) {
    p in s.procs &&
    match s.procs[p].phase
    case Trying(d) => d == deadline
    case Blocked(d) => d == deadline
    case Statting(d) => d == deadline
    case Renaming(d, _) => d == deadline
    case _ => false
  }

  predicate IsWaiting(s: State, p: Pid) {
    p in s.procs && (var phase := s.procs[p].phase; phase.Trying? || phase.Blocked? || phase.Statting? || phase.Renaming?)
  }

  /** Whoever is still in the loop has the deadline it set out with. */
  lemma {:induction false} DeadlineStays(s: State, steps: seq<Step>, p: Pid, deadline: nat)
    requires p in s.procs && (IsWaiting(s, p) ==> Waits(s, p, deadline)) && IsRun(s, steps)
    ensures IsWaiting(Exec(s, steps), p) ==> Waits(Exec(s, steps), p, deadline)
    decreases |steps|
  {
    if steps != [] {
      DeadlineStays(Apply(s, steps[0]), steps[1..], p, deadline);
    }
  }

  /** The next step of p is the deadline check, and it ends the call with an error. */
  predicate GivesUp(s: State, p: Pid) {
    Enabled(s, CheckDeadline(p)) && Apply(s, CheckDeadline(p)).procs[p].phase == Done(Failed)
  }

  /** Whatever the others did, a process at its check gives up exactly when it began too long ago. */
  lemma GivesUpExactly(s: State, p: Pid, home: nat, wait: seq<Step>)
    requires Enabled(s, Begin(p, home)) && IsRun(Apply(s, Begin(p, home)), wait)
    requires Enabled(Exec(Apply(s, Begin(p, home)), wait), CheckDeadline(p))
    ensures var t := Exec(Apply(s, Begin(p, home)), wait); GivesUp(t, p) <==> t.now > s.now + 45
  {
    DeadlineStays(Apply(s, Begin(p, home)), wait, p, s.now + TOKEN_LOCK_WAIT);
  }

  // ---------------------------------------------------------------- healthy holders

  /** When each process created its lock file, kept up to date over a step. */
  function TakenAfter(s: State, step: Step, taken: map<Pid, nat>): map<Pid, nat> {
    if step.Create? && s.lock.None? then taken[step.p := s.now] else taken
  }

  /** No holder has held for longer than this. */
  ghost predicate NoneHeldLonger(s: State, taken: map<Pid, nat>, limit: nat) {
    forall p :: Holds(s, p) ==> p in taken && s.now <= taken[p] + limit
  }

  /** And so it is in every state of the run. */
  ghost predicate Healthy(s: State, steps: seq<Step>, taken: map<Pid, nat>, limit: nat)
    requires IsRun(s, steps)
    decreases |steps|
  {
    && NoneHeldLonger(s, taken, limit)
    && (steps != [] ==> Healthy(Apply(s, steps[0]), steps[1..], TakenAfter(s, steps[0], taken), limit))
  }

  /** The process holds in every state of the run. */
  ghost predicate HoldsAlways(s: State, steps: seq<Step>, p: Pid)
    requires IsRun(s, steps)
    decreases |steps|
  {
    Holds(s, p) && (steps != [] ==> HoldsAlways(Apply(s, steps[0]), steps[1..], p))
  }

  /** Over a stretch held by one process no more time passes than it may hold. */
  lemma {:induction false} HeldIsShort(s: State, steps: seq<Step>, taken: map<Pid, nat>, limit: nat, h: Pid, since: nat)
    requires IsRun(s, steps) && Healthy(s, steps, taken, limit) && HoldsAlways(s, steps, h)
    requires h in taken && taken[h] <= since
    ensures Exec(s, steps).now <= since + limit
    decreases |steps|
  {
    if steps != [] {
      assert Holds(s, h) && TakenAfter(s, steps[0], taken)[h] == taken[h];
      HeldIsShort(Apply(s, steps[0]), steps[1..], TakenAfter(s, steps[0], taken), limit, h, since);
    }
  }

  /** Nothing was taken in the future. */
  predicate TakenBefore(taken: map<Pid, nat>, now: nat) {
    forall p :: p in taken ==> taken[p] <= now
  }

  lemma {:induction false} RestIsHealthy(s: State, before: seq<Step>, rest: seq<Step>, taken: map<Pid, nat>, limit: nat)
    returns (later: map<Pid, nat>)
    requires IsRun(s, before + rest) && Healthy(s, before + rest, taken, limit) && TakenBefore(taken, s.now)
    ensures IsRun(s, before) && IsRun(Exec(s, before), rest)
    ensures Healthy(Exec(s, before), rest, later, limit) && TakenBefore(later, Exec(s, before).now)
    decreases |before|
  {
    if before == [] {
      assert before + rest == rest;
      return taken;
    }
    assert (before + rest)[1..] == before[1..] + rest;
    later := RestIsHealthy(Apply(s, before[0]), before[1..], rest, TakenAfter(s, before[0], taken), limit);
  }

  /**
   Of a run in which no process ever holds for longer than the wait, a waiter does not give
   up at its check if one process held ever since it began.
   */
  lemma NeverGivesUpOnAHealthyHolder(
    start: State, before: seq<Step>, p: Pid, home: nat, wait: seq<Step>, h: Pid, limit: nat)
    requires Init(start) && limit <= TOKEN_LOCK_WAIT
    requires IsRun(start, before + ([Begin(p, home)] + wait))
    requires Healthy(start, before + ([Begin(p, home)] + wait), map[], limit)
    requires IsRun(start, before) && Enabled(Exec(start, before), Begin(p, home))
    requires IsRun(Apply(Exec(start, before), Begin(p, home)), wait)
    requires HoldsAlways(Apply(Exec(start, before), Begin(p, home)), wait, h)
    ensures !GivesUp(Exec(Apply(Exec(start, before), Begin(p, home)), wait), p)
  {
    var taken := RestIsHealthy(start, before, [Begin(p, home)] + wait, map[], limit);
    var s := Exec(start, before);
    var t := Apply(s, Begin(p, home));
    assert ([Begin(p, home)] + wait)[1..] == wait;
    HeldIsShort(t, wait, taken, limit, h, s.now);
    if Enabled(Exec(t, wait), CheckDeadline(p)) {
      GivesUpExactly(s, p, home, wait);
    }
  }

  // ---------------------------------------------------------------- two healthy holders in turn

  // A refresh is given up after this many seconds.
  const REFRESH_TIMEOUT: nat := 30

  const START: nat := LEFTOVER.now
  const DEADLINE: nat := START + TOKEN_LOCK_WAIT
  const RETAKEN: nat := START + REFRESH_TIMEOUT

  function Meanwhile(now: nat, lock: Option<LockFile>, nextInode: nat, procs: map<Pid, Proc>): State {
    State(now, lock, nextInode, procs, Some(OLD), LEFTOVER.server)
  }

  /** No lock, and an expired token. */
  const UNLOCKED: State := Meanwhile(START, None, 1, map[])

  const BEGUN: State :=
    Meanwhile(START, None, 1, map[1 := Proc(HOME, Trying(DEADLINE)), 3 := Proc(HOME, Trying(DEADLINE))])

  const TAKEN: State :=
    Meanwhile(START, Some(LockFile(1, Some(1), START)), 2,
              map[1 := Proc(HOME, Held(1, Expired(OLD))), 3 := Proc(HOME, Trying(DEADLINE))])

  const FAILED: State :=
    Meanwhile(RETAKEN, Some(LockFile(1, Some(1), START)), 2,
              map[1 := Proc(HOME, Held(1, Releasing(Failed))), 3 := Proc(HOME, Trying(DEADLINE))])

  const FREED: State :=
    Meanwhile(RETAKEN, None, 2, map[1 := Proc(HOME, Done(Failed)), 3 := Proc(HOME, Trying(DEADLINE))])

  const CREATED: State :=
    Meanwhile(RETAKEN, Some(LockFile(2, None, RETAKEN)), 3,
              map[1 := Proc(HOME, Done(Failed)), 2 := Proc(HOME, Held(2, Created)), 3 := Proc(HOME, Trying(DEADLINE))])

  const RETOOK: State :=
    Meanwhile(RETAKEN, Some(LockFile(2, Some(2), RETAKEN)), 3,
              map[1 := Proc(HOME, Done(Failed)), 2 := Proc(HOME, Held(2, Expired(OLD))), 3 := Proc(HOME, Trying(DEADLINE))])

  const LATE: State :=
    Meanwhile(RETAKEN + 16, Some(LockFile(2, Some(2), RETAKEN)), 3,
              map[1 := Proc(HOME, Done(Failed)), 2 := Proc(HOME, Held(2, Expired(OLD))), 3 := Proc(HOME, Blocked(DEADLINE))])

  const ONE: map<Pid, nat> := map[1 := START]
  const TWO: map<Pid, nat> := map[1 := START, 2 := RETAKEN]

  ghost function TakenOver(s: State, steps: seq<Step>, taken: map<Pid, nat>): map<Pid, nat>
    requires IsRun(s, steps)
    decreases |steps|
  {
    if steps == [] then taken else TakenOver(Apply(s, steps[0]), steps[1..], TakenAfter(s, steps[0], taken))
  }

  /** A run from `from`, healthy so far, that leads here. */
  ghost predicate LeadsTo(from: State, steps: seq<Step>, start: map<Pid, nat>, s: State, taken: map<Pid, nat>) {
    && IsRun(from, steps) && Exec(from, steps) == s && TakenOver(from, steps, start) == taken
    && Healthy(from, steps, start, REFRESH_TIMEOUT)
  }

  /** The run goes on with one more step. */
  lemma {:induction false} Then(
    from: State, steps: seq<Step>, start: map<Pid, nat>, s: State, taken: map<Pid, nat>, step: Step)
    returns (longer: seq<Step>, next: State, since: map<Pid, nat>)
    requires LeadsTo(from, steps, start, s, taken) && Enabled(s, step)
    requires NoneHeldLonger(Apply(s, step), TakenAfter(s, step, taken), REFRESH_TIMEOUT)
    ensures next == Apply(s, step) && since == TakenAfter(s, step, taken) && longer == steps + [step]
    ensures LeadsTo(from, longer, start, next, since)
    decreases |steps|
  {
    longer, next, since := steps + [step], Apply(s, step), TakenAfter(s, step, taken);
    if steps == [] {
      assert longer == [step] && longer[1..] == [];
    } else {
      var rest, _, _ := Then(Apply(from, steps[0]), steps[1..], TakenAfter(from, steps[0], start), s, taken, step);
      assert longer[1..] == rest;
    }
  }

  /** Two processes find the token expired. */
  lemma TwoBegin(from: State, before: seq<Step>, start: map<Pid, nat>) returns (run: seq<Step>)
    requires LeadsTo(from, before, start, UNLOCKED, map[])
    ensures LeadsTo(from, run, start, BEGUN, map[])
  {
    var s, taken: map<Pid, nat> := UNLOCKED, map[];
    run := before;
    run, s, taken := Then(from, run, start, s, taken, Begin(1, HOME));
    run, s, taken := Then(from, run, start, s, taken, Begin(3, HOME));
    assert s.procs == BEGUN.procs;
  }

  /** The first takes the lock. */
  lemma FirstTakes(from: State, before: seq<Step>, start: map<Pid, nat>) returns (run: seq<Step>)
    requires LeadsTo(from, before, start, BEGUN, map[])
    ensures LeadsTo(from, run, start, TAKEN, ONE)
  {
    var s, taken: map<Pid, nat> := BEGUN, map[];
    run := before;
    run, s, taken := Then(from, run, start, s, taken, Create(1));
    run, s, taken := Then(from, run, start, s, taken, WriteOwner(1));
    run, s, taken := Then(from, run, start, s, taken, ReadToken(1));
    assert s.procs == TAKEN.procs;
  }

  /** The third finds it taken, and tries again. */
  lemma ThirdWaits(from: State, before: seq<Step>, start: map<Pid, nat>) returns (run: seq<Step>)
    requires LeadsTo(from, before, start, TAKEN, ONE)
    ensures LeadsTo(from, run, start, TAKEN, ONE)
  {
    var s, taken: map<Pid, nat> := TAKEN, ONE;
    run := before;
    run, s, taken := Then(from, run, start, s, taken, Create(3));
    run, s, taken := Then(from, run, start, s, taken, CheckDeadline(3));
    run, s, taken := Then(from, run, start, s, taken, Stat(3));
    assert s.procs == TAKEN.procs;
  }

  /** The refresh of the first fails after 30 seconds. */
  lemma FirstFails(from: State, before: seq<Step>, start: map<Pid, nat>) returns (run: seq<Step>)
    requires LeadsTo(from, before, start, TAKEN, ONE)
    ensures LeadsTo(from, run, start, FAILED, ONE)
  {
    var s, taken: map<Pid, nat> := TAKEN, ONE;
    run := before;
    run, s, taken := Then(from, run, start, s, taken, Tick(REFRESH_TIMEOUT));
    run, s, taken := Then(from, run, start, s, taken, RefreshError(1));
    assert s.procs == FAILED.procs;
  }

  /** The first takes its lock away. */
  lemma FirstUnlocks(from: State, before: seq<Step>, start: map<Pid, nat>) returns (run: seq<Step>)
    requires LeadsTo(from, before, start, FAILED, ONE)
    ensures LeadsTo(from, run, start, FREED, ONE)
  {
    var s, taken: map<Pid, nat> := FAILED, ONE;
    run := before;
    run, s, taken := Then(from, run, start, s, taken, ReadOwner(1));
    run, s, taken := Then(from, run, start, s, taken, RemoveLock(1));
    assert s.procs == FREED.procs;
  }

  /** A second process is quicker than the third to take the lock. */
  lemma SecondCreates(from: State, before: seq<Step>, start: map<Pid, nat>) returns (run: seq<Step>)
    requires LeadsTo(from, before, start, FREED, ONE)
    ensures LeadsTo(from, run, start, CREATED, TWO)
  {
    var s, taken: map<Pid, nat> := FREED, ONE;
    run := before;
    run, s, taken := Then(from, run, start, s, taken, Begin(2, HOME));
    run, s, taken := Then(from, run, start, s, taken, Create(2));
    assert s.procs == CREATED.procs;
  }

  /** It finds the token expired. */
  lemma SecondReads(from: State, before: seq<Step>, start: map<Pid, nat>) returns (run: seq<Step>)
    requires LeadsTo(from, before, start, CREATED, TWO)
    ensures LeadsTo(from, run, start, RETOOK, TWO)
  {
    var s, taken: map<Pid, nat> := CREATED, TWO;
    run := before;
    run, s, taken := Then(from, run, start, s, taken, WriteOwner(2));
    run, s, taken := Then(from, run, start, s, taken, ReadToken(2));
    assert s.procs == RETOOK.procs;
  }

  /** It has been at work for 16 seconds when the third tries again. */
  lemma ThirdIsLate(from: State, before: seq<Step>, start: map<Pid, nat>) returns (run: seq<Step>)
    requires LeadsTo(from, before, start, RETOOK, TWO)
    ensures LeadsTo(from, run, start, LATE, TWO)
  {
    var s, taken: map<Pid, nat> := RETOOK, TWO;
    run := before;
    run, s, taken := Then(from, run, start, s, taken, Tick(16));
    run, s, taken := Then(from, run, start, s, taken, Create(3));
    assert s.procs == LATE.procs;
  }

  lemma OneAfterTheOther(from: State, before: seq<Step>, start: map<Pid, nat>) returns (run: seq<Step>)
    requires LeadsTo(from, before, start, UNLOCKED, map[])
    ensures LeadsTo(from, run, start, LATE, TWO)
  {
    run := before;
    run := TwoBegin(from, run, start);
    run := FirstTakes(from, run, start);
    run := ThirdWaits(from, run, start);
    run := FirstFails(from, run, start);
    run := FirstUnlocks(from, run, start);
    run := SecondCreates(from, run, start);
    run := SecondReads(from, run, start);
    run := ThirdIsLate(from, run, start);
  }

  /**
   Nobody holds for longer than a refresh may take, and yet a waiter gives up, at a moment at
   which a healthy holder is at work.
   */
  lemma GivesUpOnAHealthyHolder() returns (run: seq<Step>)
    ensures Init(UNLOCKED) && IsRun(UNLOCKED, run) && Healthy(UNLOCKED, run, map[], REFRESH_TIMEOUT)
    ensures var t := Exec(UNLOCKED, run); GivesUp(t, 3) && Holds(t, 2) && Timely(t)
  {
    run := OneAfterTheOther(UNLOCKED, [], map[]);
  }
}

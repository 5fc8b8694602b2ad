/**
 One call of APIToken or ZitadelToken as the program runs it: take the lock in a loop,
 re-read the token file, refresh, store, unlock. Other processes act between any two of
 its calls and it may be killed at any of them. Each execution is a run of TokenLock's
 transition system, so what is proved of the runs holds of the program.
 */
module TokenClient {
  import opened Wrappers
  import opened TokenLock
  import opened TokenReturns

  // How one call of the program turns out.
  datatype Fate = Goes | Fails | Killed | Answers(answer: Answer)

  // What the others do before it, and its own outcome.
  datatype Turn = Turn(others: seq<Step>, fate: Fate)

  /** The process that takes the step; nobody's is the passing of time. */
  function Actor(step: Step): Option<Pid> {
    match step
    case Tick(_) => None
    case Begin(p, _) => Some(p)
    case Create(p) => Some(p)
    case CreateError(p) => Some(p)
    case WriteOwner(p) => Some(p)
    case WriteError(p) => Some(p)
    case Undo(p) => Some(p)
    case CheckDeadline(p) => Some(p)
    case Stat(p) => Some(p)
    case Rename(p) => Some(p)
    case ReadToken(p) => Some(p)
    case RefreshError(p) => Some(p)
    case Exchange(p, _) => Some(p)
    case Store(p) => Some(p)
    case StoreError(p) => Some(p)
    case ReadOwner(p) => Some(p)
    case RemoveLock(p) => Some(p)
    case Crash(p) => Some(p)
  }

  /** Nobody else changes where a process is, or draws the same owner string. */
  lemma OthersLeaveItAlone(s: State, step: Step, p: Pid)
    requires Enabled(s, step) && Actor(step) != Some(p)
    ensures p in s.procs ==> p in Apply(s, step).procs && Apply(s, step).procs[p] == s.procs[p]
    ensures IsUnknown(s, p) ==> IsUnknown(Apply(s, step), p)
  {
  }

  predicate IsUnknown(s: State, p: Pid) {
    p !in s.procs && (s.lock.Some? ==> s.lock.value.owner != Some(p))
  }

  /** The steps of a process that are possible by where it is alone. */
  predicate Offers(phase: Phase, step: Step) {
    match step
    case Create(_) => phase.Trying?
    case CreateError(_) => phase.Trying?
    case WriteOwner(_) => phase.Held? && phase.work.Created?
    case WriteError(_) => phase.Held? && phase.work.Created?
    case Undo(_) => phase.Held? && phase.work.Undoing?
    case CheckDeadline(_) => phase.Blocked?
    case Stat(_) => phase.Statting?
    case Rename(_) => phase.Renaming?
    case ReadToken(_) => phase.Held? && phase.work.Locked?
    case RefreshError(_) => phase.Held? && (phase.work.Locked? || phase.work.Expired?)
    case Store(_) => phase.Held? && phase.work.Exchanged?
    case StoreError(_) => phase.Held? && phase.work.Exchanged?
    case ReadOwner(_) => phase.Held? && phase.work.Releasing?
    case RemoveLock(_) => phase.Held? && phase.work.Removing?
    case _ => false
  }

  lemma OfferedIsEnabled(s: State, p: Pid, step: Step)
    requires p in s.procs && Actor(step) == Some(p) && Offers(s.procs[p].phase, step)
    ensures Enabled(s, step)
  {
  }

  /** Where a process can be after one of its steps, by where it was. */
  predicate Leads(from: Phase, step: Step, to: Phase) {
    match step
    case Create(_) => from.Trying? && (to == Blocked(from.deadline) || (to.Held? && to.work.Created?))
    case CreateError(_) => to == Done(Failed)
    case WriteOwner(_) => from.Held? && to == Held(from.inode, Locked)
    case WriteError(_) => from.Held? && to == Held(from.inode, Undoing)
    case Undo(_) => to == Done(Failed)
    case CheckDeadline(_) => from.Blocked? && (to == Done(Failed) || to == Statting(from.deadline))
    case Stat(_) => from.Statting? && (to == Trying(from.deadline) || (to.Renaming? && to.deadline == from.deadline))
    case Rename(_) => from.Renaming? && to == Trying(from.deadline)
    case ReadToken(_) =>
      from.Held? && to.Held? && to.inode == from.inode
      && (to.work.Releasing? || (to.work.Expired? && to.work.read.token.refresh.Some?))
    case RefreshError(_) => from.Held? && to == Held(from.inode, Releasing(Failed))
    case Exchange(_, _) => from.Held? && to.Held? && to.inode == from.inode && (to.work.Releasing? || to.work.Exchanged?)
    case Store(_) => from.Held? && to.Held? && to.inode == from.inode && to.work.Releasing?
    case StoreError(_) => from.Held? && to == Held(from.inode, Releasing(Failed))
    case ReadOwner(_) =>
      from.Held? && from.work.Releasing? && (to == Done(from.work.out) || to == Held(from.inode, Removing(from.work.out)))
    case RemoveLock(_) => from.Held? && from.work.Removing? && to == Done(from.work.out)
    case _ => false
  }

  lemma StepLeads(s: State, p: Pid, step: Step)
    requires p in s.procs && Enabled(s, step) && Actor(step) == Some(p) && !step.Begin? && !step.Crash?
    ensures p in Apply(s, step).procs && Leads(s.procs[p].phase, step, Apply(s, step).procs[p].phase)
  {
  }

  lemma {:induction false} RunGrows(start: State, trace: seq<Step>, step: Step)
    requires IsRun(start, trace) && Enabled(Exec(start, trace), step)
    ensures IsRun(start, trace + [step]) && Exec(start, trace + [step]) == Apply(Exec(start, trace), step)
    decreases |trace|
  {
    if trace == [] {
      RunCons(start, step, []);
      assert [] + [step] == [step] + [];
    } else {
      RunGrows(Apply(start, trace[0]), trace[1..], step);
      RunCons(start, trace[0], trace[1..] + [step]);
      assert [trace[0]] + (trace[1..] + [step]) == trace + [step];
    }
  }

  // ---------------------------------------------------------------- what a process can rely on meanwhile

  /** After the first k steps of the run p is between taking and releasing the lock. */
  ghost predicate HoldsAfter(start: State, trace: seq<Step>, k: nat, p: Pid) {
    k <= |trace| && IsRun(start, trace[..k]) && Holds(Exec(start, trace[..k]), p)
  }

  /** p holds in every state that a step of the run, from the given one on, is taken in. */
  ghost predicate HoldsThroughout(start: State, trace: seq<Step>, from: nat, p: Pid) {
    forall k :: from <= k < |trace| ==> HoldsAfter(start, trace, k, p)
  }

  /** An orderly run from the beginning: the hypotheses of mutual exclusion. */
  ghost predicate IsOrderly(start: State, trace: seq<Step>) {
    Init(start) && IsRun(start, trace) && Always(start, trace, Orderly)
  }

  /** From the given step on nobody but p ever holds. */
  ghost predicate IsAlone(start: State, trace: seq<Step>, from: nat, p: Pid) {
    forall k, q :: from <= k < |trace| && HoldsAfter(start, trace, k, q) ==> q == p
  }

  lemma HoldsOneMore(start: State, trace: seq<Step>, step: Step, from: nat, p: Pid)
    requires from <= |trace| && HoldsThroughout(start, trace, from, p)
    requires IsRun(start, trace) && Holds(Exec(start, trace), p)
    ensures HoldsThroughout(start, trace + [step], from, p)
  {
    var longer := trace + [step];
    forall k | from <= k < |longer| ensures HoldsAfter(start, longer, k, p) {
      if k < |trace| {
        assert HoldsAfter(start, trace, k, p);
        assert longer[..k] == trace[..k];
      } else {
        assert longer[..k] == trace;
      }
    }
  }

  lemma HoldsOn(start: State, first: seq<Step>, trace: seq<Step>, from: nat, p: Pid)
    requires first <= trace && HoldsThroughout(start, first, from, p) && HoldsThroughout(start, trace, |first|, p)
    ensures HoldsThroughout(start, trace, from, p)
  {
    forall k | from <= k < |trace| ensures HoldsAfter(start, trace, k, p) {
      if k < |first| {
        assert HoldsAfter(start, first, k, p);
        assert trace[..k] == first[..k];
      }
    }
  }

  lemma {:induction false} PrefixIsOrderly(s: State, trace: seq<Step>, k: nat)
    requires k <= |trace| && IsRun(s, trace) && Always(s, trace, Orderly)
    ensures IsRun(s, trace[..k]) && Always(s, trace[..k], Orderly)
    decreases |trace|
  {
    if k > 0 {
      PrefixIsOrderly(Apply(s, trace[0]), trace[1..], k - 1);
      RunCons(s, trace[0], trace[1..][..k - 1]);
      assert [trace[0]] + trace[1..][..k - 1] == trace[..k];
    }
  }

  /** A process that holds all along an orderly run holds alone. */
  lemma HolderIsAlone(start: State, trace: seq<Step>, from: nat, p: Pid)
    requires IsOrderly(start, trace) && HoldsThroughout(start, trace, from, p)
    ensures IsAlone(start, trace, from, p)
  {
    forall k, q | from <= k < |trace| && HoldsAfter(start, trace, k, q) ensures q == p {
      PrefixIsOrderly(start, trace, k);
      MutualExclusion(start, trace[..k]);
      assert HoldsAfter(start, trace, k, p);
    }
  }

  // ---------------------------------------------------------------- calls that nothing disturbs

  /** The next calls go through, and nobody else acts in between. */
  predicate Smooth(turns: seq<Turn>, calls: nat) {
    calls <= |turns| && forall i :: 0 <= i < calls ==> turns[i] == Turn([], Goes)
  }

  /** The server answers at once. */
  predicate Answered(turns: seq<Turn>, answer: Answer) {
    turns != [] && turns[0] == Turn([], Answers(answer))
  }

  /** A token is there and has not expired, as the program compares the two. */
  predicate IsFresh(token: Token, now: nat) {
    token.expiry.Some? ==> now + 10 <= token.expiry.value
  }

  /** The process alone has moved on. */
  predicate OnlyMoved(before: State, after: State, p: Pid, phase: Phase) {
    && p in before.procs && after.procs == before.procs[p := before.procs[p].(phase := phase)]
    && after.now == before.now
  }

  // ---------------------------------------------------------------- the program's calls

  /** The shared state, what is still to happen around the program, and what has happened so far. */
  class World {
    var s: State
    var turns: seq<Turn>
    ghost const start: State
    ghost var trace: seq<Step>

    constructor (s: State, turns: seq<Turn>)
      ensures Valid() && this.s == s == start && this.turns == turns && trace == []
    {
      this.s, this.turns, start, trace := s, turns, s, [];
    }

    ghost predicate Valid()
      reads this
    {
      IsRun(start, trace) && Exec(start, trace) == s
    }

    method Do(step: Step)
      requires Valid() && Enabled(s, step)
      modifies this`s, this`trace
      ensures Valid() && s == Apply(old(s), step) && trace == old(trace) + [step]
      ensures forall p, from: nat :: Holds(old(s), p) && from <= |old(trace)| && HoldsThroughout(start, old(trace), from, p) ==>
                HoldsThroughout(start, trace, from, p)
    {
      RunGrows(start, trace, step);
      forall p, from: nat | Holds(s, p) && from <= |trace| && HoldsThroughout(start, trace, from, p)
        ensures HoldsThroughout(start, trace + [step], from, p)
      {
        HoldsOneMore(start, trace, step, from, p);
      }
      s, trace := Apply(s, step), trace + [step];
    }

    /** The others' steps, those that are theirs and possible. */
    method LetOthers(p: Pid, steps: seq<Step>)
      requires Valid()
      modifies this`s, this`trace
      ensures Valid() && old(trace) <= trace && (steps == [] ==> s == old(s))
      ensures p in old(s).procs ==> p in s.procs && s.procs[p] == old(s).procs[p]
      ensures IsUnknown(old(s), p) ==> IsUnknown(s, p)
      ensures Holds(old(s), p) ==> HoldsThroughout(start, trace, |old(trace)|, p)
    {
      for i := 0 to |steps|
        invariant Valid() && old(trace) <= trace && (steps == [] ==> s == old(s))
        invariant p in old(s).procs ==> p in s.procs && s.procs[p] == old(s).procs[p]
        invariant IsUnknown(old(s), p) ==> IsUnknown(s, p)
        invariant Holds(old(s), p) ==> HoldsThroughout(start, trace, |old(trace)|, p)
      {
        if Actor(steps[i]) != Some(p) && Enabled(s, steps[i]) {
          OthersLeaveItAlone(s, steps[i], p);
          Do(steps[i]);
        }
      }
    }

    /** A call that happens. */
    method Take(p: Pid, step: Step)
      requires Valid() && p in s.procs && Actor(step) == Some(p) && Offers(s.procs[p].phase, step)
      modifies this`s, this`trace
      ensures Valid() && trace == old(trace) + [step] && p in s.procs
      ensures Enabled(old(s), step) && s == Apply(old(s), step)
      ensures Leads(old(s.procs[p].phase), step, s.procs[p].phase)
      ensures forall from: nat :: Holds(old(s), p) && from <= |old(trace)| && HoldsThroughout(start, old(trace), from, p) ==>
                HoldsThroughout(start, trace, from, p)
    {
      OfferedIsEnabled(s, p, step);
      StepLeads(s, p, step);
      Do(step);
    }

    /** One call of the program: the others first, then the call, its failure, or the end of the process. */
    method Call(p: Pid, step: Step, failure: Step) returns (alive: bool)
      requires Valid() && p in s.procs && Actor(step) == Actor(failure) == Some(p)
      requires Offers(s.procs[p].phase, step) && Offers(s.procs[p].phase, failure)
      modifies this`s, this`turns, this`trace
      ensures Valid() && old(trace) <= trace && p in s.procs
      ensures Holds(old(s), p) ==> HoldsThroughout(start, trace, |old(trace)|, p)
      ensures if !alive then s.procs[p].phase.Dead?
              else |turns| < |old(turns)| && (Leads(old(s.procs[p].phase), step, s.procs[p].phase)
                                             || Leads(old(s.procs[p].phase), failure, s.procs[p].phase))
      ensures Smooth(old(turns), 1) ==>
                alive && Enabled(old(s), step) && s == Apply(old(s), step) && turns == old(turns)[1..]
    {
      var fate := Killed;
      if turns != [] {
        LetOthers(p, turns[0].others);
        fate, turns := turns[0].fate, turns[1..];
      }
      alive := !fate.Killed?;
      if fate.Killed? {
        Do(Crash(p));
      } else {
        Take(p, if fate.Fails? then failure else step);
      }
    }

    /** The call to the authorization server. */
    method CallServer(p: Pid) returns (alive: bool)
      requires Valid() && Holds(s, p) && s.procs[p].phase.work.Expired? && s.procs[p].phase.work.read.token.refresh.Some?
      modifies this`s, this`turns, this`trace
      ensures Valid() && old(trace) <= trace && p in s.procs
      ensures HoldsThroughout(start, trace, |old(trace)|, p)
      ensures if !alive then s.procs[p].phase.Dead?
              else s.procs[p].phase.Held? && (s.procs[p].phase.work.Releasing? || s.procs[p].phase.work.Exchanged?)
      ensures forall answer :: Answered(old(turns), answer) && Enabled(old(s), Exchange(p, answer)) ==>
                alive && s == Apply(old(s), Exchange(p, answer)) && turns == old(turns)[1..]
    {
      var fate := Killed;
      if turns != [] {
        LetOthers(p, turns[0].others);
        fate, turns := turns[0].fate, turns[1..];
      }
      alive := !fate.Killed?;
      match fate
      case Killed => Do(Crash(p));
      case Answers(a) =>
        var step := if Enabled(s, Exchange(p, a)) then Exchange(p, a) else Exchange(p, Refused);
        StepLeads(s, p, step);
        Do(step);
      case _ =>
        StepLeads(s, p, RefreshError(p));
        Do(RefreshError(p));
    }
  }

  /** The lock file is created: the owner goes into it, or it is removed again. */
  method SignLock(w: World, p: Pid) returns (locked: bool)
    requires w.Valid() && Holds(w.s, p) && w.s.procs[p].phase.work.Created?
    modifies w`s, w`turns, w`trace
    ensures w.Valid() && old(w.trace) <= w.trace && p in w.s.procs
    ensures if locked then w.s.procs[p].phase.Held? && w.s.procs[p].phase.work.Locked?
            else w.s.procs[p].phase.Dead? || w.s.procs[p].phase == Done(Failed)
    ensures Smooth(old(w.turns), 1) ==>
              locked && Enabled(old(w.s), WriteOwner(p)) && w.s == Apply(old(w.s), WriteOwner(p))
              && w.turns == old(w.turns)[1..]
  {
    locked := w.Call(p, WriteOwner(p), WriteError(p));
    if locked && w.s.procs[p].phase.work.Undoing? {
      var alive := w.Call(p, Undo(p), Undo(p));
      locked := false;
    }
  }

  /** The lock is somebody's: give up past the deadline, take it over when it is stale, and try again. */
  method WaitForLock(w: World, p: Pid) returns (again: bool)
    requires w.Valid() && p in w.s.procs && w.s.procs[p].phase.Blocked?
    modifies w`s, w`turns, w`trace
    ensures w.Valid() && old(w.trace) <= w.trace && p in w.s.procs
    ensures if again then w.s.procs[p].phase.Trying? && |w.turns| < |old(w.turns)|
            else w.s.procs[p].phase.Dead? || w.s.procs[p].phase == Done(Failed)
  {
    again := w.Call(p, CheckDeadline(p), CheckDeadline(p));
    if !again || w.s.procs[p].phase.Done? {
      return false;
    }
    again := w.Call(p, Stat(p), Stat(p));
    if again && w.s.procs[p].phase.Renaming? {
      again := w.Call(p, Rename(p), Rename(p));
    }
  }

  /** lockTokenFile(): true with the lock taken and signed, false when the call is over. */
  method LockTokenFile(w: World, p: Pid) returns (locked: bool)
    requires w.Valid() && p in w.s.procs && w.s.procs[p].phase.Trying?
    modifies w`s, w`turns, w`trace
    ensures w.Valid() && old(w.trace) <= w.trace && p in w.s.procs
    ensures if locked then w.s.procs[p].phase.Held? && w.s.procs[p].phase.work.Locked?
            else w.s.procs[p].phase.Dead? || w.s.procs[p].phase == Done(Failed)
    ensures Smooth(old(w.turns), 2) && old(w.s).lock.None? ==>
              && locked && OnlyMoved(old(w.s), w.s, p, Held(old(w.s).nextInode, Locked))
              && w.s.lock == Some(LockFile(old(w.s).nextInode, Some(p), old(w.s).now))
              && w.s.file == old(w.s).file && w.s.server == old(w.s).server && w.turns == old(w.turns)[2..]
  {
    ghost var (turns, before) := (w.turns, w.s);
    while true
      invariant w.Valid() && old(w.trace) <= w.trace && p in w.s.procs && w.s.procs[p].phase.Trying?
      invariant Smooth(turns, 2) && before.lock.None? ==> w.turns == turns && w.s == before
      decreases |w.turns|
    {
      var alive := w.Call(p, Create(p), CreateError(p));
      if !alive || w.s.procs[p].phase.Done? {
        return false;
      }
      if w.s.procs[p].phase.Held? {
        locked := SignLock(w, p);
        return;
      }
      alive := WaitForLock(w, p);
      if !alive {
        return false;
      }
    }
  }

  /** The function that lockTokenFile() returns: remove the lock if it is still the caller's own. */
  method Unlock(w: World, p: Pid, ghost out: Outcome)
    requires w.Valid() && Holds(w.s, p) && w.s.procs[p].phase.work == Releasing(out)
    modifies w`s, w`turns, w`trace
    ensures w.Valid() && old(w.trace) <= w.trace && p in w.s.procs
    ensures w.s.procs[p].phase.Dead? || w.s.procs[p].phase == Done(out)
    ensures Smooth(old(w.turns), 2) ==>
              && OnlyMoved(old(w.s), w.s, p, Done(out)) && w.s.file == old(w.s).file && w.s.server == old(w.s).server
              && w.s.lock == (if old(w.s).lock.Some? && old(w.s).lock.value.owner == Some(p) then None else old(w.s).lock)
  {
    var alive := w.Call(p, ReadOwner(p), ReadOwner(p));
    if alive && w.s.procs[p].phase.Held? {
      alive := w.Call(p, RemoveLock(p), RemoveLock(p));
    }
  }

  /** The presented token was not used yet, and the new one brings its own, never issued before. */
  predicate IsNextToken(server: Server, presented: nat, tok: Token) {
    presented !in server.consumed && tok.refresh.Some? && tok.refresh.value !in server.issued
  }

  /** Expired, and the server will issue this token for it. */
  predicate MayRefresh(s: State, p: Pid, st: Stored, tok: Token) {
    && p in s.procs && s.file == Some(st) && st.home == s.procs[p].home && !IsFresh(st.token, s.now)
    && st.token.refresh.Some? && IsNextToken(s.server, st.token.refresh.value, tok)
  }

  /** Somebody else has refreshed meanwhile. */
  predicate MayReturn(s: State, p: Pid, st: Stored) {
    p in s.procs && s.file == Some(st) && st.home == s.procs[p].home && IsFresh(st.token, s.now)
  }

  /** The re-read, the answer and the store go through. */
  predicate RefreshGoes(turns: seq<Turn>, tok: Token) {
    Smooth(turns, 1) && Answered(turns[1..], Accepted(tok)) && Smooth(turns[2..], 1)
  }

  /** The token has expired: refresh it, and store what the server issues. */
  method ExchangeAndStore(w: World, p: Pid) returns (alive: bool)
    requires w.Valid() && Holds(w.s, p) && w.s.procs[p].phase.work.Expired?
    requires w.s.procs[p].phase.work.read.token.refresh.Some?
    modifies w`s, w`turns, w`trace
    ensures w.Valid() && old(w.trace) <= w.trace && p in w.s.procs
    ensures if alive then w.s.procs[p].phase.Held? && w.s.procs[p].phase.work.Releasing? else w.s.procs[p].phase.Dead?
    ensures HoldsThroughout(w.start, w.trace, |old(w.trace)|, p)
    ensures forall tok :: Answered(old(w.turns), Accepted(tok)) && Smooth(old(w.turns)[1..], 1)
                          && Enabled(old(w.s), Exchange(p, Accepted(tok))) ==>
              && OnlyMoved(old(w.s), w.s, p, Held(old(w.s).procs[p].phase.inode, Releasing(Returned(tok.access, true))))
              && w.s.file == Some(Stored(old(w.s).procs[p].phase.work.read.home, tok))
              && w.s.lock == old(w.s).lock && w.turns == old(w.turns)[2..]
  {
    ghost var from := |w.trace|;
    alive := w.CallServer(p);
    if alive && w.s.procs[p].phase.work.Exchanged? {
      ghost var exchanged := w.trace;
      alive := w.Call(p, Store(p), StoreError(p));
      HoldsOn(w.start, exchanged, w.trace, from, p);
    }
  }

  /**
   What is done under the lock: re-read, and when the token has expired refresh and store.
   As long as everybody is orderly, no other process holds the lock at any point of it.
   */
  method RefreshLocked(w: World, p: Pid) returns (alive: bool)
    requires w.Valid() && Holds(w.s, p) && w.s.procs[p].phase.work.Locked?
    modifies w`s, w`turns, w`trace
    ensures w.Valid() && old(w.trace) <= w.trace && p in w.s.procs
    ensures if alive then w.s.procs[p].phase.Held? && w.s.procs[p].phase.work.Releasing? else w.s.procs[p].phase.Dead?
    ensures HoldsThroughout(w.start, w.trace, |old(w.trace)|, p)
    ensures IsOrderly(w.start, w.trace) ==> IsAlone(w.start, w.trace, |old(w.trace)|, p)
    ensures forall st, tok :: MayRefresh(old(w.s), p, st, tok) && RefreshGoes(old(w.turns), tok) ==>
              && OnlyMoved(old(w.s), w.s, p, Held(old(w.s).procs[p].phase.inode, Releasing(Returned(tok.access, true))))
              && w.s.file == Some(Stored(st.home, tok)) && w.s.lock == old(w.s).lock && w.turns == old(w.turns)[3..]
    ensures forall st :: MayReturn(old(w.s), p, st) && Smooth(old(w.turns), 1) ==>
              && OnlyMoved(old(w.s), w.s, p, Held(old(w.s).procs[p].phase.inode, Releasing(Returned(st.token.access, false))))
              && w.s == old(w.s).(procs := w.s.procs) && w.turns == old(w.turns)[1..]
  {
    ghost var from := |w.trace|;
    alive := w.Call(p, ReadToken(p), RefreshError(p));
    if alive && w.s.procs[p].phase.work.Expired? {
      ghost var read := w.trace;
      alive := ExchangeAndStore(w, p);
      HoldsOn(w.start, read, w.trace, from, p);
    }
    if IsOrderly(w.start, w.trace) {
      HolderIsAlone(w.start, w.trace, from, p);
    }
  }

  /** All seven calls go through. */
  predicate AllGo(turns: seq<Turn>, tok: Token) {
    Smooth(turns, 2) && RefreshGoes(turns[2..], tok) && Smooth(turns[5..], 2)
  }

  /** refreshAPIToken() and refreshZitadelToken() */
  method Refresh(w: World, p: Pid)
    requires w.Valid() && p in w.s.procs && w.s.procs[p].phase.Trying?
    modifies w`s, w`turns, w`trace
    ensures w.Valid() && old(w.trace) <= w.trace && p in w.s.procs
    ensures w.s.procs[p].phase.Dead? || w.s.procs[p].phase.Done?
    ensures forall st, tok :: MayRefresh(old(w.s), p, st, tok) && old(w.s).lock.None? && AllGo(old(w.turns), tok) ==>
              && w.s.procs[p].phase == Done(Returned(tok.access, true))
              && w.s.file == Some(Stored(st.home, tok)) && w.s.lock.None?
  {
    ghost var turns := w.turns;
    var locked := LockTokenFile(w, p);
    if locked {
      assert |turns| >= 5 ==> turns[2..][3..] == turns[5..];
      var alive := RefreshLocked(w, p);
      if alive {
        Unlock(w, p, w.s.procs[p].phase.work.out);
      }
    }
  }

  /** Nobody else takes a step before the program's first read. */
  predicate StartsAtOnce(turns: seq<Turn>) {
    turns != [] ==> turns[0].others == []
  }

  /** Nobody holds the lock, the credential for that home has expired, and the server will issue this token for it. */
  predicate Refreshable(s: State, p: Pid, home: nat, st: Stored, tok: Token) {
    && s.lock.None? && s.file == Some(st) && st.home == home && !IsFresh(st.token, s.now)
    && st.token.refresh.Some? && IsNextToken(s.server, st.token.refresh.value, tok)
  }

  /** The read without the lock, which a fresh token ends. */
  method ReadFirst(w: World, p: Pid, home: nat) returns (ghost from: nat)
    requires w.Valid() && IsUnknown(w.s, p)
    modifies w`s, w`turns, w`trace
    ensures w.Valid() && old(w.trace) <= w.trace && p in w.s.procs
    ensures |old(w.trace)| <= from && |w.trace| == from + 1 && w.trace[from] == Begin(p, home)
    ensures w.s.procs[p].phase.Trying? || w.s.procs[p].phase.Done?
    ensures StartsAtOnce(old(w.turns)) ==>
              (match old(w.s).file
               case None => w.s.procs[p].phase == Done(Failed)
               case Some(st) =>
                 && (st.home != home ==> w.s.procs[p].phase == Done(Failed))
                 && (st.home == home && IsFresh(st.token, old(w.s).now) ==>
                       w.s.procs[p].phase == Done(Returned(st.token.access, false))))
    ensures forall st, tok :: StartsAtOnce(old(w.turns)) && Refreshable(old(w.s), p, home, st, tok) ==>
              w.s.procs[p].phase.Trying? && MayRefresh(w.s, p, st, tok) && w.s.lock.None?
    ensures w.turns == if old(w.turns) == [] then [] else old(w.turns)[1..]
  {
    if w.turns != [] {
      w.LetOthers(p, w.turns[0].others);
      w.turns := w.turns[1..];
    }
    from := |w.trace|;
    w.Do(Begin(p, home));
  }

  /**
   APIToken() and ZitadelToken(). Whatever the others do and wherever it is killed, what
   happened is a run of the transition system that ends with this process dead or done. A
   token that it returns was in the file for that home meanwhile. With nobody in the way an
   unexpired one that is in the file is returned at once, without a credential for that home
   the call fails, and an expired one is replaced by the one the server issues.
   */
  method GetToken(w: World, p: Pid, home: nat) returns (result: Option<Outcome>)
    requires w.Valid() && IsUnknown(w.s, p)
    modifies w`s, w`turns, w`trace
    ensures IsRun(w.start, w.trace) && Exec(w.start, w.trace) == w.s && old(w.trace) <= w.trace
    ensures p in w.s.procs
    ensures match result case Some(out) => w.s.procs[p].phase == Done(out) case None => w.s.procs[p].phase.Dead?
    ensures forall access, contacted :: result == Some(Returned(access, contacted)) ==>
              && FileOffered(w.start, w.trace, |old(w.trace)|, home, access, contacted)
              && (contacted ==> exists token: Token :: token.access == access && WasIssued(w.trace, |old(w.trace)|, p, token))
    ensures StartsAtOnce(old(w.turns)) ==>
              match old(w.s).file
              case None => result == Some(Failed)
              case Some(st) =>
                && (st.home != home ==> result == Some(Failed))
                && (st.home == home && (st.token.expiry.Some? ==> old(w.s).now + 10 <= st.token.expiry.value) ==>
                      result == Some(Returned(st.token.access, false)))
    ensures forall st, tok :: Refreshable(old(w.s), p, home, st, tok) && StartsAtOnce(old(w.turns))
                              && old(w.turns) != [] && AllGo(old(w.turns)[1..], tok) ==>
              && result == Some(Returned(tok.access, true))
              && w.s.file == Some(Stored(home, tok)) && w.s.lock.None?
  {
    ghost var from := ReadFirst(w, p, home);
    ghost var begun := w.trace;
    if w.s.procs[p].phase.Trying? {
      Refresh(w, p);
    }
    result := if w.s.procs[p].phase.Done? then Some(w.s.procs[p].phase.result) else None;
    assert begun[from] == Begin(p, home) && w.trace[from] == begun[from];
    if result.Some? && result.value.Returned? {
      WasStoredSince(w.start, w.trace, |old(w.trace)|, from, p, home, result.value.access, result.value.contacted);
    }
  }

  lemma WasStoredSince(
    s: State, trace: seq<Step>, first: nat, from: nat, p: Pid, home: nat, access: nat, contacted: bool)
    requires IsRun(s, trace) && first <= from < |trace| && trace[from] == Begin(p, home)
    requires p in Exec(s, trace).procs && Exec(s, trace).procs[p].phase == Done(Returned(access, contacted))
    ensures FileOffered(s, trace, first, home, access, contacted)
    ensures contacted ==> exists token: Token :: token.access == access && WasIssued(trace, first, p, token)
  {
    ReturnedTokenWasStored(s, trace, from, p, home, access, contacted);
    if contacted {
      var token: Token :| token.access == access && WasIssued(trace, from, p, token);
      assert WasIssued(trace, first, p, token);
    }
  }
}

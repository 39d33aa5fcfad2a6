/** Tests of one row take turns on its retained log: a registry of locks that drops
  * the ones nobody needs, and the log an attempt leaves behind. Any number of
  * attempts run at once, step by step in any order. */
module AttemptLock {
  import opened Wrappers
  import Text

  type Path = string
  type AttemptId = nat
  type LockId = nat

  datatype Log = Log(author: AttemptId, text: string)

  /** How a test ended: an error, no answer, or a measurement. */
  datatype Outcome = Failed(error: string) | Silent | Measured

  /** What an attempt does next. `Noting` reads the log to see whether `text` must be
    * filled in, `Filling` writes it, and `next` follows. */
  datatype Phase =
    | Waiting
    | Locked
    | Testing
    | Noting(text: string, next: Phase)
    | Filling(text: string, next: Phase)
    | Ended(outcome: Outcome)
    | Closing(outcome: Outcome)
    | Released
  {
    predicate Owns() {
      !Waiting? && !Released?
    }

    /** The log is this attempt's from here on. */
    predicate Cleared() {
      Owns() && !Locked?
    }
  }

  /** An attempt holds a handle on the lock of its row. `swept` tells whether the row's
    * logs were swept since it last read or wrote its own. */
  datatype Attempt = Attempt(path: Path, lock: LockId, phase: Phase, swept: bool)

  datatype State = State(
    locks: map<Path, LockId>, nextId: LockId, attempts: map<AttemptId, Attempt>,
    owners: map<LockId, AttemptId>, logs: map<Path, Log>)

  datatype Step =
    | Look(t: AttemptId, path: Path)
    | Acquire(t: AttemptId)
    | Clear(t: AttemptId)
    | GiveUp(t: AttemptId, error: string)
    | SpawnFails(t: AttemptId, measured: string, reason: string)
    | CoreEnds(t: AttemptId, measured: string, coreLog: Option<string>, outcome: Outcome)
    | ReadLog(t: AttemptId)
    | FillLog(t: AttemptId)
    | Conclude(t: AttemptId)
    | Release(t: AttemptId)
    | Leave(t: AttemptId)
    | Abandon(t: AttemptId)
    | Sweep(path: Path)

  // ---------- The registry ----------

  ghost predicate IsHeld(attempts: map<AttemptId, Attempt>, lock: LockId) {
    exists t | t in attempts :: attempts[t].lock == lock
  }

  /** Drop the locks only the registry still holds. */
  ghost function Pruned(locks: map<Path, LockId>, attempts: map<AttemptId, Attempt>): map<Path, LockId> {
    map p | p in locks && IsHeld(attempts, locks[p]) :: locks[p]
  }

  ghost function Looked(s: State, t: AttemptId, path: Path): State {
    var kept := Pruned(s.locks, s.attempts);
    if path in kept
    then s.(locks := kept, attempts := s.attempts[t := Attempt(path, kept[path], Waiting, false)])
    else s.(locks := kept[path := s.nextId], nextId := s.nextId + 1,
            attempts := s.attempts[t := Attempt(path, s.nextId, Waiting, false)])
  }

  /** The process-wide registry and the handles attempts hold on its locks. */
  class Registry {
    var locks: map<Path, LockId>
    var nextId: LockId
    var attempts: map<AttemptId, Attempt>

    constructor ()
      ensures locks == map[] && nextId == 0 && attempts == map[]
    {
      locks, nextId, attempts := map[], 0, map[];
    }

    ghost function Seen(s: State): State
      reads this
    {
      s.(locks := locks, nextId := nextId, attempts := attempts)
    }

    /** How many handles there are on a lock of the registry, the registry's included. */
    function StrongCount(lock: LockId): nat
      reads this
    {
      1 + |set t | t in attempts && attempts[t].lock == lock|
    }

    /** Prune, then look the row's lock up or make one. */
    method AttemptLock(t: AttemptId, path: Path) returns (slot: LockId)
      modifies this
      ensures forall s: State :: Seen(s) == Looked(old(Seen(s)), t, path)
      ensures t in attempts && slot == attempts[t].lock && path in locks && locks[path] == slot
    {
      ghost var was := locks;
      var paths := locks.Keys;
      while paths != {}
        invariant nextId == old(nextId) && attempts == old(attempts) && paths <= locks.Keys <= was.Keys
        invariant forall p | p in locks :: locks[p] == was[p]
        invariant forall p | p in was && p !in paths :: p in locks <==> IsHeld(attempts, was[p])
        decreases paths
      {
        var p :| p in paths;
        HeldIsCounted(locks[p]);
        if StrongCount(locks[p]) <= 1 {
          locks := locks - {p};
        }
        paths := paths - {p};
      }
      assert locks == Pruned(was, attempts);
      if path !in locks {
        locks := locks[path := nextId];
        nextId := nextId + 1;
      }
      slot := locks[path];
      attempts := attempts[t := Attempt(path, slot, Waiting, false)];
    }

    lemma HeldIsCounted(lock: LockId)
      ensures StrongCount(lock) > 1 <==> IsHeld(attempts, lock)
    {
      var holders := set t | t in attempts && attempts[t].lock == lock;
      if IsHeld(attempts, lock) {
        var t :| t in attempts && attempts[t].lock == lock;
        assert t in holders;
      }
      if holders != {} {
        var t :| t in holders;
        assert attempts[t].lock == lock;
      }
    }
  }

  // ---------- One step ----------

  ghost function Moved(s: State, t: AttemptId, phase: Phase): State
    requires t in s.attempts
  {
    s.(attempts := s.attempts[t := s.attempts[t].(phase := phase)])
  }

  ghost function Written(s: State, t: AttemptId, text: string): State
    requires t in s.attempts
  {
    s.(logs := s.logs[s.attempts[t].path := Log(t, text)])
  }

  ghost function Removed(s: State, path: Path): State {
    s.(logs := s.logs - {path})
  }

  ghost predicate ReadsBlank(s: State, path: Path) {
    path in s.logs ==> Text.IsBlank(s.logs[path].text)
  }

  ghost predicate Enabled(s: State, step: Step) {
    match step
    case Look(t, _) => t !in s.attempts
    case Sweep(_) => true
    case Acquire(t) => t in s.attempts && s.attempts[t].phase.Waiting? && s.attempts[t].lock !in s.owners
    case Clear(t) => t in s.attempts && s.attempts[t].phase.Locked?
    case GiveUp(t, _) => t in s.attempts && s.attempts[t].phase.Testing?
    case SpawnFails(t, _, _) => t in s.attempts && s.attempts[t].phase.Testing?
    case CoreEnds(t, _, _, _) => t in s.attempts && s.attempts[t].phase.Testing?
    case ReadLog(t) => t in s.attempts && s.attempts[t].phase.Noting?
    case FillLog(t) => t in s.attempts && s.attempts[t].phase.Filling?
    case Conclude(t) => t in s.attempts && s.attempts[t].phase.Ended?
    case Release(t) => t in s.attempts && s.attempts[t].phase.Closing?
    case Leave(t) => t in s.attempts && s.attempts[t].phase.Released?
    case Abandon(t) => t in s.attempts && !s.attempts[t].phase.Released?
  }

  /** The note of a failure ends its line. */
  function NoteOf(error: string): string {
    error + "\n"
  }

  /** What the core's own log becomes when it is kept. */
  function Kept(measured: string, coreLog: string, outcome: Outcome): string {
    measured + "\n" + if outcome.Failed? && Text.IsBlank(coreLog) then outcome.error else coreLog
  }

  /** A kept log starts with what was measured, and ends with the core's own log unless that
    * is blank and the test failed: then it ends with the error. */
  lemma KeptEndsWith(measured: string, coreLog: string, outcome: Outcome)
    ensures var kept := Kept(measured, coreLog, outcome);
            && measured + "\n" <= kept
            && kept[|measured| + 1..]
               == if outcome.Failed? && Text.IsBlank(coreLog) then outcome.error else coreLog
  {}

  ghost function After(s: State, step: Step): State
    requires Enabled(s, step)
  {
    match step
    case Look(t, path) => Looked(s, t, path)
    case Sweep(path) =>
      Removed(s, path).(attempts := map t | t in s.attempts ::
        if s.attempts[t].path == path then s.attempts[t].(swept := true) else s.attempts[t])
    case Acquire(t) => Moved(s, t, Locked).(owners := s.owners[s.attempts[t].lock := t])
    case Clear(t) => Moved(Removed(s, s.attempts[t].path), t, Testing)
    case GiveUp(t, error) => Moved(s, t, Ended(Failed(error)))
    case SpawnFails(t, measured, reason) =>
      Moved(s, t, Noting(NoteOf(measured + "\n" + reason), Ended(Failed(reason))))
    case CoreEnds(t, measured, coreLog, outcome) =>
      var ended := Moved(s, t, Ended(outcome));
      if outcome.Measured? then Removed(ended, s.attempts[t].path)
      else if coreLog.Some? then Written(ended, t, Kept(measured, coreLog.value, outcome))
      else ended
    case ReadLog(t) =>
      var a := s.attempts[t];
      var phase := if ReadsBlank(s, a.path) then Filling(a.phase.text, a.phase.next) else a.phase.next;
      s.(attempts := s.attempts[t := a.(phase := phase, swept := false)])
    case FillLog(t) =>
      var a := s.attempts[t];
      Written(s.(attempts := s.attempts[t := a.(phase := a.phase.next, swept := false)]), t, a.phase.text)
    case Conclude(t) =>
      var outcome := s.attempts[t].phase.outcome;
      Moved(s, t, if outcome.Failed? then Noting(NoteOf(outcome.error), Closing(outcome)) else Closing(outcome))
    case Release(t) => Moved(s, t, Released).(owners := s.owners - {s.attempts[t].lock})
    case Leave(t) => s.(attempts := s.attempts - {t})
    // A test dropped midway, wherever it waits: the lock goes with it, the log stays.
    case Abandon(t) =>
      s.(attempts := s.attempts - {t},
         owners := if s.attempts[t].phase.Owns() then s.owners - {s.attempts[t].lock} else s.owners)
  }

  const START := State(map[], 0, map[], map[], map[])

  ghost predicate IsRun(states: seq<State>, steps: seq<Step>) {
    && |states| == |steps| + 1 && states[0] == START
    && forall i | 0 <= i < |steps| :: Enabled(states[i], steps[i]) && states[i + 1] == After(states[i], steps[i])
  }

  // ---------- What every step keeps ----------

  /** The registry knows the lock of every attempt, one lock per row. */
  ghost predicate LocksAgree(s: State) {
    && (forall t | t in s.attempts ::
          s.attempts[t].path in s.locks && s.locks[s.attempts[t].path] == s.attempts[t].lock)
    && (forall p | p in s.locks :: s.locks[p] < s.nextId)
    && (forall p, q | p in s.locks && q in s.locks && s.locks[p] == s.locks[q] :: p == q)
  }

  /** A lock's owner is an attempt that owns it, and an attempt past the wait is one. */
  ghost predicate OwnersAgree(s: State) {
    && (forall l | l in s.owners ::
          s.owners[l] in s.attempts && s.attempts[s.owners[l]].lock == l && s.attempts[s.owners[l]].phase.Owns())
    && (forall t | t in s.attempts && s.attempts[t].phase.Owns() ::
          s.attempts[t].lock in s.owners && s.owners[s.attempts[t].lock] == t)
  }

  /** A note leads where the program goes, and the closing note is the error's. */
  ghost predicate NoteLeadsOn(phase: Phase) {
    (phase.Noting? || phase.Filling?) ==>
      && (phase.next.Ended?
          || (phase.next.Closing? && phase.next.outcome.Failed? && phase.text == NoteOf(phase.next.outcome.error)))
      && (phase.next.Ended? ==> phase.next.outcome.Failed?)
  }

  ghost predicate LogIsOwn(s: State, t: AttemptId)
    requires t in s.attempts
  {
    var a := s.attempts[t];
    && (a.phase.Cleared() && a.path in s.logs ==> s.logs[a.path].author == t)
    && NoteLeadsOn(a.phase)
    && ((a.phase.Ended? || a.phase.Closing?) && a.phase.outcome.Measured? ==> a.path !in s.logs)
    && (a.phase.Closing? && a.phase.outcome.Failed? && !a.swept ==>
          !ReadsBlank(s, a.path) || Text.IsBlank(a.phase.outcome.error))
    && (a.phase.Closing? && a.phase.outcome.Failed? && a.swept ==> a.path !in s.logs)
  }

  ghost predicate LogsAreOwn(s: State) {
    forall t | t in s.attempts :: LogIsOwn(s, t)
  }

  lemma PruneKeepsLocks(s: State)
    requires LocksAgree(s)
    ensures LocksAgree(s.(locks := Pruned(s.locks, s.attempts)))
  {
    forall u | u in s.attempts ensures s.attempts[u].path in Pruned(s.locks, s.attempts) {
      assert IsHeld(s.attempts, s.attempts[u].lock);
    }
  }

  lemma LookKeepsLocks(s: State, t: AttemptId, path: Path)
    requires LocksAgree(s) && t !in s.attempts
    ensures LocksAgree(Looked(s, t, path))
  {
    PruneKeepsLocks(s);
    JoinKeepsLocks(s.(locks := Pruned(s.locks, s.attempts)), t, path);
  }

  lemma JoinKeepsLocks(s: State, t: AttemptId, path: Path)
    requires LocksAgree(s) && t !in s.attempts
    ensures path in s.locks
            ==> LocksAgree(s.(attempts := s.attempts[t := Attempt(path, s.locks[path], Waiting, false)]))
    ensures path !in s.locks ==> LocksAgree(s.(locks := s.locks[path := s.nextId], nextId := s.nextId + 1,
                                              attempts := s.attempts[t := Attempt(path, s.nextId, Waiting, false)]))
  {}

  ghost predicate SameHandles(s: State, s': State) {
    && s'.locks == s.locks && s'.nextId == s.nextId && s'.attempts.Keys <= s.attempts.Keys
    && forall t | t in s'.attempts :: s'.attempts[t].path == s.attempts[t].path
            && s'.attempts[t].lock == s.attempts[t].lock
  }

  /** Only a lookup changes the registry, the rows or the handles. */
  lemma StepKeepsHandles(s: State, step: Step)
    requires Enabled(s, step) && !step.Look?
    ensures SameHandles(s, After(s, step))
  {}

  lemma SameHandlesKeepLocks(s: State, s': State)
    requires LocksAgree(s) && SameHandles(s, s')
    ensures LocksAgree(s')
  {}

  lemma StepKeepsLocks(s: State, step: Step)
    requires Enabled(s, step) && LocksAgree(s)
    ensures LocksAgree(After(s, step))
  {
    if step.Look? {
      LookKeepsLocks(s, step.t, step.path);
    } else {
      StepKeepsHandles(s, step);
      SameHandlesKeepLocks(s, After(s, step));
    }
  }

  lemma LookKeepsOwners(s: State, t: AttemptId, path: Path)
    requires LocksAgree(s) && OwnersAgree(s) && t !in s.attempts
    ensures OwnersAgree(Looked(s, t, path))
  {}

  lemma AcquireKeepsOwners(s: State, t: AttemptId)
    requires OwnersAgree(s) && Enabled(s, Acquire(t))
    ensures OwnersAgree(After(s, Acquire(t)))
  {}

  lemma ReleaseKeepsOwners(s: State, t: AttemptId)
    requires OwnersAgree(s) && Enabled(s, Release(t))
    ensures OwnersAgree(After(s, Release(t)))
  {}

  lemma AbandonKeepsOwners(s: State, t: AttemptId)
    requires OwnersAgree(s) && Enabled(s, Abandon(t))
    ensures OwnersAgree(After(s, Abandon(t)))
  {}

  /** A step that moves an owner on while it keeps its lock. */
  lemma MoveKeepsOwners(s: State, t: AttemptId, a: Attempt)
    requires OwnersAgree(s) && t in s.attempts && s.attempts[t].phase.Owns() && a.phase.Owns()
            && a.lock == s.attempts[t].lock
    ensures OwnersAgree(s.(attempts := s.attempts[t := a]))
  {}

  lemma TestKeepsOwners(s: State, step: Step)
    requires Enabled(s, step) && OwnersAgree(s) && (step.Clear? || step.GiveUp? || step.SpawnFails? || step.CoreEnds?)
    ensures OwnersAgree(After(s, step))
  {
    MoveKeepsOwners(s, step.t, After(s, step).attempts[step.t]);
  }

  lemma NoteKeepsOwners(s: State, step: Step)
    requires Enabled(s, step) && OwnersAgree(s) && LogsAreOwn(s) && (step.ReadLog? || step.FillLog? || step.Conclude?)
    ensures OwnersAgree(After(s, step))
  {
    assert LogIsOwn(s, step.t);
    MoveKeepsOwners(s, step.t, After(s, step).attempts[step.t]);
  }

  lemma StepKeepsOwners(s: State, step: Step)
    requires Enabled(s, step) && LocksAgree(s) && OwnersAgree(s) && LogsAreOwn(s)
    ensures OwnersAgree(After(s, step))
  {
    match step {
      case Look(t, path) => LookKeepsOwners(s, t, path);
      case Acquire(t) => AcquireKeepsOwners(s, t);
      case Release(t) => ReleaseKeepsOwners(s, t);
      case Sweep(_) =>
      case Leave(_) =>
      case Abandon(t) => AbandonKeepsOwners(s, t);
      case Clear(_) => TestKeepsOwners(s, step);
      case GiveUp(_, _) => TestKeepsOwners(s, step);
      case SpawnFails(_, _, _) => TestKeepsOwners(s, step);
      case CoreEnds(_, _, _, _) => TestKeepsOwners(s, step);
      case Conclude(_) => NoteKeepsOwners(s, step);
      case ReadLog(_) => NoteKeepsOwners(s, step);
      case FillLog(_) => NoteKeepsOwners(s, step);
    }
  }

  lemma OneOwner(s: State, t: AttemptId, u: AttemptId)
    requires LocksAgree(s) && OwnersAgree(s) && t in s.attempts && u in s.attempts
    requires s.attempts[t].path == s.attempts[u].path && s.attempts[t].phase.Owns() && s.attempts[u].phase.Owns()
    ensures t == u
  {}

  /** Only the owner of a row touches its log, sweeps aside. */
  lemma OthersKeepLog(s: State, step: Step, t: AttemptId)
    requires Enabled(s, step) && LocksAgree(s) && OwnersAgree(s) && !step.Sweep? && step.t != t
    requires t in s.attempts && s.attempts[t].phase.Owns()
    ensures var s', p := After(s, step), s.attempts[t].path;
            (p in s'.logs <==> p in s.logs) && (p in s.logs ==> s'.logs[p] == s.logs[p])
  {
    var u := step.t;
    if u in s.attempts && s.attempts[u].phase.Owns() && s.attempts[u].path == s.attempts[t].path {
      OneOwner(s, t, u);
    }
  }

  lemma OthersKeepAttempt(s: State, step: Step, t: AttemptId)
    requires Enabled(s, step) && !step.Sweep? && step.t != t
    ensures t in After(s, step).attempts <==> t in s.attempts
    ensures t in s.attempts ==> After(s, step).attempts[t] == s.attempts[t]
  {}

  lemma {:induction false} BlankNote(e: string)
    ensures Text.IsBlank(NoteOf(e)) <==> Text.IsBlank(e)
  {
    if e == "" {
      assert NoteOf(e)[0] == '\n' && NoteOf(e)[1..] == "";
    } else {
      assert NoteOf(e)[1..] == NoteOf(e[1..]);
      BlankNote(e[1..]);
    }
  }

  lemma OwnStepKeepsLog(s: State, step: Step)
    requires Enabled(s, step) && !step.Sweep? && LogsAreOwn(s) && step.t in After(s, step).attempts
    ensures LogIsOwn(After(s, step), step.t)
  {
    var t := step.t;
    if t in s.attempts {
      assert LogIsOwn(s, t);
    }
    match step {
      case FillLog(_) =>
        var phase := s.attempts[t].phase;
        if phase.next.Closing? {
          BlankNote(phase.next.outcome.error);
        }
      case _ =>
    }
  }

  lemma SweepKeepsLog(s: State, path: Path, t: AttemptId)
    requires LogsAreOwn(s) && t in s.attempts
    ensures LogIsOwn(After(s, Sweep(path)), t)
  {
    assert LogIsOwn(s, t);
  }

  lemma StepKeepsLogs(s: State, step: Step)
    requires Enabled(s, step) && LocksAgree(s) && OwnersAgree(s) && LogsAreOwn(s)
    ensures LogsAreOwn(After(s, step))
  {
    forall t | t in After(s, step).attempts ensures LogIsOwn(After(s, step), t) {
      match step {
        case Sweep(path) => SweepKeepsLog(s, path, t);
        case _ =>
          if step.t == t {
            OwnStepKeepsLog(s, step);
          } else {
            OtherStepKeepsLog(s, step, t);
          }
      }
    }
  }

  lemma OtherStepKeepsLog(s: State, step: Step, t: AttemptId)
    requires Enabled(s, step) && LocksAgree(s) && OwnersAgree(s) && LogsAreOwn(s)
    requires !step.Sweep? && step.t != t && t in After(s, step).attempts
    ensures LogIsOwn(After(s, step), t)
  {
    OthersKeepAttempt(s, step, t);
    assert LogIsOwn(s, t);
    if s.attempts[t].phase.Owns() {
      OthersKeepLog(s, step, t);
    }
  }

  ghost predicate Consistent(s: State) {
    LocksAgree(s) && OwnersAgree(s) && LogsAreOwn(s)
  }

  lemma StepKeeps(s: State, step: Step)
    requires Enabled(s, step) && Consistent(s)
    ensures Consistent(After(s, step))
  {
    StepKeepsLocks(s, step);
    StepKeepsOwners(s, step);
    StepKeepsLogs(s, step);
  }

  // ---------- Over every run ----------

  lemma {:induction false} RunsAreConsistent(states: seq<State>, steps: seq<Step>, i: nat)
    requires IsRun(states, steps) && i < |states|
    ensures Consistent(states[i])
  {
    if i > 0 {
      RunsAreConsistent(states, steps, i - 1);
      StepKeeps(states[i - 1], steps[i - 1]);
    }
  }

  /** However lookups, prunes, waits, holds and drops interleave, the attempts on one
    * row share one lock, so at most one of them owns the row. */
  lemma MutualExclusion(states: seq<State>, steps: seq<Step>, i: nat, t: AttemptId, u: AttemptId)
    requires IsRun(states, steps) && i < |states|
    requires t in states[i].attempts && u in states[i].attempts
            && states[i].attempts[t].path == states[i].attempts[u].path
    ensures states[i].attempts[t].lock == states[i].attempts[u].lock
    ensures states[i].attempts[t].phase.Owns() && states[i].attempts[u].phase.Owns() ==> t == u
  {
    RunsAreConsistent(states, steps, i);
  }

  /** Attempts on different rows never wait for each other. */
  lemma RowsAreIndependent(states: seq<State>, steps: seq<Step>, i: nat, t: AttemptId, u: AttemptId)
    requires IsRun(states, steps) && i < |states|
    requires t in states[i].attempts && u in states[i].attempts
            && states[i].attempts[t].path != states[i].attempts[u].path
    ensures states[i].attempts[t].lock != states[i].attempts[u].lock
  {
    RunsAreConsistent(states, steps, i);
  }

  /** Some attempt is on the row. */
  ghost predicate IsTested(s: State, p: Path) {
    exists t | t in s.attempts :: s.attempts[t].path == p
  }

  /** A lookup leaves a lock for exactly the rows that some attempt is on. */
  lemma RegistryIsPruned(states: seq<State>, steps: seq<Step>, i: nat, p: Path)
    requires IsRun(states, steps) && i < |steps| && steps[i].Look?
    ensures p in states[i + 1].locks <==> IsTested(states[i + 1], p)
  {
    RunsAreConsistent(states, steps, i);
    RunsAreConsistent(states, steps, i + 1);
    var s, s' := states[i], states[i + 1];
    var t := steps[i].t;
    assert s'.attempts[t].path == steps[i].path;
    if p in s'.locks && p != steps[i].path {
      assert p in Pruned(s.locks, s.attempts);
      var u :| u in s.attempts && s.attempts[u].lock == s.locks[p];
      assert s'.attempts[u].path == p;
    }
  }

  /** When an attempt gives the row up, the log there is its own: none after a
    * measurement, and after a failure with something to say one with something to
    * read, exactly unless the row's logs were swept since it was last seen. */
  lemma LogTellsOfTheAttempt(states: seq<State>, steps: seq<Step>, i: nat)
    requires IsRun(states, steps) && i < |steps| && steps[i].Release?
    ensures var s, a := states[i], states[i].attempts[steps[i].t];
            && (a.path in s.logs ==> s.logs[a.path].author == steps[i].t)
            && (a.phase.outcome.Measured? ==> a.path !in s.logs)
            && (a.phase.outcome.Failed? && !Text.IsBlank(a.phase.outcome.error) ==>
                  (a.path in s.logs && !Text.IsBlank(s.logs[a.path].text) <==> !a.swept))
  {
    RunsAreConsistent(states, steps, i);
    assert LogIsOwn(states[i], steps[i].t);
  }

  // ---------- What the log says ----------

  /** The state after an attempt has taken these steps in turn, if it can. */
  ghost function Ran(s: State, steps: seq<Step>): Option<State>
    decreases |steps|
  {
    if steps == [] then Some(s)
    else if Enabled(s, steps[0]) then Ran(After(s, steps[0]), steps[1..])
    else None
  }

  lemma RanNext(s: State, step: Step, rest: seq<Step>)
    requires Enabled(s, step)
    ensures Ran(s, [step] + rest) == Ran(After(s, step), rest)
  {
    assert ([step] + rest)[1..] == rest;
  }

  /** After those steps the attempt is at `phase`, and its row's log is its own with `text`,
    * or there is none. */
  ghost predicate LeavesLog(s: State, t: AttemptId, steps: seq<Step>, phase: Phase, text: Option<string>)
    requires t in s.attempts
  {
    var path := s.attempts[t].path;
    match Ran(s, steps)
    case Some(end) =>
      && t in end.attempts && end.attempts[t].path == path && end.attempts[t].phase == phase
      && if text.Some? then path in end.logs && end.logs[path] == Log(t, text.value) else path !in end.logs
    case None => false
  }

  /** What a failure says when the log at `path` is `was`: that log, or the error where it is
    * blank. */
  function Explained(was: Option<string>, error: string): string {
    if was.Some? && !Text.IsBlank(was.value) then was.value else error + "\n"
  }

  ghost predicate HasLog(s: State, t: AttemptId, text: Option<string>)
    requires t in s.attempts
  {
    var path := s.attempts[t].path;
    if text.Some? then path in s.logs && s.logs[path] == Log(t, text.value) else path !in s.logs
  }

  /** The steps by which a failed attempt explains itself. */
  function Explains(t: AttemptId, blank: bool): seq<Step> {
    if blank then [Conclude(t), ReadLog(t), FillLog(t)] else [Conclude(t), ReadLog(t)]
  }

  lemma FailureExplains(s: State, t: AttemptId, error: string, was: Option<string>)
    requires t in s.attempts && s.attempts[t].phase == Ended(Failed(error)) && HasLog(s, t, was)
    ensures LeavesLog(s, t, Explains(t, was.None? || Text.IsBlank(was.value)), Closing(Failed(error)),
                      Some(Explained(was, error)))
  {
    var concluded := After(s, Conclude(t));
    var read := After(concluded, ReadLog(t));
    var blank := was.None? || Text.IsBlank(was.value);
    assert read.attempts[t].phase
           == if blank then Filling(error + "\n", Closing(Failed(error))) else Closing(Failed(error));
    if blank {
      RanNext(read, FillLog(t), []);
      RanNext(concluded, ReadLog(t), [FillLog(t)]);
      RanNext(s, Conclude(t), [ReadLog(t), FillLog(t)]);
    } else {
      RanNext(concluded, ReadLog(t), []);
      RanNext(s, Conclude(t), [ReadLog(t)]);
    }
  }

  /** A test that fails before its core starts leaves what was to be measured and the reason,
    * one below the other. */
  lemma SpawnFailureLeaves(s: State, t: AttemptId, measured: string, reason: string)
    requires t in s.attempts && s.attempts[t].phase.Locked?
    ensures var steps := [Clear(t), SpawnFails(t, measured, reason), ReadLog(t), FillLog(t)];
            LeavesLog(s, t, steps, Ended(Failed(reason)), Some(measured + "\n" + reason + "\n"))
  {
    var cleared := After(s, Clear(t));
    var failed := After(cleared, SpawnFails(t, measured, reason));
    var read := After(failed, ReadLog(t));
    RanNext(read, FillLog(t), []);
    RanNext(failed, ReadLog(t), [FillLog(t)]);
    RanNext(cleared, SpawnFails(t, measured, reason), [ReadLog(t), FillLog(t)]);
    RanNext(s, Clear(t), [SpawnFails(t, measured, reason), ReadLog(t), FillLog(t)]);
  }

  /** A core that ends: no log after a measurement; otherwise what was measured and the core's
    * own log, or the error in place of a blank one; none where the core left none. */
  lemma CoreLeaves(s: State, t: AttemptId, measured: string, coreLog: Option<string>, outcome: Outcome)
    requires t in s.attempts && s.attempts[t].phase.Locked?
    ensures LeavesLog(s, t, [Clear(t), CoreEnds(t, measured, coreLog, outcome)], Ended(outcome),
                      if outcome.Measured? || coreLog.None? then None
                      else if outcome.Failed? && Text.IsBlank(coreLog.value) then Some(measured + "\n" + outcome.error)
                      else Some(measured + "\n" + coreLog.value))
  {
    var cleared := After(s, Clear(t));
    RanNext(cleared, CoreEnds(t, measured, coreLog, outcome), []);
    RanNext(s, Clear(t), [CoreEnds(t, measured, coreLog, outcome)]);
  }

  /** A test that is given up leaves nothing until it explains itself. */
  lemma GivingUpLeaves(s: State, t: AttemptId, error: string)
    requires t in s.attempts && s.attempts[t].phase.Locked?
    ensures LeavesLog(s, t, [Clear(t), GiveUp(t, error)], Ended(Failed(error)), None)
  {
    RanNext(After(s, Clear(t)), GiveUp(t, error), []);
    RanNext(s, Clear(t), [GiveUp(t, error)]);
  }

  /** Without a failure there is nothing to explain. */
  lemma NothingToExplain(s: State, t: AttemptId, outcome: Outcome, was: Option<string>)
    requires t in s.attempts && s.attempts[t].phase == Ended(outcome) && !outcome.Failed? && HasLog(s, t, was)
    ensures LeavesLog(s, t, [Conclude(t)], Closing(outcome), was)
  {
    RanNext(s, Conclude(t), []);
    assert [Conclude(t)] + [] == [Conclude(t)];
  }

  /** One attempt on one row. */
  function Alone(row: Path, phase: Phase, swept: bool, owners: map<LockId, AttemptId>, logs: map<Path, Log>): State {
    State(map[row := 0], 1, map[0 := Attempt(row, 0, phase, swept)], owners, logs)
  }

  ghost predicate Leads(s: State, step: Step, s': State) {
    Enabled(s, step) && s' == After(s, step)
  }

  lemma FailingSteps(row: Path, error: string)
    ensures Leads(START, Look(0, row), Alone(row, Waiting, false, map[], map[]))
    ensures Leads(Alone(row, Waiting, false, map[], map[]), Acquire(0), Alone(row, Locked, false, map[0 := 0], map[]))
    ensures Leads(Alone(row, Locked, false, map[0 := 0], map[]), Clear(0),
                  Alone(row, Testing, false, map[0 := 0], map[]))
    ensures Leads(Alone(row, Testing, false, map[0 := 0], map[]), GiveUp(0, error),
              Alone(row, Ended(Failed(error)), false, map[0 := 0], map[]))
  {
    assert Pruned(START.locks, START.attempts) == map[];
  }

  lemma NotingSteps(row: Path, error: string)
    ensures var note, closing := NoteOf(error), Closing(Failed(error));
            && Leads(Alone(row, Ended(Failed(error)), false, map[0 := 0], map[]), Conclude(0),
                 Alone(row, Noting(note, closing), false, map[0 := 0], map[]))
            && Leads(Alone(row, Noting(note, closing), false, map[0 := 0], map[]), ReadLog(0),
                 Alone(row, Filling(note, closing), false, map[0 := 0], map[]))
            && Leads(Alone(row, Filling(note, closing), false, map[0 := 0], map[]), FillLog(0),
                 Alone(row, closing, false, map[0 := 0], map[row := Log(0, note)]))
  {}

  lemma SweepingSteps(row: Path, error: string)
    ensures var note, closing := NoteOf(error), Closing(Failed(error));
            && Leads(Alone(row, closing, false, map[0 := 0], map[row := Log(0, note)]), Sweep(row),
                 Alone(row, closing, true, map[0 := 0], map[]))
            && Leads(Alone(row, closing, true, map[0 := 0], map[]), Release(0),
                     Alone(row, Released, true, map[], map[]))
  {}

  /** The exception happens: a row whose logs are swept before its failed test lets go
    * of it is left without the test's log. */
  lemma SweptLogExample(row: Path, error: string) returns (states: seq<State>, steps: seq<Step>)
    ensures IsRun(states, steps) && steps != [] && steps[|steps| - 1] == Release(0)
    ensures states[|steps| - 1] == Alone(row, Closing(Failed(error)), true, map[0 := 0], map[])
  {
    FailingSteps(row, error);
    NotingSteps(row, error);
    SweepingSteps(row, error);
    var own, note, closing := map[0 := 0], NoteOf(error), Closing(Failed(error));
    steps := [Look(0, row), Acquire(0), Clear(0), GiveUp(0, error), Conclude(0), ReadLog(0), FillLog(0), Sweep(row),
              Release(0)];
    states := [
      START, Alone(row, Waiting, false, map[], map[]), Alone(row, Locked, false, own, map[]),
      Alone(row, Testing, false, own, map[]), Alone(row, Ended(Failed(error)), false, own, map[]),
      Alone(row, Noting(note, closing), false, own, map[]), Alone(row, Filling(note, closing), false, own, map[]),
      Alone(row, closing, false, own, map[row := Log(0, note)]), Alone(row, closing, true, own, map[]),
      Alone(row, Released, true, map[], map[])];
    forall i | 0 <= i < |steps| ensures Leads(states[i], steps[i], states[i + 1]) {}
  }
}

/** Locks: a semaphore of value 1 and a holder that is recorded only after P has returned. The steps of
    Acquire and Release are separate, so a context switch may fall between any two of them. */
module Locks {
  import opened Semaphores

  /** Where a thread is: outside, inside P, between P and recording itself as holder, holding, between
      clearing the holder and V. */
  datatype LockPc = Out | Want | Got | Hold | Freed

  datatype LockState = LockState(sem: SemState, holder: Option<Tid>, pc: seq<LockPc>)

  datatype LockAction = Begin | Test | SetHolder | ClearHolder | Signal

  function NewLock(threads: nat): (l: LockState)
    ensures l.sem == NewSem(1) && l.holder == None && |l.pc| == threads
    ensures forall t: Tid :: t < threads ==> l.pc[t] == Out
  {
    LockState(NewSem(1), None, seq(threads, i => Out))
  }

  predicate AcquireStep(a: LockAction) { a == Begin || a == Test || a == SetHolder }

  /** The steps thread `t` can take; a thread that sleeps on the semaphore has none. */
  predicate LockEnabled(l: LockState, t: Tid, a: LockAction) {
    t < |l.pc| &&
    match a
    case Begin => l.pc[t] == Out
    case Test => l.pc[t] == Want && t !in l.sem.queue
    case SetHolder => l.pc[t] == Got
    case ClearHolder => l.pc[t] == Hold
    case Signal => l.pc[t] == Freed
  }

  function LockDo(l: LockState, t: Tid, a: LockAction): LockState
    requires LockEnabled(l, t, a)
  {
    match a
    case Begin => l.(pc := l.pc[t := Want])
    case Test =>
      var (sem, available) := TryP(l.sem, t);
      l.(sem := sem, pc := if available then l.pc[t := Got] else l.pc)
    case SetHolder => l.(holder := Some(t), pc := l.pc[t := Hold])
    case ClearHolder => l.(holder := None, pc := l.pc[t := Freed])
    case Signal => l.(sem := Post(l.sem).0, pc := l.pc[t := Out])
  }

  predicate PastP(p: LockPc) { p == Got || p == Hold || p == Freed }

  /** The threads past Acquire's P and before Release's V. */
  function Owners(pc: seq<LockPc>): set<Tid> {
    set t: Tid | t < |pc| && PastP(pc[t])
  }

  /** Whoever sleeps on the semaphore or was woken there is inside P. */
  ghost predicate SleepersWant(l: LockState) {
    && (forall t :: t in l.sem.queue ==> t < |l.pc| && l.pc[t] == Want)
    && (forall t :: t in l.sem.woken ==> t < |l.pc| && l.pc[t] == Want)
  }

  /** Either the semaphore has its unit and nobody is past P, or it has none and exactly one thread is. */
  ghost predicate UnitOrOne(l: LockState) {
    && 0 <= l.sem.value <= 1
    && (l.sem.value == 0 <==> exists t: Tid :: t < |l.pc| && PastP(l.pc[t]))
    && (forall t: Tid, u: Tid :: t < |l.pc| && u < |l.pc| && PastP(l.pc[t]) && PastP(l.pc[u]) ==> t == u)
  }

  ghost predicate HolderHolds(l: LockState) {
    && (forall t: Tid :: t < |l.pc| && l.pc[t] == Hold ==> l.holder == Some(t))
    && (l.holder.Some? ==> l.holder.value < |l.pc| && l.pc[l.holder.value] == Hold)
  }

  ghost predicate LockOk(l: LockState) {
    SemOk(l.sem) && l.sem.initial == 1 && SleepersWant(l) && UnitOrOne(l) && HolderHolds(l)
  }

  lemma NewLockOk(threads: nat)
    ensures LockOk(NewLock(threads))
  {
    var l := NewLock(threads);
    hide NewLock, SemOk, SleepersWant, UnitOrOne, HolderHolds;
    NewSemOk(1);
    NobodySleeps(l);
    NobodyOwns(l);
    NobodyHolds(l);
  }

  lemma NobodySleeps(l: LockState)
    requires l.sem == NewSem(1)
    ensures SleepersWant(l)
  {
  }

  lemma NobodyOwns(l: LockState)
    requires l.sem == NewSem(1) && forall t: Tid :: t < |l.pc| ==> l.pc[t] == Out
    ensures UnitOrOne(l)
  {
  }

  lemma NobodyHolds(l: LockState)
    requires l.holder == None && forall t: Tid :: t < |l.pc| ==> l.pc[t] == Out
    ensures HolderHolds(l)
  {
  }

  /** Acquire and Release step by step: where each step leads its thread, what it does to the unit, and that it moves
      nobody else. */
  lemma LockMoves(l: LockState, t: Tid, a: LockAction)
    requires LockEnabled(l, t, a)
    ensures var l' := LockDo(l, t, a);
      && |l'.pc| == |l.pc| && (forall u: Tid :: u < |l.pc| && u != t ==> l'.pc[u] == l.pc[u])
      && (l.pc[t] == Out ==> l'.pc[t] == Want)
      && (l.pc[t] == Want ==> l'.pc[t] == if l.sem.value == 0 then Want else Got)
      && (l.pc[t] == Got ==> l'.pc[t] == Hold)
      && (l.pc[t] == Hold ==> l'.pc[t] == Freed)
      && (l.pc[t] == Freed ==> l'.pc[t] == Out)
      && l'.holder == (if l.pc[t] == Got then Some(t) else if l.pc[t] == Hold then None else l.holder)
      && l'.sem.value ==
           l.sem.value + (if l.pc[t] == Freed then 1 else if l.pc[t] == Want && l.sem.value != 0 then -1 else 0)
  {
  }

  /** A thread has exactly one step, unless it sleeps on the semaphore. */
  lemma CanMove(l: LockState, t: Tid)
    requires t < |l.pc|
    ensures (exists a :: LockEnabled(l, t, a)) <==> !(l.pc[t] == Want && t in l.sem.queue)
    ensures forall a, b :: LockEnabled(l, t, a) && LockEnabled(l, t, b) ==> a == b
  {
    assert l.pc[t] == Out ==> LockEnabled(l, t, Begin);
    assert l.pc[t] == Want && t !in l.sem.queue ==> LockEnabled(l, t, Test);
    assert l.pc[t] == Got ==> LockEnabled(l, t, SetHolder);
    assert l.pc[t] == Hold ==> LockEnabled(l, t, ClearHolder);
    assert l.pc[t] == Freed ==> LockEnabled(l, t, Signal);
  }

  lemma StepKeepsSleepers(l: LockState, t: Tid, a: LockAction)
    requires SemOk(l.sem) && SleepersWant(l) && LockEnabled(l, t, a)
    ensures SleepersWant(LockDo(l, t, a))
  {
    PostMoves(l.sem);
    hide SemOk;
    var l' := LockDo(l, t, a);
    assert l'.pc == l.pc[t := l'.pc[t]] && (l'.pc[t] == Want || l.pc[t] != Want || a == Test);
    assert a == Test && l.sem.value == 0 ==> l'.pc == l.pc;
    forall u | u in l'.sem.queue || u in l'.sem.woken
      ensures u < |l'.pc| && l'.pc[u] == Want
    {
      assert u in l.sem.queue || u in l.sem.woken || u == t;
      assert a == Test && u == t ==> l.sem.value == 0;
    }
  }

  lemma StepKeepsUnit(l: LockState, t: Tid, a: LockAction)
    requires UnitOrOne(l) && LockEnabled(l, t, a)
    ensures UnitOrOne(LockDo(l, t, a))
  {
    var l' := LockDo(l, t, a);
    assert forall u: Tid :: u < |l.pc| && u != t ==> l'.pc[u] == l.pc[u];
    assert a == SetHolder || a == ClearHolder || a == Signal ==> PastP(l.pc[t]);
    if u: Tid :| u < |l.pc| && PastP(l.pc[u]) {
      assert u != t ==> PastP(l'.pc[u]);
    }
    assert PastP(l'.pc[t]) || l'.pc[t] == Want || l'.pc[t] == Out;
  }

  lemma StepKeepsHolder(l: LockState, t: Tid, a: LockAction)
    requires UnitOrOne(l) && HolderHolds(l) && LockEnabled(l, t, a)
    ensures HolderHolds(LockDo(l, t, a))
  {
    assert a == SetHolder || a == ClearHolder ==> PastP(l.pc[t]);
  }

  /** Every step keeps the lock in order, wherever the switches fall. */
  lemma LockStepKeepsOk(l: LockState, t: Tid, a: LockAction)
    requires LockOk(l) && LockEnabled(l, t, a)
    ensures LockOk(LockDo(l, t, a))
  {
    assert a == Test ==> t !in l.sem.queue;
    assert LockDo(l, t, a).sem == if a == Test then TryP(l.sem, t).0 else if a == Signal then Post(l.sem).0 else l.sem;
    hide SemOk, SleepersWant, UnitOrOne, HolderHolds, LockEnabled, LockDo;
    StepKeepsSleepers(l, t, a);
    StepKeepsUnit(l, t, a);
    StepKeepsHolder(l, t, a);
    if a == Test {
      TryPKeepsOk(l.sem, t);
    }
    PostKeepsOk(l.sem);
  }

  lemma Alone(l: LockState, t: Tid)
    requires LockOk(l) && t < |l.pc| && PastP(l.pc[t])
    ensures Owners(l.pc) == {t} && l.sem.value == 0
    ensures forall u: Tid :: u < |l.pc| && PastP(l.pc[u]) ==> u == t
  {
    hide SemOk;
  }

  /** The semaphore's value plus the number of threads between Acquire's P and Release's V is exactly 1. */
  lemma UnitOrOwner(l: LockState)
    requires LockOk(l)
    ensures l.sem.value + |Owners(l.pc)| == 1 && 0 <= l.sem.value
  {
    assert l.sem.value >= 0;
    hide SemOk;
    if t: Tid :| t < |l.pc| && PastP(l.pc[t]) {
      Alone(l, t);
    } else {
      assert Owners(l.pc) == {};
    }
  }

  /** A schedule: which thread takes which step, from an unlocked lock. */
  ghost predicate LockRun(run: seq<LockState>, threads: nat) {
    && run != [] && run[0] == NewLock(threads)
    && forall i :: 0 <= i < |run| - 1 ==> LockStep(run[i], run[i + 1])
  }

  ghost predicate LockStep(l: LockState, l': LockState) {
    exists t, a :: LockEnabled(l, t, a) && l' == LockDo(l, t, a)
  }

  /** In every interleaving the semaphore's value plus the number of threads between P and V is exactly 1, and
      the recorded holder is nobody or that thread. */
  lemma {:induction false} LockRuns(run: seq<LockState>, threads: nat, i: nat)
    requires LockRun(run, threads) && i < |run|
    ensures LockOk(run[i])
    ensures run[i].sem.value + |Owners(run[i].pc)| == 1 && 0 <= run[i].sem.value
    ensures run[i].holder.Some? ==> Owners(run[i].pc) == {run[i].holder.value}
  {
    if i == 0 {
      NewLockOk(threads);
    } else {
      LockRuns(run, threads, i - 1);
      var l, l' := run[i - 1], run[i - 1 + 1];
      var t, a :| LockEnabled(l, t, a) && l' == LockDo(l, t, a);
      LockStepKeepsOk(l, t, a);
    }
    UnitOrOwner(run[i]);
    if run[i].holder.Some? {
      Alone(run[i], run[i].holder.value);
    }
  }

  /** Release's assertion that the caller is the holder never fails. */
  lemma HolderIsCaller(l: LockState, t: Tid)
    requires LockOk(l) && LockEnabled(l, t, ClearHolder)
    ensures l.holder == Some(t)
  {
  }

  /** A lock that is taken has a recorded holder exactly while its thread is neither between P and recording itself
      nor between clearing the holder and V. */
  lemma TakenIsRecorded(l: LockState, t: Tid)
    requires LockOk(l) && t < |l.pc| && PastP(l.pc[t])
    ensures l.holder == Some(t) <==> l.pc[t] == Hold
    ensures l.holder == None <==> l.pc[t] == Got || l.pc[t] == Freed
  {
    Alone(l, t);
  }

  /** A run that stops between the two: the lock is taken, and nobody is recorded. */
  lemma TakenUnrecorded() returns (run: seq<LockState>)
    ensures LockRun(run, 1)
    ensures var l := run[|run| - 1]; l.sem.value == 0 && l.holder == None && Owners(l.pc) == {0}
  {
    var l0 := NewLock(1);
    var l1 := LockDo(l0, 0, Begin);
    var l2 := LockDo(l1, 0, Test);
    assert LockStep(l0, l1) && LockStep(l1, l2);
    run := [l0, l1, l2];
  }

  /** No wakeup is lost: while the lock is free and somebody sleeps on it, a woken thread is about to test. */
  lemma FreeLockIsSeen(l: LockState)
    requires LockOk(l) && Owners(l.pc) == {} && l.sem.queue != []
    ensures exists t :: LockEnabled(l, t, Test) && t in l.sem.woken
  {
    UnitOrOwner(l);
    var t :| t in l.sem.woken;
    assert LockEnabled(l, t, Test);
  }

  /** The lock object. `currentThread` runs one atomic section at a time; `state` says where every thread is. */
  class Lock {
    const semaphore: Semaphore
    var lockHolder: Option<Tid>
    ghost var state: LockState

    ghost predicate Valid()
      reads this, semaphore
    {
      semaphore.Valid() && LockOk(state) && semaphore.history == state.sem && lockHolder == state.holder
    }

    constructor (threads: nat)
      ensures Valid() && fresh(semaphore) && state == NewLock(threads)
    {
      NewLockOk(threads);
      hide LockOk, SemOk, NewLock, NewSem;
      semaphore := new Semaphore(1);
      lockHolder := None;
      state := NewLock(threads);
    }

    /** A thread that stands before Acquire starts it. */
    ghost method Begin(currentThread: Tid)
      requires Valid() && LockEnabled(state, currentThread, LockAction.Begin)
      modifies this
      ensures Valid() && state == LockDo(old(state), currentThread, LockAction.Begin) && lockHolder == old(lockHolder)
    {
      hide LockOk;
      LockStepKeepsOk(state, currentThread, LockAction.Begin);
      state := LockDo(state, currentThread, LockAction.Begin);
    }

    /** One pass of P's loop inside Acquire. */
    method TryAcquire(currentThread: Tid) returns (available: bool)
      requires Valid() && LockEnabled(state, currentThread, Test)
      modifies this, semaphore
      ensures Valid() && state == LockDo(old(state), currentThread, Test) && lockHolder == old(lockHolder)
      ensures available <==> state.pc[currentThread] == Got
    {
      hide LockOk, SemOk;
      LockStepKeepsOk(state, currentThread, Test);
      state := LockDo(state, currentThread, Test);
      available := semaphore.Test(currentThread);
    }

    /** The end of Acquire. */
    method RecordHolder(currentThread: Tid)
      requires Valid() && LockEnabled(state, currentThread, SetHolder)
      modifies this
      ensures Valid() && state == LockDo(old(state), currentThread, SetHolder) && lockHolder == Some(currentThread)
    {
      hide LockOk, SemOk;
      LockStepKeepsOk(state, currentThread, SetHolder);
      state := LockDo(state, currentThread, SetHolder);
      lockHolder := Some(currentThread);
    }

    method IsHeldByCurrentThread(currentThread: Tid) returns (held: bool)
      requires Valid() && currentThread < |state.pc|
      ensures held <==> state.pc[currentThread] == Hold
    {
      hide SemOk;
      return lockHolder == Some(currentThread);
    }

    /** The start of Release: `asserted` is the value of its assertion. */
    method ClearHolder(currentThread: Tid) returns (asserted: bool)
      requires Valid() && LockEnabled(state, currentThread, LockAction.ClearHolder)
      modifies this
      ensures Valid() && state == LockDo(old(state), currentThread, LockAction.ClearHolder)
      ensures asserted && lockHolder == None
    {
      asserted := IsHeldByCurrentThread(currentThread);
      hide LockOk, SemOk;
      LockStepKeepsOk(state, currentThread, LockAction.ClearHolder);
      state := LockDo(state, currentThread, LockAction.ClearHolder);
      lockHolder := None;
    }

    /** The end of Release. */
    method Signal(currentThread: Tid) returns (ready: Option<Tid>)
      requires Valid() && LockEnabled(state, currentThread, LockAction.Signal)
      modifies this, semaphore
      ensures Valid() && state == LockDo(old(state), currentThread, LockAction.Signal) && lockHolder == old(lockHolder)
      ensures ready == Post(old(state).sem).1
    {
      hide LockOk, SemOk;
      LockStepKeepsOk(state, currentThread, LockAction.Signal);
      state := LockDo(state, currentThread, LockAction.Signal);
      ready := semaphore.V();
    }
  }
}

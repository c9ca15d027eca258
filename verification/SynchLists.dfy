/** SynchList: a list guarded by a lock, with a Mesa condition on which RemoveFront waits for an item.
    Each thread is a program counter; a step is one atomic section of Append, RemoveFront or Wait, or one step
    of the lock, by any thread. */
module SynchLists {
  import opened Semaphores
  import opened Locks

  /** Where a thread is. The Enter, Exit, Release and Reacquire places are inside the lock's own code, and Locks
      says how far. */
  datatype Loc<T> =
    | Idle
    | AppendEnter(item: T)
    | AppendSignal
    | AppendWake(waiter: Tid)
    | AppendExit
    | RemoveEnter
    | RemoveTest
    | WaitEnqueue
    | WaitRelease
    | WaitP
    | WaitReacquire
    | RemoveBody
    | RemoveExit(removed: T)

  /** `waiter[t]` is the semaphore made by the latest Wait of thread `t`, and `waitQueue` lists those semaphores by
      their thread. `appended` and `removed` record what went in and came out; `joined` and `taken` are the threads that
      joined the queue and those that signals took off it, in order. */
  datatype ListState<T> = ListState(
    lock: LockState, loc: seq<Loc<T>>, waiter: seq<SemState>, waitQueue: seq<Tid>,
    list: seq<T>, appended: seq<T>, removed: seq<T>, joined: seq<Tid>, taken: seq<Tid>)

  datatype Action<T> = StartAppend(item: T) | StartRemove | InLock(step: LockAction) | Proceed

  function NewList<T>(threads: nat): ListState<T> {
    ListState(NewLock(threads), seq(threads, i => Idle), seq(threads, i => NewSem(0)), [], [], [], [], [], [])
  }

  predicate Acquiring<T>(l: Loc<T>) { l.AppendEnter? || l.RemoveEnter? || l.WaitReacquire? }
  predicate Releasing<T>(l: Loc<T>) { l.AppendExit? || l.RemoveExit? || l.WaitRelease? }
  predicate Unlocked<T>(l: Loc<T>) { l.Idle? || l.WaitP? }
  predicate Waiting<T>(l: Loc<T>) { l.WaitRelease? || l.WaitP? }

  /** What each thread may do next. The list refuses an item that it already holds. */
  predicate Enabled<T(==)>(s: ListState<T>, t: Tid, a: Action<T>) {
    t < |s.loc| && |s.loc| == |s.waiter| == |s.lock.pc| &&
    var l := s.loc[t];
    match a
    case StartAppend(_) => l.Idle?
    case StartRemove => l.Idle?
    case InLock(step) => LockEnabled(s.lock, t, step) && if AcquireStep(step) then Acquiring(l) else Releasing(l)
    case Proceed =>
      if Acquiring(l) then s.lock.pc[t] == Hold && (l.AppendEnter? ==> l.item !in s.list)
      else if Releasing(l) then s.lock.pc[t] == Out
      else if l.WaitP? then t !in s.waiter[t].queue
      else if l.AppendWake? then l.waiter < |s.waiter|
      else if l.RemoveBody? then s.list != []
      else !l.Idle?
  }

  function Do<T(==)>(s: ListState<T>, t: Tid, a: Action<T>): ListState<T>
    requires Enabled(s, t, a)
  {
    match a
    case StartAppend(item) => s.(loc := s.loc[t := AppendEnter(item)])
    case StartRemove => s.(loc := s.loc[t := RemoveEnter])
    case InLock(step) => s.(lock := LockDo(s.lock, t, step))
    case Proceed =>
      match s.loc[t]
      case AppendEnter(item) =>
        s.(list := s.list + [item], appended := s.appended + [item], loc := s.loc[t := AppendSignal])
      case AppendSignal =>
        if s.waitQueue == [] then s.(loc := s.loc[t := AppendExit])
        else
          var first := s.waitQueue[0];
          s.(waitQueue := s.waitQueue[1..], taken := s.taken + [first], loc := s.loc[t := AppendWake(first)])
      case AppendWake(w) => s.(waiter := s.waiter[w := Post(s.waiter[w]).0], loc := s.loc[t := AppendExit])
      case AppendExit => s.(loc := s.loc[t := Idle])
      case RemoveEnter => s.(loc := s.loc[t := RemoveTest])
      case RemoveTest => s.(loc := s.loc[t := if s.list == [] then WaitEnqueue else RemoveBody])
      case WaitEnqueue =>
        s.(waiter := s.waiter[t := NewSem(0)], waitQueue := s.waitQueue + [t], joined := s.joined + [t],
           loc := s.loc[t := WaitRelease])
      case WaitRelease => s.(loc := s.loc[t := WaitP])
      case WaitP =>
        var (sem, available) := TryP(s.waiter[t], t);
        s.(waiter := s.waiter[t := sem], loc := if available then s.loc[t := WaitReacquire] else s.loc)
      case WaitReacquire => s.(loc := s.loc[t := RemoveTest])
      case RemoveBody =>
        s.(list := s.list[1..], removed := s.removed + [s.list[0]], loc := s.loc[t := RemoveExit(s.list[0])])
      case RemoveExit(_) => s.(loc := s.loc[t := Idle])
  }

  /** The lock agrees with where each thread is: whoever touches the list or the queue holds the lock. */
  ghost predicate Guarded<T>(s: ListState<T>) {
    && |s.loc| == |s.waiter| == |s.lock.pc|
    && forall t: Tid :: t < |s.loc| ==> PlaceOk(s.loc[t], s.lock.pc[t])
  }

  predicate PlaceOk<T>(l: Loc<T>, p: LockPc) {
    if Unlocked(l) then p == Out
    else if Acquiring(l) then p != Freed
    else if Releasing(l) then p == Hold || p == Freed || p == Out
    else p == Hold
  }

  /** What went in is what came out followed by what is there, in the same order. */
  ghost predicate Fifo<T>(s: ListState<T>) {
    && s.appended == s.removed + s.list
    && forall t: Tid :: t < |s.loc| ==> (s.loc[t].WaitEnqueue? ==> s.list == []) && (s.loc[t].RemoveBody? ==> s.list != [])
  }

  /** A waiter's own semaphore: fresh, slept on by its thread, or signalled once. */
  predicate WaiterOk(s: SemState, t: Tid) {
    && (s.queue == [] || s.queue == [t])
    && (s.value == 0 || (s.value == 1 && s.queue == []))
  }

  /** Every waiter that was not signalled is in the queue or in the hand of a thread about to signal it. */
  ghost predicate Waiters<T>(s: ListState<T>) {
    && |s.loc| == |s.waiter|
    && NoRepeats(s.waitQueue)
    && (forall t :: t in s.waitQueue ==> t < |s.loc| && Waiting(s.loc[t]) && s.waiter[t].value == 0)
    && (forall t: Tid :: t < |s.loc| && Waiting(s.loc[t]) ==> WaiterOk(s.waiter[t], t))
    && (forall u: Tid :: u < |s.loc| && s.loc[u].AppendWake? ==> InHand(s, s.loc[u].waiter))
    && (forall t: Tid :: t < |s.loc| && Waiting(s.loc[t]) && s.waiter[t].value == 0 && t !in s.waitQueue ==>
          exists u: Tid :: u < |s.loc| && s.loc[u] == AppendWake(t))
  }

  ghost predicate InHand<T>(s: ListState<T>, w: Tid)
    requires |s.loc| == |s.waiter|
  {
    w < |s.loc| && Waiting(s.loc[w]) && w !in s.waitQueue && s.waiter[w].value == 0
  }

  /** The threads that will test the list before they sleep, or have an item to hand over or to take. */
  predicate Credit<T>(l: Loc<T>, value: int) {
    match l
    case AppendSignal => true
    case AppendWake(_) => true
    case WaitRelease => value == 1
    case WaitP => value == 1
    case WaitReacquire => true
    case RemoveTest => true
    case RemoveBody => true
    case _ => false
  }

  function Credits<T>(s: ListState<T>): set<Tid>
    requires |s.loc| == |s.waiter|
  {
    set t: Tid | t < |s.loc| && Credit(s.loc[t], s.waiter[t].value)
  }

  ghost predicate Covered<T>(s: ListState<T>)
    requires |s.loc| == |s.waiter|
  {
    s.waitQueue != [] ==> |s.list| <= |Credits(s)|
  }

  ghost predicate ListOk<T>(s: ListState<T>) {
    LockOk(s.lock) && Guarded(s) && Fifo(s) && Waiters(s) && Covered(s)
  }

  lemma NewListOk<T>(threads: nat)
    ensures ListOk(NewList<T>(threads))
  {
    NewLockOk(threads);
    hide LockOk;
  }

  /** Whoever is at a place inside the lock is alone there. */
  lemma Exclusive<T>(s: ListState<T>, t: Tid)
    requires LockOk(s.lock) && Guarded(s) && t < |s.loc| && PastP(s.lock.pc[t])
    ensures forall u: Tid :: u < |s.loc| && u != t ==> !PastP(s.lock.pc[u])
  {
    Alone(s.lock, t);
  }

  /** Where the next place of a thread is, in the order of the source: Append puts its item in, then signals, then leaves;
      RemoveFront tests, waits while the list is empty and tests again, takes the front item and leaves. */
  ghost predicate Follows<T>(s: ListState<T>, t: Tid, l: Loc<T>, l': Loc<T>)
    requires t < |s.waiter|
  {
    match l
    case AppendEnter(_) => l' == AppendSignal
    case AppendSignal => l' == if s.waitQueue == [] then AppendExit else AppendWake(s.waitQueue[0])
    case AppendWake(_) => l' == AppendExit
    case AppendExit => l' == Idle
    case RemoveEnter => l' == RemoveTest
    case RemoveTest => l' == if s.list == [] then WaitEnqueue else RemoveBody
    case WaitEnqueue => l' == WaitRelease
    case WaitRelease => l' == WaitP
    case WaitP => l' == if s.waiter[t].value == 0 then WaitP else WaitReacquire
    case WaitReacquire => l' == RemoveTest
    case RemoveBody => s.list != [] && l' == RemoveExit(s.list[0])
    case RemoveExit(_) => l' == Idle
    case Idle => false
  }

  lemma StepsFollow<T>(s: ListState<T>, t: Tid, a: Action<T>)
    requires Enabled(s, t, a)
    ensures var s' := Do(s, t, a);
      && |s'.loc| == |s.loc| && (forall u: Tid :: u < |s.loc| && u != t ==> s'.loc[u] == s.loc[u])
      && (a.StartAppend? ==> s'.loc[t] == AppendEnter(a.item)) && (a.StartRemove? ==> s'.loc[t] == RemoveEnter)
      && (a.InLock? ==> s'.loc[t] == s.loc[t]) && (a.Proceed? ==> Follows(s, t, s.loc[t], s'.loc[t]))
      && (!a.InLock? ==> s'.lock == s.lock)
  {
    hide LockEnabled, LockDo, Post;
  }

  lemma StepKeepsGuarded<T>(s: ListState<T>, t: Tid, a: Action<T>)
    requires Guarded(s) && Enabled(s, t, a)
    ensures Guarded(Do(s, t, a))
  {
  }

  lemma StepKeepsLock<T>(s: ListState<T>, t: Tid, a: Action<T>)
    requires LockOk(s.lock) && Enabled(s, t, a)
    ensures LockOk(Do(s, t, a).lock)
  {
    hide LockOk;
    if a.InLock? {
      LockStepKeepsOk(s.lock, t, a.step);
    }
  }

  lemma StepKeepsFifo<T>(s: ListState<T>, t: Tid, a: Action<T>)
    requires LockOk(s.lock) && Guarded(s) && Fifo(s) && Enabled(s, t, a)
    ensures Fifo(Do(s, t, a))
  {
    if a == Proceed && (s.loc[t].AppendEnter? || s.loc[t].RemoveBody?) {
      ListChangeKeepsFifo(s, t);
    } else {
      hide LockOk, Guarded;
    }
  }

  lemma ListChangeKeepsFifo<T>(s: ListState<T>, t: Tid)
    requires LockOk(s.lock) && Guarded(s) && Fifo(s) && Enabled(s, t, Proceed)
    requires s.loc[t].AppendEnter? || s.loc[t].RemoveBody?
    ensures Fifo(Do(s, t, Proceed))
  {
    Exclusive(s, t);
    assert forall u: Tid :: u < |s.loc| && u != t ==> !s.loc[u].WaitEnqueue? && !s.loc[u].RemoveBody?;
    hide LockOk, Guarded;
  }

  lemma StepKeepsWaiters<T>(s: ListState<T>, t: Tid, a: Action<T>)
    requires LockOk(s.lock) && Guarded(s) && Waiters(s) && Enabled(s, t, a)
    ensures Waiters(Do(s, t, a))
  {
    if a == Proceed && s.loc[t].AppendSignal? {
      TakingKeepsWaiters(s, t);
    } else if a == Proceed && s.loc[t].AppendWake? {
      WakingKeepsWaiters(s, t);
    } else if a == Proceed && s.loc[t].WaitEnqueue? {
      JoiningKeepsWaiters(s, t);
    } else if a == Proceed && s.loc[t].WaitP? {
      hide LockOk, Guarded;
      TestingKeepsWaiters(s, t);
    } else {
      hide LockOk, Guarded;
      MovingKeepsWaiters(s, t, a);
    }
  }

  lemma SignalTakes<T>(s: ListState<T>, t: Tid)
    requires LockOk(s.lock) && Guarded(s) && Enabled(s, t, Proceed) && s.loc[t].AppendSignal?
    ensures t < |s.loc| && forall u: Tid :: u < |s.loc| ==> !s.loc[u].AppendWake?
    ensures var s' := Do(s, t, Proceed);
      && s'.waiter == s.waiter && s'.waitQueue == (if s.waitQueue == [] then [] else s.waitQueue[1..])
      && s'.loc == s.loc[t := if s.waitQueue == [] then AppendExit else AppendWake(s.waitQueue[0])]
  {
    Exclusive(s, t);
  }

  lemma TakingKeepsWaiters<T>(s: ListState<T>, t: Tid)
    requires LockOk(s.lock) && Guarded(s) && Waiters(s) && Enabled(s, t, Proceed) && s.loc[t].AppendSignal?
    ensures Waiters(Do(s, t, Proceed))
  {
    hide LockOk, Guarded, Enabled, Do, NoRepeats, WaiterOk;
    SignalTakes(s, t);
    var s', q := Do(s, t, Proceed), s.waitQueue;
    if q != [] {
      HeadLeaves(q);
      assert s'.loc[t] == AppendWake(q[0]) && InHand(s', q[0]);
    }
  }

  lemma WakingKeepsWaiters<T>(s: ListState<T>, t: Tid)
    requires LockOk(s.lock) && Guarded(s) && Waiters(s) && Enabled(s, t, Proceed) && s.loc[t].AppendWake?
    ensures Waiters(Do(s, t, Proceed))
  {
    Exclusive(s, t);
    assert forall u: Tid :: u < |s.loc| && u != t ==> !s.loc[u].AppendWake?;
    hide LockOk, Guarded;
    assert InHand(s, s.loc[t].waiter);
  }

  lemma JoiningKeepsWaiters<T>(s: ListState<T>, t: Tid)
    requires LockOk(s.lock) && Guarded(s) && Waiters(s) && Enabled(s, t, Proceed) && s.loc[t].WaitEnqueue?
    ensures Waiters(Do(s, t, Proceed))
  {
    Exclusive(s, t);
    assert forall u: Tid :: u < |s.loc| ==> !s.loc[u].AppendWake?;
    hide LockOk, Guarded;
  }

  lemma TestingKeepsWaiters<T>(s: ListState<T>, t: Tid)
    requires Waiters(s) && Enabled(s, t, Proceed) && s.loc[t].WaitP?
    ensures Waiters(Do(s, t, Proceed))
  {
    var s' := Do(s, t, Proceed);
    forall v: Tid | v < |s.loc| && Waiting(s.loc[v]) && s.waiter[v].value == 0 && v !in s.waitQueue
      ensures exists u: Tid :: u < |s'.loc| && s'.loc[u] == AppendWake(v)
    {
      var u: Tid :| u < |s.loc| && s.loc[u] == AppendWake(v);
      assert s'.loc[u] == AppendWake(v);
    }
  }

  /** Nobody begins or ends to wait, is queued or signalled, and no waiter passes from hand to hand. */
  ghost predicate Quiet<T>(s: ListState<T>, s': ListState<T>) {
    && |s'.loc| == |s.loc| && s'.waiter == s.waiter && s'.waitQueue == s.waitQueue
    && (forall u: Tid :: u < |s.loc| ==> (Waiting(s'.loc[u]) <==> Waiting(s.loc[u])))
    && (forall u: Tid :: u < |s.loc| && (s.loc[u].AppendWake? || s'.loc[u].AppendWake?) ==> s'.loc[u] == s.loc[u])
  }

  lemma MovingIsQuiet<T>(s: ListState<T>, t: Tid, a: Action<T>)
    requires Enabled(s, t, a)
    requires a == Proceed ==> !s.loc[t].AppendSignal? && !s.loc[t].AppendWake? && !s.loc[t].WaitEnqueue? && !s.loc[t].WaitP?
    ensures Quiet(s, Do(s, t, a))
  {
    hide LockEnabled, LockDo, Post, TryP;
  }

  lemma MovingKeepsWaiters<T>(s: ListState<T>, t: Tid, a: Action<T>)
    requires Waiters(s) && Enabled(s, t, a)
    requires a == Proceed ==> !s.loc[t].AppendSignal? && !s.loc[t].AppendWake? && !s.loc[t].WaitEnqueue? && !s.loc[t].WaitP?
    ensures Waiters(Do(s, t, a))
  {
    hide Enabled, Do, NoRepeats, WaiterOk, Waiting;
    MovingIsQuiet(s, t, a);
    var s' := Do(s, t, a);
    forall v: Tid | v < |s.loc| && Waiting(s.loc[v]) && s.waiter[v].value == 0 && v !in s.waitQueue
      ensures exists u: Tid :: u < |s'.loc| && s'.loc[u] == AppendWake(v)
    {
      var u: Tid :| u < |s.loc| && s.loc[u] == AppendWake(v);
      assert s'.loc[u] == AppendWake(v);
    }
  }

  lemma StepKeepsCovered<T>(s: ListState<T>, t: Tid, a: Action<T>)
    requires Guarded(s) && Fifo(s) && Waiters(s) && Covered(s) && Enabled(s, t, a)
    ensures Covered(Do(s, t, a))
  {
    hide Guarded, LockOk;
    var s' := Do(s, t, a);
    if a == Proceed && (s.loc[t].AppendWake? || s.loc[t].AppendEnter? || s.loc[t].RemoveBody?) {
      hide Fifo, Do, Enabled, Credits;
      CreditsChange(s, t);
      if s.loc[t].AppendWake? {
        SwapCard(Credits(s), Credits(s'), t, s.loc[t].waiter);
      } else {
        ChangeKeepsCovered(s, t);
      }
    } else if s'.list == [] || s'.waitQueue == [] {
    } else {
      KeepsCredits(s, t, a);
      hide Waiters, Credits;
      SubsetCard(Credits(s), Credits(s'));
    }
  }

  lemma SwapCard(a: set<Tid>, b: set<Tid>, t: Tid, w: Tid)
    requires t in a && w !in a && b == a - {t} + {w}
    ensures |a| == |b|
  {
  }

  /** Appending gives a credit, taking an item uses one up, and V hands one to the waiter it wakes. */
  lemma CreditsChange<T>(s: ListState<T>, t: Tid)
    requires Waiters(s) && Enabled(s, t, Proceed) && (s.loc[t].AppendWake? || s.loc[t].AppendEnter? || s.loc[t].RemoveBody?)
    ensures Credits(Do(s, t, Proceed)) ==
      if s.loc[t].AppendWake? then Credits(s) - {t} + {s.loc[t].waiter}
      else if s.loc[t].AppendEnter? then Credits(s) + {t} else Credits(s) - {t}
    ensures s.loc[t].AppendEnter? <==> t !in Credits(s)
    ensures s.loc[t].AppendWake? ==> s.loc[t].waiter !in Credits(s)
  {
    assert s.loc[t].AppendWake? ==> InHand(s, s.loc[t].waiter);
    hide Waiters;
  }

  lemma ChangeKeepsCovered<T>(s: ListState<T>, t: Tid)
    requires Enabled(s, t, Proceed) && Covered(s) && (s.loc[t].AppendEnter? || s.loc[t].RemoveBody?)
    requires Credits(Do(s, t, Proceed)) == if s.loc[t].AppendEnter? then Credits(s) + {t} else Credits(s) - {t}
    requires s.loc[t].AppendEnter? <==> t !in Credits(s)
    ensures Covered(Do(s, t, Proceed))
  {
    hide Credits;
  }

  lemma KeepsCredits<T>(s: ListState<T>, t: Tid, a: Action<T>)
    requires Waiters(s) && Enabled(s, t, a)
    requires a == Proceed ==> !s.loc[t].AppendWake? && !s.loc[t].AppendEnter? && !s.loc[t].RemoveBody?
    requires a == Proceed && s.loc[t].AppendSignal? ==> s.waitQueue != []
    requires a == Proceed && s.loc[t].RemoveTest? ==> s.list != []
    ensures Credits(s) <= Credits(Do(s, t, a))
  {
    assert Waiting(s.loc[t]) ==> WaiterOk(s.waiter[t], t);
  }

  lemma StepKeepsOk<T>(s: ListState<T>, t: Tid, a: Action<T>)
    requires ListOk(s) && Enabled(s, t, a)
    ensures ListOk(Do(s, t, a))
  {
    hide LockOk, Guarded, Fifo, Waiters, Covered, Enabled, Do;
    StepKeepsLock(s, t, a);
    StepKeepsGuarded(s, t, a);
    StepKeepsFifo(s, t, a);
    StepKeepsWaiters(s, t, a);
    StepKeepsCovered(s, t, a);
  }

  ghost predicate Step<T(!new)>(s: ListState<T>, s': ListState<T>) {
    exists t, a :: Enabled(s, t, a) && s' == Do(s, t, a)
  }

  ghost predicate ListRun<T(!new)>(run: seq<ListState<T>>, threads: nat) {
    run != [] && run[0] == NewList(threads) && forall i :: 0 <= i < |run| - 1 ==> Step(run[i], run[i + 1])
  }

  lemma {:induction false} ListRuns<T(!new)>(run: seq<ListState<T>>, threads: nat, i: nat)
    requires ListRun(run, threads) && i < |run|
    ensures ListOk(run[i])
  {
    hide ListOk, Enabled, Do;
    if i == 0 {
      NewListOk<T>(threads);
    } else {
      ListRuns(run, threads, i - 1);
      var s, s' := run[i - 1], run[i - 1 + 1];
      var t, a :| Enabled(s, t, a) && s' == Do(s, t, a);
      StepKeepsOk(s, t, a);
    }
  }

  /** The waiters that were signalled and have not looked at the list again. */
  function SignalledWaiters<T>(s: ListState<T>): set<Tid>
    requires |s.loc| == |s.waiter|
  {
    set t: Tid | t < |s.loc| && (s.loc[t].WaitReacquire? || (Waiting(s.loc[t]) && s.waiter[t].value == 1))
  }

  /** In every interleaving items come out in the order in which they were appended, none lost, none twice. */
  lemma FirstInFirstOut<T(!new)>(run: seq<ListState<T>>, threads: nat, i: nat)
    requires ListRun(run, threads) && i < |run|
    ensures run[i].appended == run[i].removed + run[i].list
    ensures |run[i].removed| <= |run[i].appended| && run[i].removed == run[i].appended[..|run[i].removed|]
  {
    ListRuns(run, threads, i);
  }

  /** A thread that starts to wait joins the queue at the end; a signal takes the one at the front; and nobody else comes
      or goes. */
  lemma StepKeepsTurns<T>(s: ListState<T>, t: Tid, a: Action<T>)
    requires Enabled(s, t, a) && s.joined == s.taken + s.waitQueue
    ensures var s' := Do(s, t, a);
      && s'.joined == s'.taken + s'.waitQueue
      && s'.joined == s.joined + (if a == Proceed && s.loc[t].WaitEnqueue? then [t] else [])
      && s'.taken == s.taken
           + (if a == Proceed && s.loc[t].AppendSignal? && s.waitQueue != [] then [s.waitQueue[0]] else [])
  {
    hide LockEnabled, LockDo, TryP, Post;
  }

  /** In every interleaving the waiters that joined the queue, in order, are those that signals took off it, in order,
      followed by the queue: who waits first is signalled first. */
  lemma {:induction false} FirstWaiterSignalledFirst<T(!new)>(run: seq<ListState<T>>, threads: nat, i: nat)
    requires ListRun(run, threads) && i < |run|
    ensures run[i].joined == run[i].taken + run[i].waitQueue
  {
    hide Enabled, Do;
    if i > 0 {
      FirstWaiterSignalledFirst(run, threads, i - 1);
      var s, s' := run[i - 1], run[i - 1 + 1];
      var t, a :| Enabled(s, t, a) && s' == Do(s, t, a);
      StepKeepsTurns(s, t, a);
    }
  }

  /** No consumer is stranded: while the lock is free and somebody waits unsignalled, every item in the list is
      matched by a signalled waiter that will still look. */
  lemma NobodyStranded<T(!new)>(run: seq<ListState<T>>, threads: nat, i: nat)
    requires ListRun(run, threads) && i < |run|
    requires Owners(run[i].lock.pc) == {} && run[i].waitQueue != []
    ensures Guarded(run[i]) && |run[i].list| <= |SignalledWaiters(run[i])|
  {
    ListRuns(run, threads, i);
    var s := run[i];
    forall t | t in Credits(s) ensures t in SignalledWaiters(s) {
      assert t !in Owners(s.lock.pc);
    }
    SubsetCard(Credits(s), SignalledWaiters(s));
  }

  /** With the lock free, the queue holds exactly the waiters that nobody signalled. */
  lemma QueueIsUnsignalled<T(!new)>(run: seq<ListState<T>>, threads: nat, i: nat, t: Tid)
    requires ListRun(run, threads) && i < |run|
    requires Owners(run[i].lock.pc) == {}
    ensures var s := run[i];
      t in s.waitQueue <==> t < |s.loc| == |s.waiter| && Waiting(s.loc[t]) && s.waiter[t].value == 0
  {
    ListRuns(run, threads, i);
    var s := run[i];
    forall u: Tid | u < |s.loc| ensures !s.loc[u].AppendWake? {
      assert u !in Owners(s.lock.pc);
    }
  }

  /** The assertion in List::RemoveFront and the signaller's reference to the waiter's semaphore never fail: whoever
      is about to take an item finds one, alone; whoever is about to signal a waiter finds its semaphore in use. */
  lemma BodiesAreSafe<T>(s: ListState<T>, t: Tid)
    requires ListOk(s) && t < |s.loc|
    ensures s.loc[t].RemoveBody? ==> s.list != [] && Enabled(s, t, Proceed)
    ensures s.loc[t].AppendWake? ==> InHand(s, s.loc[t].waiter) && Enabled(s, t, Proceed)
    ensures !Unlocked(s.loc[t]) && !Acquiring(s.loc[t]) && !Releasing(s.loc[t]) ==>
      s.lock.holder == Some(t) && Owners(s.lock.pc) == {t}
  {
    if !Unlocked(s.loc[t]) && !Acquiring(s.loc[t]) && !Releasing(s.loc[t]) {
      Alone(s.lock, t);
    }
    if s.loc[t].AppendWake? {
      assert InHand(s, s.loc[t].waiter);
    }
  }

  /** The assertion in List::Append is the caller's to keep: it holds exactly if the item came out as often as it
      went in before. */
  lemma AppendAsserts<T>(s: ListState<T>, t: Tid)
    requires ListOk(s) && t < |s.loc| && s.loc[t].AppendEnter? && s.lock.pc[t] == Hold
    ensures Enabled(s, t, Proceed) <==>
      multiset(s.appended)[s.loc[t].item] == multiset(s.removed)[s.loc[t].item]
  {
    hide LockOk, Waiters, Covered;
    assert multiset(s.appended) == multiset(s.removed) + multiset(s.list);
  }

  /** The thread sleeps on the lock or on its own semaphore, or stands before the assertion in Append, which would fail. */
  predicate Stuck<T(==)>(s: ListState<T>, t: Tid)
    requires t < |s.loc| == |s.waiter| == |s.lock.pc|
  {
    || (Acquiring(s.loc[t]) && s.lock.pc[t] == Want && t in s.lock.sem.queue)
    || (s.loc[t].WaitP? && t in s.waiter[t].queue)
    || (s.loc[t].AppendEnter? && s.lock.pc[t] == Hold && s.loc[t].item in s.list)
  }

  /** A thread inside an operation can take a step unless it is stuck. */
  lemma CanMove<T(!new)>(s: ListState<T>, t: Tid)
    requires ListOk(s) && t < |s.loc| && !s.loc[t].Idle?
    ensures (exists a :: Enabled(s, t, a)) <==> !Stuck(s, t)
  {
    BodiesAreSafe(s, t);
    assert PlaceOk(s.loc[t], s.lock.pc[t]);
    hide LockOk, Waiters, Covered, Fifo;
    var p := s.lock.pc[t];
    if Stuck(s, t) {
      StuckStays(s, t);
    } else if Acquiring(s.loc[t]) {
      assert p == Out ==> Enabled(s, t, InLock(Begin));
      assert p == Want && t !in s.lock.sem.queue ==> Enabled(s, t, InLock(Test));
      assert p == Got ==> Enabled(s, t, InLock(SetHolder));
      assert p == Hold ==> Enabled(s, t, Proceed);
    } else if Releasing(s.loc[t]) {
      assert p == Hold ==> Enabled(s, t, InLock(ClearHolder));
      assert p == Freed ==> Enabled(s, t, InLock(Signal));
      assert p == Out ==> Enabled(s, t, Proceed);
    } else {
      assert Enabled(s, t, Proceed);
    }
  }

  lemma StuckStays<T(!new)>(s: ListState<T>, t: Tid)
    requires t < |s.loc| == |s.waiter| == |s.lock.pc| && Stuck(s, t)
    ensures forall a :: !Enabled(s, t, a)
  {
  }

  lemma Extend<T(!new)>(run: seq<ListState<T>>, threads: nat, s: ListState<T>, t: Tid, a: Action<T>)
      returns (run': seq<ListState<T>>)
    requires ListRun(run, threads) && run[|run| - 1] == s && Enabled(s, t, a)
    ensures ListRun(run', threads) && run'[|run'| - 1] == Do(s, t, a)
  {
    hide Enabled, Do;
    run' := run + [Do(s, t, a)];
    assert Step(s, Do(s, t, a));
    forall i | 0 <= i < |run'| - 1 ensures Step(run'[i], run'[i + 1]) {
      if i < |run| - 1 {
        assert Step(run[i], run[i + 1]);
      }
    }
  }

  /** An idle thread begins an append while the lock is free, and gets as far as the assertion. */
  lemma EnterAppend<T(!new)>(run: seq<ListState<T>>, threads: nat, t: Tid, item: T) returns (run': seq<ListState<T>>)
    requires ListRun(run, threads)
    requires var s := run[|run| - 1];
      && t < |s.loc| == |s.waiter| == |s.lock.pc| && s.loc[t] == Idle && s.lock.pc[t] == Out
      && s.lock.sem.value == 1 && s.lock.sem.queue == []
    ensures ListRun(run', threads)
    ensures var s, s' := run[|run| - 1], run'[|run'| - 1];
      && |s'.loc| == |s'.waiter| == |s'.lock.pc| == |s.loc| && s'.loc[t] == AppendEnter(item) && s'.lock.pc[t] == Hold
      && s'.lock.sem.value == 0 && s'.lock.sem.queue == [] && s'.list == s.list && s'.waitQueue == s.waitQueue
  {
    var s := run[|run| - 1];
    hide ListRun;
    run' := Extend(run, threads, s, t, StartAppend(item));
    s := Do(s, t, StartAppend(item));
    run' := Extend(run', threads, s, t, InLock(Begin));
    s := Do(s, t, InLock(Begin));
    run' := Extend(run', threads, s, t, InLock(Test));
    s := Do(s, t, InLock(Test));
    run' := Extend(run', threads, s, t, InLock(SetHolder));
  }

  /** The body of an append to an empty list for which nobody waits. */
  lemma AppendBody<T(!new)>(run: seq<ListState<T>>, threads: nat, t: Tid, item: T) returns (run': seq<ListState<T>>)
    requires ListRun(run, threads)
    requires var s := run[|run| - 1];
      && t < |s.loc| == |s.waiter| == |s.lock.pc| && s.loc[t] == AppendEnter(item) && s.lock.pc[t] == Hold
      && s.list == [] && s.waitQueue == []
    ensures ListRun(run', threads)
    ensures var s, s' := run[|run| - 1], run'[|run'| - 1];
      && |s'.loc| == |s'.waiter| == |s'.lock.pc| == |s.loc| && s'.loc[t] == AppendExit && s'.lock == s.lock
      && s'.list == [item]
  {
    var s := run[|run| - 1];
    hide ListRun;
    run' := Extend(run, threads, s, t, Proceed);
    s := Do(s, t, Proceed);
    run' := Extend(run', threads, s, t, Proceed);
  }

  /** The release at the end of an append. */
  lemma LeaveAppend<T(!new)>(run: seq<ListState<T>>, threads: nat, t: Tid) returns (run': seq<ListState<T>>)
    requires ListRun(run, threads)
    requires var s := run[|run| - 1];
      && t < |s.loc| == |s.waiter| == |s.lock.pc| && s.loc[t] == AppendExit && s.lock.pc[t] == Hold
      && s.lock.sem.value == 0 && s.lock.sem.queue == []
    ensures ListRun(run', threads)
    ensures var s, s' := run[|run| - 1], run'[|run'| - 1];
      && |s'.loc| == |s'.waiter| == |s'.lock.pc| == |s.loc| && s'.loc[t] == Idle && s'.lock.pc[t] == Out
      && s'.lock.sem.value == 1 && s'.lock.sem.queue == [] && s'.list == s.list
  {
    var s := run[|run| - 1];
    hide ListRun;
    run' := Extend(run, threads, s, t, InLock(ClearHolder));
    s := Do(s, t, InLock(ClearHolder));
    run' := Extend(run', threads, s, t, InLock(Signal));
    s := Do(s, t, InLock(Signal));
    run' := Extend(run', threads, s, t, Proceed);
  }

  /** One thread that appends the same item twice gets to where the assertion fails. */
  lemma AppendTwiceAsserts<T(!new)>(item: T) returns (run: seq<ListState<T>>)
    ensures ListRun(run, 1)
    ensures var s := run[|run| - 1];
      && |s.loc| == |s.lock.pc| == 1 && s.loc[0] == AppendEnter(item) && s.lock.pc[0] == Hold && item in s.list
      && !Enabled(s, 0, Proceed)
  {
    run := [NewList(1)];
    hide ListRun;
    run := EnterAppend(run, 1, 0, item);
    run := AppendBody(run, 1, 0, item);
    run := LeaveAppend(run, 1, 0);
    run := EnterAppend(run, 1, 0, item);
  }

  ghost function Histories(waiter: seq<Semaphore>): seq<SemState>
    reads waiter
  {
    seq(|waiter|, i requires 0 <= i < |waiter| reads waiter => waiter[i].history)
  }

  /** The object: a list, its lock, and the queue of its condition. `waiter[t]` is the semaphore that thread `t` made
      when it last waited. Each method is one atomic section of Append, RemoveFront, Wait or Signal. */
  class SynchList<T(==)> {
    const lock: Lock
    var list: seq<T>
    var waitQueue: seq<Tid>
    var waiter: seq<Semaphore>
    ghost var loc: seq<Loc<T>>
    ghost var appended: seq<T>
    ghost var removed: seq<T>
    ghost var joined: seq<Tid>
    ghost var taken: seq<Tid>

    ghost function State(): ListState<T>
      reads this, lock, waiter
    {
      ListState(lock.state, loc, Histories(waiter), waitQueue, list, appended, removed, joined, taken)
    }

    ghost predicate Valid()
      reads this, lock, lock.semaphore, waiter
    {
      && lock.Valid() && ListOk(State())
      && (forall t :: 0 <= t < |waiter| ==> waiter[t].Valid() && waiter[t] != lock.semaphore)
      && forall t, u :: 0 <= t < u < |waiter| ==> waiter[t] != waiter[u]
    }

    constructor (threads: nat)
      ensures Valid() && State() == NewList<T>(threads)
    {
      hide ListOk, LockOk, SemOk;
      NewListOk<T>(threads);
      var l := new Lock(threads);
      var made: seq<Semaphore> := [];
      while |made| < threads
        invariant |made| <= threads && l.Valid() && l.state == NewLock(threads) && fresh(l) && fresh(l.semaphore)
        invariant forall t :: 0 <= t < |made| ==>
          made[t].Valid() && made[t].history == NewSem(0) && fresh(made[t]) && made[t] != l.semaphore
        invariant forall t, u :: 0 <= t < u < |made| ==> made[t] != made[u]
      {
        var next := new Semaphore(0);
        made := made + [next];
      }
      lock, list, waitQueue, waiter := l, [], [], made;
      loc, appended, removed, joined, taken := seq(threads, i => Idle), [], [], [], [];
      new;
      assert Histories(waiter) == NewList<T>(threads).waiter;
      assert State() == NewList<T>(threads);
    }

    /** List::Append, done by the holder of the lock. */
    method AppendItem(t: Tid, item: T)
      requires Valid() && Enabled(State(), t, Proceed) && loc[t] == AppendEnter(item)
      modifies this`list, this`loc, this`appended
      ensures Valid() && State() == Do(old(State()), t, Proceed)
      ensures list == old(list) + [item]
    {
      hide ListOk, LockOk, SemOk, Histories;
      StepKeepsOk(State(), t, Proceed);
      list := list + [item];
      loc, appended := loc[t := AppendSignal], appended + [item];
    }

    /** The first part of Signal: the front waiter, if any, leaves the queue. */
    method TakeWaiter(t: Tid) returns (w: Option<Tid>)
      requires Valid() && Enabled(State(), t, Proceed) && loc[t].AppendSignal?
      modifies this`waitQueue, this`loc, this`taken
      ensures Valid() && State() == Do(old(State()), t, Proceed)
      ensures w == if old(waitQueue) == [] then None else Some(old(waitQueue)[0])
      ensures waitQueue == if old(waitQueue) == [] then [] else old(waitQueue)[1..]
    {
      hide ListOk, LockOk, SemOk, Histories;
      StepKeepsOk(State(), t, Proceed);
      w := None;
      if waitQueue != [] {
        w := Some(waitQueue[0]);
        waitQueue := waitQueue[1..];
        taken := taken + [w.value];
      }
      loc := loc[t := if w.Some? then AppendWake(w.value) else AppendExit];
    }

    /** The second part of Signal. */
    method WakeWaiter(t: Tid, w: Tid) returns (ready: Option<Tid>)
      requires Valid() && Enabled(State(), t, Proceed) && loc[t] == AppendWake(w)
      modifies this`loc, waiter
      ensures Valid() && State() == Do(old(State()), t, Proceed)
      ensures waiter[w].value == old(waiter[w].value) + 1
      ensures ready == if old(waiter[w].queue) == [] then None else Some(old(waiter[w].queue)[0])
    {
      hide ListOk, LockOk, SemOk, Post;
      StepKeepsOk(State(), t, Proceed);
      ready := waiter[w].V();
      loc := loc[t := AppendExit];
      assert Histories(waiter) == old(Histories(waiter))[w := Post(old(waiter[w].history)).0];
    }

    /** The test of RemoveFront's loop. */
    method TestEmpty(t: Tid) returns (empty: bool)
      requires Valid() && Enabled(State(), t, Proceed) && loc[t].RemoveTest?
      modifies this`loc
      ensures Valid() && State() == Do(old(State()), t, Proceed)
      ensures (empty <==> list == []) && (empty <==> loc[t].WaitEnqueue?)
    {
      hide ListOk, LockOk, SemOk, Histories;
      StepKeepsOk(State(), t, Proceed);
      empty := list == [];
      loc := loc[t := if empty then WaitEnqueue else RemoveBody];
    }

    /** The start of Wait: a fresh semaphore joins the queue. */
    method JoinQueue(t: Tid)
      requires Valid() && Enabled(State(), t, Proceed) && loc[t].WaitEnqueue?
      modifies this`waiter, this`waitQueue, this`loc, this`joined
      ensures Valid() && State() == Do(old(State()), t, Proceed)
      ensures waitQueue == old(waitQueue) + [t] && fresh(waiter[t]) && waiter[t].value == 0
    {
      hide ListOk, LockOk, SemOk, NewSem;
      StepKeepsOk(State(), t, Proceed);
      var made := new Semaphore(0);
      waiter := waiter[t as int := made];
      waitQueue, joined := waitQueue + [t], joined + [t];
      loc := loc[t := WaitRelease];
      assert Histories(waiter) == old(Histories(waiter))[t := NewSem(0)];
    }

    /** One pass of the loop of P on the waiter's own semaphore. */
    method TryWait(t: Tid) returns (woken: bool)
      requires Valid() && Enabled(State(), t, Proceed) && loc[t].WaitP?
      modifies this`loc, waiter
      ensures Valid() && State() == Do(old(State()), t, Proceed)
      ensures (woken <==> old(waiter[t].value) > 0) && (woken <==> loc[t].WaitReacquire?)
    {
      hide ListOk, LockOk, SemOk, TryP;
      StepKeepsOk(State(), t, Proceed);
      woken := waiter[t].Test(t);
      if woken {
        loc := loc[t := WaitReacquire];
      }
      assert Histories(waiter) == old(Histories(waiter))[t := TryP(old(waiter[t].history), t).0];
    }

    /** List::RemoveFront, done by the holder of the lock; its assertion that the list is not empty holds. */
    method TakeFront(t: Tid) returns (item: T, asserted: bool)
      requires Valid() && Enabled(State(), t, Proceed) && loc[t].RemoveBody?
      modifies this`list, this`loc, this`removed
      ensures Valid() && State() == Do(old(State()), t, Proceed)
      ensures asserted && loc[t] == RemoveExit(item) && old(list) == [item] + list
    {
      hide ListOk, LockOk, SemOk, Histories, Owners;
      BodiesAreSafe(State(), t);
      StepKeepsOk(State(), t, Proceed);
      asserted := list != [];
      item := list[0];
      list := list[1..];
      loc, removed := loc[t := RemoveExit(item)], removed + [item];
    }
  }
}

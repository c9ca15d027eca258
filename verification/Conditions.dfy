/** Condition variables: a queue of semaphores, one for each waiting thread. */
module Conditions {
  import opened Semaphores
  import opened Locks

  /** A woken waiter's semaphore gets one unit, and its thread, if it was already asleep, is made ready. */
  ghost predicate Signalled(before: SemState, after: SemState) {
    after == Post(before).0
  }

  class Condition {
    var waitQueue: seq<Semaphore>

    ghost predicate Valid()
      reads this, waitQueue
    {
      && (forall w :: w in waitQueue ==> w.Valid())
      && forall i, j :: 0 <= i < j < |waitQueue| ==> waitQueue[i] != waitQueue[j]
    }

    constructor ()
      ensures Valid() && waitQueue == []
    {
      waitQueue := [];
    }

    /** The caller holds the monitor lock, whose own semaphore is none of the waiters'. */
    ghost predicate Guards(conditionLock: Lock, currentThread: Tid)
      reads this, conditionLock, conditionLock.semaphore
    {
      && conditionLock.Valid() && conditionLock.semaphore !in waitQueue
      && currentThread < |conditionLock.state.pc| && conditionLock.state.pc[currentThread] == Hold
    }

    /** The part of Wait done while the monitor lock is held: a new semaphore of value 0 joins the queue. `asserted` is
        the value of the assertion that the caller holds the lock. */
    method JoinQueue(conditionLock: Lock, currentThread: Tid) returns (waiter: Semaphore, asserted: bool)
      requires Valid() && Guards(conditionLock, currentThread)
      modifies this
      ensures Valid() && Guards(conditionLock, currentThread) && asserted
      ensures fresh(waiter) && waiter.history == NewSem(0) && waitQueue == old(waitQueue) + [waiter]
    {
      hide SemOk, LockOk, NewSem;
      asserted := IsHeld(conditionLock, currentThread);
      waiter := new Semaphore(0);
      waitQueue := waitQueue + [waiter];
    }

    method IsHeld(conditionLock: Lock, currentThread: Tid) returns (held: bool)
      requires Guards(conditionLock, currentThread)
      ensures held
    {
      held := conditionLock.IsHeldByCurrentThread(currentThread);
    }

    /** Signal wakes the waiter that came first, and only that one. */
    method Signal(conditionLock: Lock, currentThread: Tid) returns (ready: Option<Tid>, asserted: bool)
      requires Valid() && Guards(conditionLock, currentThread)
      modifies this, if waitQueue == [] then {} else {waitQueue[0]}
      ensures Valid() && Guards(conditionLock, currentThread) && asserted
      ensures waitQueue == if old(waitQueue) == [] then [] else old(waitQueue)[1..]
      ensures old(waitQueue) != [] ==>
        var waiter := old(waitQueue[0]);
        && waiter.Valid() && Signalled(old(waitQueue[0].history), waiter.history)
        && ready == Post(old(waitQueue[0].history)).1
      ensures old(waitQueue) == [] ==> ready == None
      ensures forall w :: w in old(waitQueue) && w in waitQueue ==> unchanged(w)
    {
      hide SemOk, LockOk, Post;
      asserted := IsHeld(conditionLock, currentThread);
      ready := None;
      if waitQueue != [] {
        var waiter := waitQueue[0];
        waitQueue := waitQueue[1..];
        ready := waiter.V();
      }
    }

    /** Broadcast wakes every waiter exactly once and leaves nobody on the queue. */
    method Broadcast(conditionLock: Lock, currentThread: Tid)
      requires Valid() && (waitQueue != [] ==> Guards(conditionLock, currentThread))
      modifies this, waitQueue
      ensures Valid() && waitQueue == []
      ensures forall w :: w in old(waitQueue) ==> w.Valid() && Signalled(old(w.history), w.history)
    {
      hide Signalled, SemOk, LockOk, Post, Semaphore.Valid, Lock.Valid;
      ghost var q, k := waitQueue, 0;
      while waitQueue != []
        invariant 0 <= k <= |q| && waitQueue == q[k..] && Valid()
        invariant waitQueue != [] ==> Guards(conditionLock, currentThread)
        invariant forall i, j :: 0 <= i < j < |q| ==> q[i] != q[j]
        invariant forall i :: 0 <= i < k ==> q[i].Valid() && Signalled(old(q[i].history), q[i].history)
        invariant forall i :: k <= i < |q| ==> unchanged(q[i])
        decreases |waitQueue|
      {
        assert q[k] == waitQueue[0];
        var _, _ := Signal(conditionLock, currentThread);
        k := k + 1;
      }
    }
  }
}

/** Semaphores: one pass of P's retest loop and V are the atomic steps, taken by any threads in any order. */
module Semaphores {

  type Tid = nat

  datatype Option<T> = None | Some(value: T)

  /** A semaphore with its history: `woken` are the threads taken off the queue that have not tested the value
      again; `ups` and `downs` count completed V's and completed P's; `slept` and `roused` are the threads that went to
      sleep and those that were woken, each time, in the order in which they were. */
  datatype SemState = SemState(
    value: int, queue: seq<Tid>, woken: set<Tid>, initial: int, ups: nat, downs: nat, slept: seq<Tid>, roused: seq<Tid>)

  function NewSem(initial: nat): SemState {
    SemState(initial, [], {}, initial, 0, 0, [], [])
  }

  /** One test of the value by thread `t`: it takes one unit, or joins the queue and goes to sleep. */
  function TryP(s: SemState, t: Tid): (SemState, bool) {
    if s.value == 0 then (s.(queue := s.queue + [t], woken := s.woken - {t}, slept := s.slept + [t]), false)
    else (s.(value := s.value - 1, woken := s.woken - {t}, downs := s.downs + 1), true)
  }

  /** V: wakes the first waiter, if any, and adds one unit. The woken thread is not handed the unit. */
  function Post(s: SemState): (SemState, Option<Tid>) {
    if s.queue != [] then
      var first := s.queue[0];
      (s.(value := s.value + 1, ups := s.ups + 1, queue := s.queue[1..], woken := s.woken + {first},
          roused := s.roused + [first]), Some(first))
    else (s.(value := s.value + 1, ups := s.ups + 1), None)
  }

  ghost predicate NoRepeats(q: seq<Tid>) {
    forall i, j :: 0 <= i < j < |q| ==> q[i] != q[j]
  }

  lemma HeadIn(q: seq<Tid>)
    ensures q != [] ==> q[0] in q
  {
  }

  lemma NewAtEnd(q: seq<Tid>, t: Tid)
    requires NoRepeats(q) && t !in q
    ensures NoRepeats(q + [t])
    ensures forall u :: u in q + [t] <==> u in q || u == t
  {
  }

  lemma HeadLeaves(q: seq<Tid>)
    requires NoRepeats(q) && q != []
    ensures NoRepeats(q[1..]) && q[0] in q && q[0] !in q[1..]
    ensures forall t :: t in q <==> t == q[0] || t in q[1..]
  {
    assert q == [q[0]] + q[1..];
  }

  lemma SubsetCard(a: set<Tid>, b: set<Tid>)
    requires a <= b
    ensures |a| <= |b|
  {
    assert b == a + (b - a);
  }

  /** The value counts V's and P's and is never negative; while somebody sleeps, there are at most as many
      units as woken threads that will still look for one, so no wakeup is lost. Those who went to sleep, in order, are
      those who were woken, in order, and then those who sleep. */
  ghost predicate SemOk(s: SemState) {
    && s.value == s.initial + s.ups - s.downs && s.value >= 0
    && NoRepeats(s.queue)
    && (forall t :: t in s.queue ==> t !in s.woken)
    && (s.queue != [] ==> s.value <= |s.woken|)
    && s.slept == s.roused + s.queue
  }

  lemma NewSemOk(initial: nat)
    ensures SemOk(NewSem(initial))
  {
  }

  /** A test keeps the semaphore in order, whoever makes it: a woken thread or one that comes in between. */
  lemma TryPKeepsOk(s: SemState, t: Tid)
    requires SemOk(s) && t !in s.queue
    ensures SemOk(TryP(s, t).0)
    ensures TryP(s, t).1 <==> s.value > 0
    ensures TryP(s, t).0.slept == if s.value > 0 then s.slept else s.slept + [t]
  {
    if t in s.woken {
      assert s.woken - {t} + {t} == s.woken;
    } else {
      assert s.woken - {t} == s.woken;
    }
  }

  lemma PostKeepsOk(s: SemState)
    requires SemOk(s)
    ensures SemOk(Post(s).0)
  {
    if s.queue != [] {
      assert s.queue[0] !in s.woken;
      assert s.queue == [s.queue[0]] + s.queue[1..];
    }
  }

  /** V adds one unit, and takes the thread that slept longest off the queue and nobody else: the one that went to sleep
      next after those that were woken. */
  lemma PostMoves(s: SemState)
    requires SemOk(s)
    ensures forall t :: t in Post(s).0.queue <==> t in s.queue && Post(s).1 != Some(t)
    ensures Post(s).0.woken == if s.queue != [] then s.woken + {s.queue[0]} else s.woken
    ensures Post(s).0.value == s.value + 1
    ensures Post(s).1 == if |s.roused| < |s.slept| then Some(s.slept[|s.roused|]) else None
    ensures Post(s).0.roused == if |s.roused| < |s.slept| then s.roused + [s.slept[|s.roused|]] else s.roused
  {
    if s.queue != [] {
      assert s.queue == [s.queue[0]] + s.queue[1..];
    }
  }

  /** A step of any thread that is not asleep, or of an interrupt handler. */
  ghost predicate SemStep(s: SemState, s': SemState) {
    (exists t :: t !in s.queue && s' == TryP(s, t).0) || s' == Post(s).0
  }

  ghost predicate SemRun(run: seq<SemState>, initial: nat) {
    run != [] && run[0] == NewSem(initial) && forall i :: 0 <= i < |run| - 1 ==> SemStep(run[i], run[i + 1])
  }

  /** In every interleaving: value = initial + completed V's - completed P's >= 0; while a thread sleeps on the semaphore
      every unit is matched by a woken thread that has not tested again; and the threads that went to sleep, in order,
      are those that were woken, in order, followed by the queue. */
  lemma {:induction false} SemaphoreRuns(run: seq<SemState>, initial: nat, i: nat)
    requires SemRun(run, initial) && i < |run|
    ensures SemOk(run[i]) && run[i].initial == initial && run[i].slept == run[i].roused + run[i].queue
  {
    if i == 0 {
    } else {
      SemaphoreRuns(run, initial, i - 1);
      var s, s' := run[i - 1], run[i - 1 + 1];
      if t :| t !in s.queue && s' == TryP(s, t).0 {
        TryPKeepsOk(s, t);
      } else {
        PostKeepsOk(s);
      }
    }
  }

  /** Of two threads that find no unit, the one that came first is woken first. */
  lemma FirstToSleepIsWokenFirst(t: Tid, u: Tid)
    requires t != u
    ensures var s := TryP(TryP(NewSem(0), t).0, u).0; Post(s).1 == Some(t) && Post(Post(s).0).1 == Some(u)
  {
  }

  /** The semaphore object; `P`'s loop runs `Test` until it answers true, sleeping in between. */
  class Semaphore {
    var value: int
    var queue: seq<Tid>
    ghost var history: SemState

    ghost predicate Valid()
      reads this
    {
      SemOk(history) && history.value == value && history.queue == queue
    }

    constructor (initialValue: nat)
      ensures Valid() && history == NewSem(initialValue) && value == initialValue && queue == []
    {
      value := initialValue;
      queue := [];
      history := NewSem(initialValue);
    }

    method Test(currentThread: Tid) returns (available: bool)
      requires Valid() && currentThread !in queue
      modifies this
      ensures Valid() && (history, available) == TryP(old(history), currentThread)
      ensures available <==> old(value) > 0
      ensures available ==> value == old(value) - 1 && queue == old(queue)
      ensures !available ==> value == old(value) && queue == old(queue) + [currentThread]
    {
      TryPKeepsOk(history, currentThread);
      history := TryP(history, currentThread).0;
      if value == 0 {
        queue := queue + [currentThread];
        return false;
      }
      value := value - 1;
      return true;
    }

    method V() returns (ready: Option<Tid>)
      requires Valid()
      modifies this
      ensures Valid() && (history, ready) == Post(old(history))
      ensures value == old(value) + 1
      ensures old(queue) == [] ==> ready == None && queue == []
      ensures old(queue) != [] ==> ready == Some(old(queue)[0]) && queue == old(queue)[1..]
    {
      PostKeepsOk(history);
      history := Post(history).0;
      ready := None;
      if queue != [] {
        ready := Some(queue[0]);
        queue := queue[1..];
      }
      value := value + 1;
    }
  }
}

/** TSQueue: a bounded ring buffer under a mutex, with one condition for free slots and one for items. */
module TsQueues {
  import opened Semaphores
  import Remainders

  datatype Op<T> = Enqueue(item: T) | Dequeue

  /** Where a thread is: before the mutex; testing whether it can go on; waiting on its condition; woken, but not
      in possession of the mutex yet; done, about to signal the other side; about to unlock. */
  datatype Loc<T> =
    | Idle
    | Locking(op: Op<T>)
    | Testing(op: Op<T>)
    | Waiting(op: Op<T>)
    | Relocking(op: Op<T>)
    | Signalling(op: Op<T>, result: Option<T>)
    | Unlocking(op: Op<T>, result: Option<T>)

  /** `owner` holds the mutex; `contents` is what the ring buffer holds, the first item first. */
  datatype QueueState<T> = QueueState(
    capacity: nat, owner: Option<Tid>, loc: seq<Loc<T>>, contents: seq<T>, enqueued: seq<T>, dequeued: seq<T>)

  datatype Action = Proceed | Signal(woken: Option<Tid>) | Spurious

  function NewQueue<T>(threads: nat, capacity: nat): QueueState<T> {
    QueueState(capacity, None, seq(threads, i => Idle), [], [], [])
  }

  /** How many enqueuers, or dequeuers, could go on now: free slots, or items. */
  function Avail<T>(s: QueueState<T>, dequeuing: bool): int {
    if dequeuing then |s.contents| else s.capacity - |s.contents|
  }

  predicate WaitsOn<T>(l: Loc<T>, dequeuing: bool) { l.Waiting? && l.op.Dequeue? == dequeuing }

  function Waiters<T>(s: QueueState<T>, dequeuing: bool): set<Tid> {
    set t: Tid | t < |s.loc| && WaitsOn(s.loc[t], dequeuing)
  }

  predicate Inside<T>(l: Loc<T>) { l.Testing? || l.Signalling? || l.Unlocking? }

  predicate StartEnabled<T>(s: QueueState<T>, t: Tid) { t < |s.loc| && s.loc[t].Idle? }

  function Start<T>(s: QueueState<T>, t: Tid, op: Op<T>): QueueState<T>
    requires StartEnabled(s, t)
  {
    s.(loc := s.loc[t := Locking(op)])
  }

  /** A signal wakes one waiter of the other side, any one, if there is one; a spurious wakeup, any waiter. */
  predicate Enabled<T>(s: QueueState<T>, t: Tid, a: Action) {
    t < |s.loc| &&
    var l := s.loc[t];
    match a
    case Proceed =>
      l.Testing? || l.Unlocking? || ((l.Locking? || l.Relocking?) && s.owner == None)
    case Signal(woken) =>
      l.Signalling? &&
      (match woken
       case None => Waiters(s, !l.op.Dequeue?) == {}
       case Some(w) => w < |s.loc| && WaitsOn(s.loc[w], !l.op.Dequeue?))
    case Spurious => l.Waiting?
  }

  function Do<T>(s: QueueState<T>, t: Tid, a: Action): QueueState<T>
    requires Enabled(s, t, a)
  {
    var l := s.loc[t];
    match a
    case Proceed =>
      if l.Testing? then
        if Avail(s, l.op.Dequeue?) == 0 then s.(owner := None, loc := s.loc[t := Waiting(l.op)])
        else
          match l.op
          case Enqueue(item) =>
            s.(contents := s.contents + [item], enqueued := s.enqueued + [item], loc := s.loc[t := Signalling(l.op, None)])
          case Dequeue =>
            s.(contents := s.contents[1..], dequeued := s.dequeued + [s.contents[0]],
               loc := s.loc[t := Signalling(l.op, Some(s.contents[0]))])
      else if l.Unlocking? then s.(owner := None, loc := s.loc[t := Idle])
      else s.(owner := Some(t), loc := s.loc[t := Testing(l.op)])
    case Signal(woken) =>
      s.(loc := (if woken.Some? then s.loc[woken.value := Relocking(s.loc[woken.value].op)] else s.loc)
        [t := Unlocking(l.op, l.result)])
    case Spurious => s.(loc := s.loc[t := Relocking(l.op)])
  }

  /** Whoever is inside a critical section owns the mutex. */
  ghost predicate Exclusive<T>(s: QueueState<T>) {
    && (forall t: Tid :: t < |s.loc| && Inside(s.loc[t]) ==> s.owner == Some(t))
    && (s.owner.Some? ==> s.owner.value < |s.loc| && Inside(s.loc[s.owner.value]))
  }

  ghost predicate Fifo<T>(s: QueueState<T>) {
    s.enqueued == s.dequeued + s.contents && |s.contents| <= s.capacity
  }

  /** A thread that will test for its side before it waits, or will signal that side. */
  predicate Credit<T>(l: Loc<T>, dequeuing: bool) {
    || ((l.Relocking? || l.Testing?) && l.op.Dequeue? == dequeuing)
    || (l.Signalling? && l.op.Dequeue? != dequeuing)
  }

  function Credits<T>(s: QueueState<T>, dequeuing: bool): set<Tid> {
    set t: Tid | t < |s.loc| && Credit(s.loc[t], dequeuing)
  }

  ghost predicate Covered<T>(s: QueueState<T>, dequeuing: bool) {
    Waiters(s, dequeuing) != {} ==> Avail(s, dequeuing) <= |Credits(s, dequeuing)|
  }

  ghost predicate QueueOk<T>(s: QueueState<T>) {
    Exclusive(s) && Fifo(s) && Covered(s, false) && Covered(s, true)
  }

  lemma StepKeepsExclusive<T>(s: QueueState<T>, t: Tid, a: Action)
    requires Exclusive(s) && Enabled(s, t, a)
    ensures Exclusive(Do(s, t, a))
  {
    hide Waiters;
  }

  lemma StepKeepsFifo<T>(s: QueueState<T>, t: Tid, a: Action)
    requires Fifo(s) && Enabled(s, t, a)
    ensures Fifo(Do(s, t, a))
  {
    hide Waiters;
  }

  /** Does thread `t` change the number of items or slots in this step? */
  predicate Performs<T>(s: QueueState<T>, t: Tid, a: Action)
    requires Enabled(s, t, a)
  {
    a == Proceed && s.loc[t].Testing? && Avail(s, s.loc[t].op.Dequeue?) != 0
  }

  lemma CreditsAfterWork<T>(s: QueueState<T>, t: Tid, dequeuing: bool)
    requires Enabled(s, t, Proceed) && Performs(s, t, Proceed)
    ensures var s' := Do(s, t, Proceed);
      && Waiters(s', dequeuing) == Waiters(s, dequeuing)
      && if s.loc[t].op.Dequeue? == dequeuing
         then Avail(s', dequeuing) == Avail(s, dequeuing) - 1 && t in Credits(s, dequeuing) &&
              Credits(s', dequeuing) == Credits(s, dequeuing) - {t}
         else Avail(s', dequeuing) == Avail(s, dequeuing) + 1 && t !in Credits(s, dequeuing) &&
              Credits(s', dequeuing) == Credits(s, dequeuing) + {t}
  {
  }

  /** A signal hands the signaller's credit to the thread it wakes. */
  lemma CreditsAfterSignal<T>(s: QueueState<T>, t: Tid, w: Tid, dequeuing: bool)
    requires Enabled(s, t, Signal(Some(w)))
    ensures var s' := Do(s, t, Signal(Some(w)));
      && Waiters(s', dequeuing) <= Waiters(s, dequeuing) && Avail(s', dequeuing) == Avail(s, dequeuing)
      && if s.loc[t].op.Dequeue? == dequeuing then Credits(s', dequeuing) == Credits(s, dequeuing)
         else t in Credits(s, dequeuing) && w !in Credits(s, dequeuing) &&
              Credits(s', dequeuing) == Credits(s, dequeuing) - {t} + {w}
  {
  }

  /** Every other step keeps all credits, or finds nothing available, or nobody waiting. */
  lemma CreditsOtherwise<T>(s: QueueState<T>, t: Tid, a: Action, dequeuing: bool)
    requires Enabled(s, t, a) && !Performs(s, t, a) && !(a.Signal? && a.woken.Some?)
    ensures var s' := Do(s, t, a);
      && Avail(s', dequeuing) == Avail(s, dequeuing)
      && (Avail(s', dequeuing) == 0 || Waiters(s', dequeuing) == {} ||
          (Credits(s, dequeuing) <= Credits(s', dequeuing) && Waiters(s', dequeuing) <= Waiters(s, dequeuing)))
  {
  }

  lemma StepKeepsCovered<T>(s: QueueState<T>, t: Tid, a: Action, dequeuing: bool)
    requires Covered(s, dequeuing) && Enabled(s, t, a)
    ensures Covered(Do(s, t, a), dequeuing)
  {
    var s' := Do(s, t, a);
    if Performs(s, t, a) {
      CreditsAfterWork(s, t, dequeuing);
      hide Credits, Waiters, Avail, Do;
    } else if a.Signal? && a.woken.Some? {
      CreditsAfterSignal(s, t, a.woken.value, dequeuing);
      hide Credits, Waiters, Avail, Do;
    } else {
      CreditsOtherwise(s, t, a, dequeuing);
      hide Credits, Waiters, Avail, Do;
      if Credits(s, dequeuing) <= Credits(s', dequeuing) {
        SubsetCard(Credits(s, dequeuing), Credits(s', dequeuing));
      }
    }
  }

  lemma StartKeepsOk<T>(s: QueueState<T>, t: Tid, op: Op<T>)
    requires QueueOk(s) && StartEnabled(s, t)
    ensures QueueOk(Start(s, t, op))
  {
    var s' := Start(s, t, op);
    assert forall d :: Waiters(s', d) == Waiters(s, d) && Credits(s', d) == Credits(s, d);
    hide Waiters, Credits;
  }

  lemma StepKeepsOk<T>(s: QueueState<T>, t: Tid, a: Action)
    requires QueueOk(s) && Enabled(s, t, a)
    ensures QueueOk(Do(s, t, a))
  {
    hide Exclusive, Fifo, Covered, Enabled, Do;
    StepKeepsExclusive(s, t, a);
    StepKeepsFifo(s, t, a);
    StepKeepsCovered(s, t, a, false);
    StepKeepsCovered(s, t, a, true);
  }

  ghost predicate Step<T(!new)>(s: QueueState<T>, s': QueueState<T>) {
    || (exists t, op :: StartEnabled(s, t) && s' == Start(s, t, op))
    || (exists t, a :: Enabled(s, t, a) && s' == Do(s, t, a))
  }

  ghost predicate QueueRun<T(!new)>(run: seq<QueueState<T>>, threads: nat, capacity: nat) {
    run != [] && run[0] == NewQueue(threads, capacity) && forall i :: 0 <= i < |run| - 1 ==> Step(run[i], run[i + 1])
  }

  lemma NewQueueOk<T>(threads: nat, capacity: nat)
    ensures QueueOk(NewQueue<T>(threads, capacity))
  {
    var s := NewQueue<T>(threads, capacity);
    assert forall d :: Waiters(s, d) == {};
  }

  lemma {:induction false} QueueRuns<T(!new)>(run: seq<QueueState<T>>, threads: nat, capacity: nat, i: nat)
    requires QueueRun(run, threads, capacity) && i < |run|
    ensures QueueOk(run[i]) && run[i].capacity == capacity
  {
    hide QueueOk, Enabled, StartEnabled;
    if i == 0 {
      NewQueueOk<T>(threads, capacity);
    } else {
      QueueRuns(run, threads, capacity, i - 1);
      var s, s' := run[i - 1], run[i - 1 + 1];
      if t, op :| StartEnabled(s, t) && s' == Start(s, t, op) {
        StartKeepsOk(s, t, op);
      } else {
        var t, a :| Enabled(s, t, a) && s' == Do(s, t, a);
        StepKeepsOk(s, t, a);
      }
    }
  }

  /** In every interleaving the queue is first in, first out, and never holds more than its capacity. */
  lemma FirstInFirstOut<T(!new)>(run: seq<QueueState<T>>, threads: nat, capacity: nat, i: nat)
    requires QueueRun(run, threads, capacity) && i < |run|
    ensures run[i].enqueued == run[i].dequeued + run[i].contents && |run[i].contents| <= capacity
  {
    QueueRuns(run, threads, capacity, i);
  }

  /** Woken threads of a side that have not tested again. */
  function Woken<T>(s: QueueState<T>, dequeuing: bool): set<Tid> {
    set t: Tid | t < |s.loc| && s.loc[t].Relocking? && s.loc[t].op.Dequeue? == dequeuing
  }

  /** No waiter is stranded: while the mutex is free and threads wait on a condition, the items, or free slots,
      they wait for are at most the woken threads that have not tested again. */
  lemma NobodyStranded<T(!new)>(run: seq<QueueState<T>>, threads: nat, capacity: nat, i: nat, dequeuing: bool)
    requires QueueRun(run, threads, capacity) && i < |run|
    requires run[i].owner == None && Waiters(run[i], dequeuing) != {}
    ensures Avail(run[i], dequeuing) <= |Woken(run[i], dequeuing)|
  {
    QueueRuns(run, threads, capacity, i);
    var s := run[i];
    assert forall t: Tid :: t < |s.loc| ==> !Inside(s.loc[t]);
    assert Credits(s, dequeuing) <= Woken(s, dequeuing);
    SubsetCard(Credits(s, dequeuing), Woken(s, dequeuing));
  }

  /** A place in a ring of `n`, reached by going round at most once. */
  function Wrap(x: nat, n: nat): (r: nat)
    requires x < 2 * n
    ensures r < n
  {
    if x < n then x else x - n
  }

  lemma WrapIsModulo(x: nat, n: nat)
    requires x < 2 * n
    ensures Wrap(x, n) == x % n
  {
    Remainders.UniqueRest(x, n, if x < n then 0 else 1);
  }

  /** The `size` items of a ring that starts at `head`. */
  function RingItems<T>(buffer: seq<T>, head: nat, size: nat): seq<T>
    requires size <= |buffer| && (|buffer| > 0 ==> head < |buffer|)
  {
    seq(size, i requires 0 <= i < size => buffer[Wrap(head + i, |buffer|)])
  }

  lemma RingAppend<T>(buffer: seq<T>, head: nat, size: nat, item: T)
    requires size < |buffer| && head < |buffer|
    ensures RingItems(buffer[Wrap(head + size, |buffer|) := item], head, size + 1) == RingItems(buffer, head, size) + [item]
  {
    var next := Wrap(head + size, |buffer|);
    var a, b := RingItems(buffer[next := item], head, size + 1), RingItems(buffer, head, size) + [item];
    forall i | 0 <= i < size + 1 ensures a[i] == b[i] {
      assert i < size ==> Wrap(head + i, |buffer|) != next;
    }
  }

  lemma RingDrop<T>(buffer: seq<T>, head: nat, size: nat)
    requires 0 < size <= |buffer| && head < |buffer|
    ensures RingItems(buffer, head, size) == [buffer[head]] + RingItems(buffer, Wrap(head + 1, |buffer|), size - 1)
  {
    var a, b := RingItems(buffer, head, size), [buffer[head]] + RingItems(buffer, Wrap(head + 1, |buffer|), size - 1);
    forall i | 0 <= i < size ensures a[i] == b[i] {
      assert a[i] == buffer[Wrap(head + i, |buffer|)];
      if i > 0 {
        var start := Wrap(head + 1, |buffer|);
        assert b[i] == RingItems(buffer, start, size - 1)[i - 1] == buffer[Wrap(start + (i - 1), |buffer|)];
      }
    }
  }

  /** The queue object. Its ring holds the contents of the state machine; the mutex and the conditions, which belong
      to the thread library, are the ghost part of the state. */
  class TSQueue<T(0)> {
    const bufferSize: nat
    const buffer: array<T>
    var size: nat
    var head: nat
    var tail: int
    ghost var owner: Option<Tid>
    ghost var loc: seq<Loc<T>>
    ghost var enqueued: seq<T>
    ghost var dequeued: seq<T>

    /** The buffer is a ring: the items start at `head`, and the next one goes to `tail + 1`, going round. */
    ghost predicate RingOk()
      reads this, buffer
    {
      && buffer.Length == bufferSize && size <= bufferSize
      && (bufferSize > 0 ==>
            head < bufferSize && -1 <= tail < bufferSize && Wrap(tail + 1, bufferSize) == Wrap(head + size, bufferSize))
    }

    ghost function State(): QueueState<T>
      reads this, buffer
      requires RingOk()
    {
      QueueState(bufferSize, owner, loc, RingItems(buffer[..], head, size), enqueued, dequeued)
    }

    ghost predicate Valid()
      reads this, buffer
    {
      RingOk() && QueueOk(State())
    }

    constructor (ghost threads: nat, bufferSize: nat)
      ensures Valid() && this.bufferSize == bufferSize && fresh(buffer) && State() == NewQueue<T>(threads, bufferSize)
    {
      hide QueueOk;
      NewQueueOk<T>(threads, bufferSize);
      this.bufferSize := bufferSize;
      buffer := new T[bufferSize];
      size, head, tail := 0, 0, -1;
      owner, loc, enqueued, dequeued := None, seq(threads, i => Idle), [], [];
      new;
      assert RingItems(buffer[..], 0, 0) == [];
      assert State() == NewQueue<T>(threads, bufferSize);
    }

    /** One pass of enqueue's loop: if the buffer is full the caller waits, otherwise the item goes behind the last. */
    method TryEnqueue(t: Tid, item: T) returns (ok: bool)
      requires Valid() && Enabled(State(), t, Proceed) && loc[t] == Testing(Enqueue(item))
      modifies this, buffer
      ensures Valid() && State() == Do(old(State()), t, Proceed)
      ensures ok == (old(size) != bufferSize) && loc[t] == if ok then Signalling(Enqueue(item), None) else Waiting(Enqueue(item))
    {
      hide QueueOk, Waiters;
      StepKeepsOk(State(), t, Proceed);
      if size == bufferSize {
        owner, loc := None, loc[t := Waiting(Enqueue(item))];
        return false;
      }
      RingAppend(buffer[..], head, size, item);
      WrapIsModulo(tail + 1, bufferSize);
      hide RingItems;
      tail := (tail + 1) % bufferSize;
      buffer[tail] := item;
      size := size + 1;
      enqueued, loc := enqueued + [item], loc[t := Signalling(Enqueue(item), None)];
      ok := true;
    }

    /** One pass of dequeue's loop: if the buffer is empty the caller waits, otherwise it takes the first item. */
    method TryDequeue(t: Tid) returns (val: Option<T>)
      requires Valid() && Enabled(State(), t, Proceed) && loc[t] == Testing(Dequeue)
      modifies this
      ensures Valid() && State() == Do(old(State()), t, Proceed)
      ensures val.Some? == (old(size) != 0) && loc[t] == if val.Some? then Signalling(Dequeue, val) else Waiting(Dequeue)
    {
      hide QueueOk, Waiters;
      StepKeepsOk(State(), t, Proceed);
      if size == 0 {
        owner, loc := None, loc[t := Waiting(Dequeue)];
        return None;
      }
      RingDrop(buffer[..], head, size);
      WrapIsModulo(head + 1, bufferSize);
      hide RingItems;
      val := Some(buffer[head]);
      head := (head + 1) % bufferSize;
      size := size - 1;
      dequeued, loc := dequeued + [val.value], loc[t := Signalling(Dequeue, val)];
    }

    /** Everything else is done by the mutex and the conditions and leaves the ring alone. */
    ghost method Call(t: Tid, op: Op<T>)
      requires Valid() && StartEnabled(State(), t)
      modifies this`loc
      ensures Valid() && State() == Start(old(State()), t, op)
    {
      hide QueueOk;
      StartKeepsOk(State(), t, op);
      loc := loc[t := Locking(op)];
    }

    ghost method Synchronize(t: Tid, a: Action)
      requires Valid() && Enabled(State(), t, a) && !loc[t].Testing?
      modifies this`loc, this`owner
      ensures Valid() && State() == Do(old(State()), t, a)
    {
      hide QueueOk, Waiters;
      StepKeepsOk(State(), t, a);
      ghost var s := Do(State(), t, a);
      owner, loc := s.owner, s.loc;
    }
  }

  /** A call step by step: lock, test, wait and test again or do the work, signal the other side, unlock. A signal or a
      spurious wakeup sends the thread it wakes back for the mutex; nobody else is moved. */
  lemma CallMoves<T>(s: QueueState<T>, t: Tid, a: Action)
    requires QueueOk(s) && Enabled(s, t, a)
    ensures var s', l := Do(s, t, a), s.loc[t];
      && |s'.loc| == |s.loc|
      && (l.Locking? || l.Relocking? ==> s.owner == None && s'.owner == Some(t) && s'.loc[t] == Testing(l.op))
      && (l.Testing? ==> s.owner == Some(t) && if s'.loc[t].Waiting? then s'.owner == None else s'.owner == s.owner)
      && (l.Signalling? ==> s'.loc[t] == Unlocking(l.op, l.result) && s'.owner == s.owner)
      && (l.Signalling? && a.woken.Some? ==>
            var w := a.woken.value; WaitsOn(s.loc[w], !l.op.Dequeue?) && s'.loc[w] == Relocking(s.loc[w].op))
      && (l.Unlocking? ==> s'.owner == None && s'.loc[t] == Idle)
      && (l.Waiting? ==> s'.loc[t] == Relocking(l.op) && s'.owner == s.owner)
      && forall u: Tid :: u < |s.loc| && u != t && a != Signal(Some(u)) ==> s'.loc[u] == s.loc[u]
  {
    hide Waiters, Covered;
  }

  /** A thread inside a call can take a step, or be woken, unless somebody else has the mutex that it wants. */
  lemma CanMove<T>(s: QueueState<T>, t: Tid)
    requires QueueOk(s) && t < |s.loc| && !s.loc[t].Idle?
    ensures (exists a :: Enabled(s, t, a)) <==> !((s.loc[t].Locking? || s.loc[t].Relocking?) && s.owner != None)
  {
    var l := s.loc[t];
    if l.Signalling? {
      if Waiters(s, !l.op.Dequeue?) != {} {
        var w :| w in Waiters(s, !l.op.Dequeue?);
        assert Enabled(s, t, Signal(Some(w)));
      } else {
        assert Enabled(s, t, Signal(None));
      }
    } else if l.Waiting? {
      assert Enabled(s, t, Spurious);
    } else {
      assert l.Testing? || l.Unlocking? || s.owner == None ==> Enabled(s, t, Proceed);
    }
  }

  /** Each call acts on the contents in one step, which is the whole operation: that step alone, of all the steps of
      all threads, enqueues while there is room, or dequeues while there are items. */
  lemma OperationsAreAtomic<T>(s: QueueState<T>, t: Tid, a: Action)
    requires QueueOk(s) && Enabled(s, t, a)
    ensures var s' := Do(s, t, a);
      if Performs(s, t, a) then
        && s.loc[t].Testing? && s'.loc[t].Signalling?
        && match s.loc[t].op
           case Enqueue(item) => |s.contents| < s.capacity && s'.contents == s.contents + [item]
           case Dequeue => s'.loc[t].result.Some? && s.contents == [s'.loc[t].result.value] + s'.contents
      else s'.contents == s.contents && s'.enqueued == s.enqueued && s'.dequeued == s.dequeued
    ensures a == Proceed && s.loc[t].Testing? ==>
      (Performs(s, t, a) <==> if s.loc[t].op.Dequeue? then s.contents != [] else |s.contents| < s.capacity)
      && (!Performs(s, t, a) ==> Do(s, t, a).loc[t] == Waiting(s.loc[t].op) && Do(s, t, a).owner == None)
  {
    hide Waiters;
  }
}

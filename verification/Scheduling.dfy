/** Threads and the ready list: fork, block, wake, yield, finish, idle and dispatch, one atomic section a step.
    A dispatch changes the current thread at once; the thread that resumes first buries the one that finished. */
module Scheduling {
  import opened Semaphores

  datatype Status = JustCreated | Running | Ready | Blocked

  /** What the current thread is doing: its own work; the loop of Sleep; inside Idle, where only interrupt
      handlers act; or the first thing after a dispatch, the burial of a finished thread. */
  datatype Phase = Normal | Sleeping(finishing: bool) | Idling(finishing: bool) | Arriving

  /** `queues` are the wait queues of the semaphores, `dispatched` every thread handed to Run so far; `joined` and `left`
      are the threads that joined each queue and those that were taken off, in order. */
  datatype Kernel = Kernel(
    current: Tid, ready: seq<Tid>, threads: map<Tid, Status>, queues: seq<seq<Tid>>,
    toBeDestroyed: Option<Tid>, phase: Phase, dispatched: seq<Tid>, joined: seq<seq<Tid>>, left: seq<seq<Tid>>)

  datatype Action =
    | Create(thread: Tid)
    | NewSemaphore
    | Fork(thread: Tid)
    | Block(queue: nat)
    | Wake(queue: nat)
    | Yield
    | Finish
    | StartIdle
    | StopIdle
    | Dispatch
    | CheckToBeDestroyed

  /** The main thread runs alone. */
  function Boot(main: Tid): Kernel {
    Kernel(main, [], map[main := Running], [], None, Normal, [], [], [])
  }

  predicate Enabled(k: Kernel, a: Action) {
    match a
    case Create(t) => k.phase == Normal && t !in k.threads
    case NewSemaphore => k.phase == Normal
    case Fork(t) => k.phase == Normal && t in k.threads && k.threads[t] == JustCreated
    case Block(q) => k.phase == Normal && q < |k.queues| == |k.joined| == |k.left|
    case Wake(q) => (k.phase == Normal || k.phase.Idling?) && q < |k.queues| == |k.joined| == |k.left|
    case Yield => k.phase == Normal
    case Finish => k.phase == Normal
    case StartIdle => k.phase.Sleeping? && k.ready == []
    case StopIdle => k.phase.Idling?
    case Dispatch => k.phase.Sleeping? && k.ready != []
    case CheckToBeDestroyed => k.phase == Arriving
  }

  /** What can happen next: a thread at its own work may do anything; in Sleep it dispatches if somebody is ready and idles
      if not; while idle any handler may wake somebody; and after a dispatch the burial comes first. */
  lemma Choices(k: Kernel, a: Action)
    requires |k.queues| == |k.joined| == |k.left|
    ensures k.phase == Normal ==> (Enabled(k, a) <==>
      match a
      case Create(t) => t !in k.threads
      case Fork(t) => t in k.threads && k.threads[t] == JustCreated
      case Block(q) => q < |k.queues|
      case Wake(q) => q < |k.queues|
      case _ => a == NewSemaphore || a == Yield || a == Finish)
    ensures k.phase.Sleeping? ==> (Enabled(k, a) <==> a == if k.ready == [] then StartIdle else Dispatch)
    ensures k.phase.Idling? ==> (Enabled(k, a) <==> a == StopIdle || (a.Wake? && a.queue < |k.queues|))
    ensures k.phase == Arriving ==> (Enabled(k, a) <==> a == CheckToBeDestroyed)
  {
  }

  function MadeReady(k: Kernel, t: Tid): Kernel {
    k.(threads := k.threads[t := Ready], ready := k.ready + [t])
  }

  function Switched(k: Kernel, next: Tid, finishing: bool): Kernel {
    k.(toBeDestroyed := if finishing then Some(k.current) else k.toBeDestroyed,
       current := next, threads := k.threads[next := Running], phase := Arriving, dispatched := k.dispatched + [next])
  }

  /** Sleep: from here on the thread is blocked, though it stays the current one until another is found. */
  function Sleep(k: Kernel, finishing: bool): Kernel {
    k.(threads := k.threads[k.current := Blocked], phase := Sleeping(finishing))
  }

  function Do(k: Kernel, a: Action): Kernel
    requires Enabled(k, a)
  {
    match a
    case Create(t) => k.(threads := k.threads[t := JustCreated])
    case NewSemaphore => k.(queues := k.queues + [[]], joined := k.joined + [[]], left := k.left + [[]])
    case Fork(t) => MadeReady(k, t)
    case Block(q) =>
      Sleep(k.(queues := k.queues[q := k.queues[q] + [k.current]], joined := k.joined[q := k.joined[q] + [k.current]]), false)
    case Wake(q) =>
      var waiting := k.queues[q];
      if waiting == [] then k
      else MadeReady(k.(queues := k.queues[q := waiting[1..]], left := k.left[q := k.left[q] + [waiting[0]]]), waiting[0])
    case Yield => if k.ready == [] then k else Switched(MadeReady(k.(ready := k.ready[1..]), k.current), k.ready[0], false)
    case Finish => Sleep(k, true)
    case StartIdle => k.(phase := Idling(k.phase.finishing))
    case StopIdle => k.(phase := Sleeping(k.phase.finishing))
    case Dispatch => Switched(k.(ready := k.ready[1..]), k.ready[0], k.phase.finishing)
    case CheckToBeDestroyed =>
      k.(threads := if k.toBeDestroyed.Some? then k.threads - {k.toBeDestroyed.value} else k.threads,
         toBeDestroyed := None, phase := Normal)
  }

  predicate HasStatus(k: Kernel, t: Tid, s: Status) { t in k.threads && k.threads[t] == s }

  /** The thread called Finish: it is about to leave the CPU for good, or has left it. */
  predicate Finishing(k: Kernel, t: Tid) {
    k.toBeDestroyed == Some(t) || (t == k.current && (k.phase == Sleeping(true) || k.phase == Idling(true)))
  }

  /** The ready list holds exactly the READY threads, each once. */
  ghost predicate ReadyOk(k: Kernel) {
    NoRepeats(k.ready) && forall t :: t in k.ready <==> HasStatus(k, t, Ready)
  }

  /** The current thread exists. It alone is RUNNING, unless it is in Sleep: then it is BLOCKED, or READY again,
      and nobody runs. */
  ghost predicate CpuOk(k: Kernel) {
    && k.current in k.threads
    && (forall t :: HasStatus(k, t, Running) ==> t == k.current)
    && (k.phase == Normal || k.phase == Arriving <==> HasStatus(k, k.current, Running))
    && !HasStatus(k, k.current, JustCreated)
    && (Finishing(k, k.current) ==> HasStatus(k, k.current, Blocked))
  }

  /** Between a finishing thread's dispatch and its burial, and at no other time, a thread awaits destruction. */
  ghost predicate DestroyOk(k: Kernel) {
    k.toBeDestroyed.Some? ==>
      k.phase == Arriving && HasStatus(k, k.toBeDestroyed.value, Blocked) && k.toBeDestroyed.value != k.current
  }

  predicate OnQueue(k: Kernel, t: Tid, q: nat) { q < |k.queues| && t in k.queues[q] }

  /** A blocked thread that is not finishing is on exactly one wait queue, and nobody else is on any. */
  ghost predicate QueuesOk(k: Kernel) {
    && (forall q :: 0 <= q < |k.queues| ==> NoRepeats(k.queues[q]))
    && (forall t, q: nat :: OnQueue(k, t, q) ==> HasStatus(k, t, Blocked) && !Finishing(k, t))
    && (forall t, p: nat, q: nat :: OnQueue(k, t, p) && OnQueue(k, t, q) ==> p == q)
    && (forall t :: HasStatus(k, t, Blocked) && !Finishing(k, t) ==> exists q: nat :: OnQueue(k, t, q))
  }

  ghost predicate KernelOk(k: Kernel) {
    ReadyOk(k) && CpuOk(k) && DestroyOk(k) && QueuesOk(k)
  }

  lemma BootOk(main: Tid)
    ensures KernelOk(Boot(main))
  {
  }

  /** Making a thread ready that is not ready keeps the ready list exact. */
  lemma AppendKeepsReady(k: Kernel, t: Tid)
    requires ReadyOk(k) && !HasStatus(k, t, Ready)
    ensures ReadyOk(MadeReady(k, t))
  {
    var k' := MadeReady(k, t);
    assert forall u :: u in k'.ready <==> u in k.ready || u == t;
  }

  /** Dispatching the first ready thread keeps it exact, too. */
  lemma RunKeepsReady(k: Kernel, finishing: bool)
    requires ReadyOk(k) && k.ready != []
    ensures ReadyOk(Switched(k.(ready := k.ready[1..]), k.ready[0], finishing))
  {
    HeadLeaves(k.ready);
  }

  /** A thread that is neither ready nor becomes ready may change its state. */
  lemma OtherKeepsReady(k: Kernel, k': Kernel)
    requires ReadyOk(k) && k'.ready == k.ready && forall t :: HasStatus(k', t, Ready) <==> HasStatus(k, t, Ready)
    ensures ReadyOk(k')
  {
  }

  lemma YieldIsRunThenReady(k: Kernel)
    requires k.phase == Normal && k.ready != [] && k.current != k.ready[0]
    ensures Do(k, Yield) == Switched(MadeReady(k, k.current).(ready := MadeReady(k, k.current).ready[1..]), k.ready[0], false)
    ensures MadeReady(k, k.current).ready[0] == k.ready[0]
  {
    assert (k.ready + [k.current])[1..] == k.ready[1..] + [k.current];
  }

  lemma StepKeepsReady(k: Kernel, a: Action)
    requires ReadyOk(k) && CpuOk(k) && DestroyOk(k) && QueuesOk(k) && Enabled(k, a)
    ensures ReadyOk(Do(k, a))
  {
    HeadIn(k.ready);
    match a
    case Fork(t) => AppendKeepsReady(k, t);
    case Wake(q) =>
      var waiting := k.queues[q];
      HeadIn(waiting);
      if waiting != [] {
        assert OnQueue(k, waiting[0], q);
        var taken := k.(queues := k.queues[q := waiting[1..]], left := k.left[q := k.left[q] + [waiting[0]]]);
        OtherKeepsReady(k, taken);
        AppendKeepsReady(taken, waiting[0]);
      } else {
        assert Do(k, a) == k;
      }
    case Yield =>
      if k.ready != [] {
        assert HasStatus(k, k.current, Running) && HasStatus(k, k.ready[0], Ready);
        YieldIsRunThenReady(k);
        AppendKeepsReady(k, k.current);
        RunKeepsReady(MadeReady(k, k.current), false);
      }
    case Dispatch => RunKeepsReady(k, k.phase.finishing);
    case _ =>
      assert forall t :: HasStatus(Do(k, a), t, Ready) <==> HasStatus(k, t, Ready);
      OtherKeepsReady(k, Do(k, a));
  }

  lemma StepKeepsCpu(k: Kernel, a: Action)
    requires ReadyOk(k) && CpuOk(k) && DestroyOk(k) && QueuesOk(k) && Enabled(k, a)
    ensures CpuOk(Do(k, a))
  {
    HeadIn(k.ready);
    if a.Wake? && k.queues[a.queue] != [] {
      HeadIn(k.queues[a.queue]);
      var w := k.queues[a.queue][0];
      assert OnQueue(k, w, a.queue) && HasStatus(k, w, Blocked) && !Finishing(k, w);
    }
    hide QueuesOk;
    assert k.ready != [] ==> HasStatus(k, k.ready[0], Ready);
    hide ReadyOk;
    var k' := Do(k, a);
    forall t | HasStatus(k', t, Running) ensures t == k'.current {
      assert HasStatus(k, t, Running) ==> t == k.current;
    }
    assert HasStatus(k, k.current, Running) || HasStatus(k, k.current, Ready) || HasStatus(k, k.current, Blocked);
    assert a == Dispatch ==> !HasStatus(k, k.current, Running);
  }

  lemma StepKeepsDestroy(k: Kernel, a: Action)
    requires ReadyOk(k) && CpuOk(k) && DestroyOk(k) && Enabled(k, a)
    ensures DestroyOk(Do(k, a))
  {
    HeadIn(k.ready);
    assert k.ready != [] ==> HasStatus(k, k.ready[0], Ready);
    hide ReadyOk;
  }

  /** Nothing that QueuesOk speaks of changes. */
  lemma SameQueues(k: Kernel, k': Kernel)
    requires QueuesOk(k) && k'.queues == k.queues
    requires forall t :: (HasStatus(k', t, Blocked) && !Finishing(k', t)) == (HasStatus(k, t, Blocked) && !Finishing(k, t))
    ensures QueuesOk(k')
  {
    hide NoRepeats;
    assert forall t, q: nat :: OnQueue(k', t, q) <==> OnQueue(k, t, q);
    forall t | HasStatus(k', t, Blocked) && !Finishing(k', t)
      ensures exists q: nat :: OnQueue(k', t, q)
    {
      assert HasStatus(k, t, Blocked) && !Finishing(k, t);
      var q: nat :| OnQueue(k, t, q);
      assert OnQueue(k', t, q);
    }
  }

  lemma BlockKeepsQueues(k: Kernel, q: nat)
    requires CpuOk(k) && DestroyOk(k) && QueuesOk(k) && Enabled(k, Block(q))
    ensures QueuesOk(Do(k, Block(q)))
  {
    var k' := Do(k, Block(q));
    var me := k.current;
    assert !OnQueue(k, me, q);
    NewAtEnd(k.queues[q], me);
    hide NoRepeats;
    assert forall t, p: nat :: OnQueue(k', t, p) <==> OnQueue(k, t, p) || (t == me && p == q);
    assert OnQueue(k', me, q);
    forall t | HasStatus(k', t, Blocked) && !Finishing(k', t)
      ensures exists p: nat :: OnQueue(k', t, p)
    {
      if t != me {
        assert HasStatus(k, t, Blocked) && !Finishing(k, t);
        var p: nat :| OnQueue(k, t, p);
        assert OnQueue(k', t, p);
      }
    }
  }

  lemma WakeKeepsQueues(k: Kernel, q: nat)
    requires QueuesOk(k) && Enabled(k, Wake(q)) && k.queues[q] != []
    ensures QueuesOk(Do(k, Wake(q)))
  {
    var k' := Do(k, Wake(q));
    var w := k.queues[q][0];
    HeadLeaves(k.queues[q]);
    assert OnQueue(k, w, q);
    assert forall t, p: nat :: OnQueue(k', t, p) <==> OnQueue(k, t, p) && t != w;
    forall t | HasStatus(k', t, Blocked) && !Finishing(k', t)
      ensures exists p: nat :: OnQueue(k', t, p)
    {
      assert HasStatus(k, t, Blocked) && !Finishing(k, t);
      var p: nat :| OnQueue(k, t, p);
      assert OnQueue(k', t, p);
    }
  }

  lemma NewSemaphoreKeepsQueues(k: Kernel)
    requires QueuesOk(k) && Enabled(k, NewSemaphore)
    ensures QueuesOk(Do(k, NewSemaphore))
  {
    var k' := Do(k, NewSemaphore);
    assert forall t, p: nat :: OnQueue(k', t, p) <==> OnQueue(k, t, p);
    forall t | HasStatus(k', t, Blocked) && !Finishing(k', t)
      ensures exists p: nat :: OnQueue(k', t, p)
    {
      assert HasStatus(k, t, Blocked) && !Finishing(k, t);
      var p: nat :| OnQueue(k, t, p);
      assert OnQueue(k', t, p);
    }
  }

  lemma StepKeepsQueues(k: Kernel, a: Action)
    requires ReadyOk(k) && CpuOk(k) && DestroyOk(k) && QueuesOk(k) && Enabled(k, a)
    ensures QueuesOk(Do(k, a))
  {
    HeadIn(k.ready);
    assert k.ready != [] ==> HasStatus(k, k.ready[0], Ready);
    hide ReadyOk;
    match a
    case Block(q) => hide QueuesOk, CpuOk, DestroyOk; BlockKeepsQueues(k, q);
    case Wake(q) =>
      hide QueuesOk, CpuOk, DestroyOk;
      if k.queues[q] != [] {
        WakeKeepsQueues(k, q);
      }
    case NewSemaphore => hide QueuesOk, CpuOk, DestroyOk; NewSemaphoreKeepsQueues(k);
    case _ =>
      hide QueuesOk;
      SameQueues(k, Do(k, a));
  }

  lemma StepKeepsOk(k: Kernel, a: Action)
    requires KernelOk(k) && Enabled(k, a)
    ensures KernelOk(Do(k, a))
  {
    hide ReadyOk, CpuOk, DestroyOk, QueuesOk, Enabled, Do;
    StepKeepsReady(k, a);
    StepKeepsCpu(k, a);
    StepKeepsDestroy(k, a);
    StepKeepsQueues(k, a);
  }

  ghost predicate Step(k: Kernel, k': Kernel) {
    exists a :: Enabled(k, a) && k' == Do(k, a)
  }

  ghost predicate KernelRun(run: seq<Kernel>, main: Tid) {
    run != [] && run[0] == Boot(main) && forall i :: 0 <= i < |run| - 1 ==> Step(run[i], run[i + 1])
  }

  lemma {:induction false} KernelRuns(run: seq<Kernel>, main: Tid, i: nat)
    requires KernelRun(run, main) && i < |run|
    ensures KernelOk(run[i])
  {
    hide KernelOk, Enabled, Do;
    if i == 0 {
      BootOk(main);
    } else {
      KernelRuns(run, main, i - 1);
      var k, k' := run[i - 1], run[i - 1 + 1];
      var a :| Enabled(k, a) && k' == Do(k, a);
      StepKeepsOk(k, a);
    }
  }

  /** In every run: READY is being on the ready list, once; a blocked thread that is not finishing is on exactly
      one wait queue, in one place; and nobody else is on a list or queue. */
  lemma EveryThreadInItsPlace(run: seq<Kernel>, main: Tid, i: nat, t: Tid)
    requires KernelRun(run, main) && i < |run|
    ensures NoRepeats(run[i].ready) && (t in run[i].ready <==> HasStatus(run[i], t, Ready))
    ensures HasStatus(run[i], t, Blocked) && !Finishing(run[i], t) <==> exists q: nat :: OnQueue(run[i], t, q)
    ensures forall p: nat, q: nat :: OnQueue(run[i], t, p) && OnQueue(run[i], t, q) ==> p == q
    ensures forall q :: 0 <= q < |run[i].queues| ==> NoRepeats(run[i].queues[q])
  {
    KernelRuns(run, main, i);
    var k := run[i];
    hide CpuOk, DestroyOk, NoRepeats;
    if HasStatus(k, t, Blocked) && !Finishing(k, t) {
      var q: nat :| OnQueue(k, t, q);
    }
  }

  /** Run's assertion never fails: no thread awaits destruction when a finishing thread leaves the CPU, and the one
      it dispatches is another. The thread that is then buried is not the current one, nor on any list. */
  lemma BurialIsSafe(run: seq<Kernel>, main: Tid, i: nat)
    requires KernelRun(run, main) && i < |run|
    ensures Enabled(run[i], Dispatch) ==>
      run[i].toBeDestroyed == None && (run[i].phase.finishing ==> run[i].ready[0] != run[i].current)
    ensures run[i].toBeDestroyed.Some? ==>
      var dead := run[i].toBeDestroyed.value;
      && Enabled(run[i], CheckToBeDestroyed) && dead in run[i].threads && dead != run[i].current
      && dead !in run[i].ready && forall q: nat :: !OnQueue(run[i], dead, q)
  {
    KernelRuns(run, main, i);
    var k := run[i];
    HeadIn(k.ready);
    assert k.ready != [] ==> HasStatus(k, k.ready[0], Ready);
    if k.toBeDestroyed.Some? {
      assert Finishing(k, k.toBeDestroyed.value);
    }
  }

  /** The step takes the first ready thread off the list and gives it the CPU. */
  predicate Switches(k: Kernel, a: Action) { (a == Yield || a == Dispatch) && k.ready != [] }

  /** The thread that the step makes ready, if any. */
  function NewlyReady(k: Kernel, a: Action): seq<Tid>
    requires Enabled(k, a)
  {
    match a
    case Fork(t) => [t]
    case Wake(q) => if k.queues[q] == [] then [] else [k.queues[q][0]]
    case Yield => if k.ready == [] then [] else [k.current]
    case _ => []
  }

  /** What makes a thread appear, start its life and disappear, and that nothing else does. */
  lemma ThreadsComeAndGo(k: Kernel, a: Action, t: Tid)
    requires KernelOk(k) && Enabled(k, a)
    ensures var k' := Do(k, a);
      && (t !in k.threads && t in k'.threads <==> a == Create(t))
      && (HasStatus(k', t, JustCreated) && !HasStatus(k, t, JustCreated) <==> a == Create(t))
      && (HasStatus(k, t, JustCreated) && !HasStatus(k', t, JustCreated) <==> a == Fork(t))
      && (t in k.threads && t !in k'.threads <==> a == CheckToBeDestroyed && k.toBeDestroyed == Some(t))
  {
    hide ReadyOk, QueuesOk, DestroyOk;
    FirstsInPlace(k, a);
  }

  /** What makes a thread ready, running and blocked, and that nothing else does. */
  lemma StatusChanges(k: Kernel, a: Action, t: Tid)
    requires KernelOk(k) && Enabled(k, a)
    ensures var k' := Do(k, a);
      && (HasStatus(k', t, Ready) && !HasStatus(k, t, Ready) <==> t in NewlyReady(k, a))
      && (HasStatus(k, t, Ready) && !HasStatus(k', t, Ready) <==> Switches(k, a) && t == k.ready[0])
      && (HasStatus(k', t, Running) && !HasStatus(k, t, Running) <==> Switches(k, a) && t == k.ready[0])
      && (HasStatus(k', t, Blocked) && !HasStatus(k, t, Blocked) <==> (a.Block? || a == Finish) && t == k.current)
  {
    hide ReadyOk, QueuesOk, DestroyOk;
    FirstsInPlace(k, a);
  }

  lemma FirstsInPlace(k: Kernel, a: Action)
    requires KernelOk(k) && Enabled(k, a)
    ensures k.ready != [] ==> HasStatus(k, k.ready[0], Ready)
    ensures a.Wake? && k.queues[a.queue] != [] ==> HasStatus(k, k.queues[a.queue][0], Blocked)
    ensures k.toBeDestroyed.Some? ==> HasStatus(k, k.toBeDestroyed.value, Blocked)
  {
    HeadIn(k.ready);
    if a.Wake? && k.queues[a.queue] != [] {
      HeadIn(k.queues[a.queue]);
      assert OnQueue(k, k.queues[a.queue][0], a.queue);
    }
  }

  /** What the CPU does next: it sleeps after Block, Finish and idling, and there until it idles or dispatches; it comes from
      a dispatch until the burial. A thread that finished awaits destruction from its dispatch to the burial. */
  lemma PhaseChanges(k: Kernel, a: Action)
    requires Enabled(k, a)
    ensures var k' := Do(k, a);
      && (k'.phase.Idling? <==> a == StartIdle || (k.phase.Idling? && a != StopIdle))
      && (k'.phase.Sleeping? <==>
            a.Block? || a == Finish || a == StopIdle || (k.phase.Sleeping? && a != StartIdle && a != Dispatch))
      && (k'.phase == Arriving <==> Switches(k, a) || (k.phase == Arriving && a != CheckToBeDestroyed))
      && (k'.phase.Sleeping? || k'.phase.Idling? ==>
            (k'.phase.finishing <==> a == Finish || (k.phase != Normal && k.phase.finishing)))
      && k'.toBeDestroyed == (if a == Dispatch && k.phase.finishing then Some(k.current)
            else if a == CheckToBeDestroyed then None else k.toBeDestroyed)
  {
  }

  /** Everybody dispatched or in line, in order: a step only adds to the end. */
  function Line(k: Kernel): seq<Tid> { k.dispatched + k.ready }

  lemma FrontMoves(d: seq<Tid>, r: seq<Tid>, more: seq<Tid>)
    requires r != []
    ensures d + [r[0]] + (r[1..] + more) == d + r + more
  {
    assert r == [r[0]] + r[1..];
  }

  lemma StepExtendsLine(k: Kernel, a: Action)
    requires Enabled(k, a)
    ensures k.dispatched <= Do(k, a).dispatched && Line(Do(k, a)) == Line(k) + NewlyReady(k, a)
    ensures Switches(k, a) ==>
      Do(k, a).current == k.ready[0] && Do(k, a).dispatched == k.dispatched + [k.ready[0]]
    ensures !Switches(k, a) ==> Do(k, a).current == k.current && Do(k, a).dispatched == k.dispatched
  {
    var k' := Do(k, a);
    if Switches(k, a) {
      assert k'.dispatched == k.dispatched + [k.ready[0]] && k'.ready == k.ready[1..] + NewlyReady(k, a);
      hide Do, NewlyReady;
      FrontMoves(k.dispatched, k.ready, NewlyReady(k, a));
    } else {
      assert k'.dispatched == k.dispatched && k'.ready == k.ready + NewlyReady(k, a);
      hide Do, NewlyReady;
      assert k.dispatched + (k.ready + NewlyReady(k, a)) == k.dispatched + k.ready + NewlyReady(k, a);
    }
  }

  lemma {:induction false} RunExtendsLine(run: seq<Kernel>, main: Tid, i: nat, j: nat)
    requires KernelRun(run, main) && i <= j < |run|
    ensures run[i].dispatched <= run[j].dispatched && Line(run[i]) <= Line(run[j])
  {
    hide Enabled, Do, Line, NewlyReady, Switches;
    if i < j {
      RunExtendsLine(run, main, i, j - 1);
      var k, k' := run[j - 1], run[j - 1 + 1];
      var a :| Enabled(k, a) && k' == Do(k, a);
      StepExtendsLine(k, a);
      PrefixGrows(run[i].dispatched, k.dispatched, k'.dispatched);
      PrefixGrows(Line(run[i]), Line(k), Line(k'));
    }
  }

  lemma PrefixGrows(a: seq<Tid>, b: seq<Tid>, c: seq<Tid>)
    requires a <= b <= c
    ensures a <= c
  {
  }

  /** Who joined each wait queue, in order, are those who were woken there, in order, and then those who wait. */
  ghost predicate Turns(k: Kernel) {
    && |k.queues| == |k.joined| == |k.left|
    && forall q :: 0 <= q < |k.queues| ==> k.joined[q] == k.left[q] + k.queues[q]
  }

  /** A thread that blocks joins the queue, the one that wakes leaves it and becomes ready, and nobody else comes or goes. */
  lemma StepKeepsTurns(k: Kernel, a: Action, q: nat)
    requires Turns(k) && Enabled(k, a)
    ensures var k' := Do(k, a);
      && Turns(k') && |k'.queues| == |k.queues| + (if a == NewSemaphore then 1 else 0)
      && (q < |k.queues| ==>
        && k'.joined[q] == k.joined[q] + (if a == Block(q) then [k.current] else [])
        && k'.left[q] == k.left[q] + (if a == Wake(q) then NewlyReady(k, a) else []))
  {
  }

  /** In every run, first come is first woken. */
  lemma {:induction false} FirstBlockedFirstWoken(run: seq<Kernel>, main: Tid, i: nat, q: nat)
    requires KernelRun(run, main) && i < |run|
    ensures Turns(run[i])
    ensures q < |run[i].queues| ==>
      var k := run[i]; |k.left[q]| <= |k.joined[q]| && k.left[q] == k.joined[q][..|k.left[q]|]
  {
    hide Enabled, Do;
    if i > 0 {
      FirstBlockedFirstWoken(run, main, i - 1, q);
      var k, k' := run[i - 1], run[i - 1 + 1];
      var a :| Enabled(k, a) && k' == Do(k, a);
      StepKeepsTurns(k, a, q);
    }
  }

  /** A thread queued behind `ahead` others runs on exactly the (ahead+1)-th dispatch from now: until then it
      stays in line, one place nearer with each dispatch, and is not dispatched. */
  lemma FirstReadyFirstRun(run: seq<Kernel>, main: Tid, i: nat, j: nat, ahead: nat)
    requires KernelRun(run, main) && i <= j < |run| && ahead < |run[i].ready|
    ensures |run[i].dispatched| <= |run[j].dispatched|
    ensures var t, from, n := run[i].ready[ahead], |run[i].dispatched|, |run[j].dispatched| - |run[i].dispatched|;
      && (n <= ahead ==> ahead - n < |run[j].ready| && run[j].ready[ahead - n] == t && HasStatus(run[j], t, Ready))
      && (n > ahead ==> run[j].dispatched[from + ahead] == t)
      && forall m :: from <= m < |run[j].dispatched| && m < from + ahead ==> run[j].dispatched[m] != t
  {
    KernelRuns(run, main, j);
    RunExtendsLine(run, main, i, j);
    KernelRuns(run, main, i);
    var k, k' := run[i], run[j];
    assert NoRepeats(k.ready) && forall t :: t in k'.ready ==> HasStatus(k', t, Ready);
    hide KernelOk, KernelRun;
    PlaceInLine(k.dispatched, k.ready, k'.dispatched, k'.ready, ahead);
  }

  lemma PlaceInLine(d: seq<Tid>, r: seq<Tid>, d': seq<Tid>, r': seq<Tid>, ahead: nat)
    requires d <= d' && d + r <= d' + r' && ahead < |r| && NoRepeats(r)
    ensures var t, n := r[ahead], |d'| - |d|;
      && (n <= ahead ==> ahead - n < |r'| && r'[ahead - n] == t && t in r')
      && (n > ahead ==> d'[|d| + ahead] == t)
      && forall m :: |d| <= m < |d'| && m < |d| + ahead ==> d'[m] != t
  {
    var n := |d'| - |d|;
    forall m | 0 <= m < |r| ensures r[m] == if m < n then d'[|d| + m] else r'[m - n] {
      assert (d + r)[|d| + m] == (d' + r')[|d| + m];
    }
    forall m | |d| <= m < |d'| && m < |d| + ahead ensures d'[m] != r[ahead] {
      assert d'[m] == r[m - |d|];
    }
  }

  /** The scheduler and the thread operations as objects: `State` is the kernel they make up. */
  class Scheduler {
    var currentThread: Tid
    var readyList: seq<Tid>
    var status: map<Tid, Status>
    var waitQueues: seq<seq<Tid>>
    var toBeDestroyed: Option<Tid>
    ghost var phase: Phase
    ghost var dispatched: seq<Tid>
    ghost var joined: seq<seq<Tid>>
    ghost var left: seq<seq<Tid>>

    ghost function State(): Kernel
      reads this
    {
      Kernel(currentThread, readyList, status, waitQueues, toBeDestroyed, phase, dispatched, joined, left)
    }

    constructor (main: Tid)
      ensures State() == Boot(main)
    {
      currentThread, readyList, status, waitQueues, toBeDestroyed := main, [], map[main := Running], [], None;
      phase, dispatched, joined, left := Normal, [], [], [];
    }

    method ReadyToRun(thread: Tid)
      modifies this`status, this`readyList
      ensures State() == MadeReady(old(State()), thread)
      ensures status == old(status)[thread := Ready] && readyList == old(readyList) + [thread]
    {
      status := status[thread := Ready];
      readyList := readyList + [thread];
    }

    method FindNextToRun() returns (next: Option<Tid>)
      modifies this`readyList
      ensures old(readyList) == [] ==> next == None && readyList == []
      ensures old(readyList) != [] ==> next == Some(old(readyList)[0]) && readyList == old(readyList)[1..]
    {
      if readyList == [] {
        return None;
      }
      next := Some(readyList[0]);
      readyList := readyList[1..];
    }

    /** `asserted` is the value of the assertion that nobody awaits destruction yet. */
    method Run(nextThread: Tid, finishing: bool) returns (asserted: bool)
      modifies this
      ensures State() == Switched(old(State()), nextThread, finishing)
      ensures asserted <==> finishing ==> old(toBeDestroyed) == None
    {
      asserted := true;
      if finishing {
        asserted := toBeDestroyed == None;
        toBeDestroyed := Some(currentThread);
      }
      currentThread := nextThread;
      status := status[nextThread := Running];
      phase, dispatched := Arriving, dispatched + [nextThread];
    }

    method CheckToBeDestroyed()
      requires Enabled(State(), Action.CheckToBeDestroyed)
      modifies this
      ensures State() == Do(old(State()), Action.CheckToBeDestroyed)
    {
      if toBeDestroyed != None {
        status := status - {toBeDestroyed.value};
        toBeDestroyed := None;
      }
      phase := Normal;
    }

    /** The new thread is ready, behind all that were. */
    method Fork(thread: Tid)
      requires Enabled(State(), Action.Fork(thread))
      modifies this`status, this`readyList
      ensures State() == Do(old(State()), Action.Fork(thread))
      ensures status == old(status)[thread := Ready] && readyList == old(readyList) + [thread]
    {
      ReadyToRun(thread);
    }

    method Yield()
      requires Enabled(State(), Action.Yield)
      modifies this
      ensures State() == Do(old(State()), Action.Yield)
      ensures old(readyList) == [] ==> currentThread == old(currentThread) && readyList == [] && status == old(status)
      ensures old(readyList) != [] ==>
        currentThread == old(readyList)[0] && readyList == old(readyList)[1..] + [old(currentThread)]
    {
      var next := FindNextToRun();
      if next.Some? {
        ReadyToRun(currentThread);
        var _ := Run(next.value, false);
      }
    }

    /** The start of Sleep, for Finish and for a semaphore's P that has put the thread on its queue. */
    method GoToSleep(ghost finishing: bool)
      requires phase == Normal
      modifies this
      ensures State() == Sleep(old(State()), finishing)
    {
      status := status[currentThread := Blocked];
      phase := Sleeping(finishing);
    }

    method Finish()
      requires Enabled(State(), Action.Finish)
      modifies this
      ensures State() == Do(old(State()), Action.Finish)
    {
      GoToSleep(true);
    }

    method Block(queue: nat)
      requires Enabled(State(), Action.Block(queue))
      modifies this
      ensures State() == Do(old(State()), Action.Block(queue))
      ensures waitQueues == old(waitQueues)[queue := old(waitQueues)[queue] + [currentThread]]
      ensures currentThread == old(currentThread) && status == old(status)[currentThread := Blocked]
    {
      waitQueues := waitQueues[queue := waitQueues[queue] + [currentThread]];
      joined := joined[queue := joined[queue] + [currentThread]];
      GoToSleep(false);
    }

    method Wake(queue: nat)
      requires Enabled(State(), Action.Wake(queue))
      modifies this
      ensures State() == Do(old(State()), Action.Wake(queue))
      ensures var waiting := old(waitQueues)[queue];
        && waitQueues == old(waitQueues)[queue := if waiting == [] then [] else waiting[1..]]
        && readyList == old(readyList) + (if waiting == [] then [] else [waiting[0]])
        && status == if waiting == [] then old(status) else old(status)[waiting[0] := Ready]
    {
      var waiting := waitQueues[queue];
      if waiting != [] {
        waitQueues := waitQueues[queue := waiting[1..]];
        left := left[queue := left[queue] + [waiting[0]]];
        ReadyToRun(waiting[0]);
      }
    }

    /** One pass of Sleep's loop: it dispatches the first ready thread, or has to idle. Both of the scheduler's
        assertions hold. */
    method SleepStep(finishing: bool) returns (idle: bool, asserted: bool)
      requires KernelOk(State()) && phase == Sleeping(finishing)
      modifies this
      ensures idle <==> old(readyList) == []
      ensures State() == Do(old(State()), if idle then Action.StartIdle else Action.Dispatch)
      ensures asserted
    {
      hide ReadyOk, CpuOk, QueuesOk;
      var next := FindNextToRun();
      idle, asserted := next.None?, true;
      if next.Some? {
        asserted := Run(next.value, finishing);
      } else {
        phase := Idling(finishing);
      }
    }
  }
}

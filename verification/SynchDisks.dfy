/** The synchronous disk over the asynchronous one: a lock serialises the callers, each issues one request and
    waits on a semaphore that the disk's interrupt handler signals. Steps are taken by any threads, and by the
    disk when a request completes. */
module SynchDisks {
  import opened DiskGeometry
  import opened Semaphores
  import opened Locks

  datatype Op<D> = ReadOp(sector: nat) | WriteOp(sector: nat, written: D)

  /** What reached the disk: an operation and the sector's contents right after it. */
  datatype Event<D> = Event(op: Op<D>, data: D)

  /** Where a thread is. `started` is the number of requests that had reached the disk when the call began, and
      `at` the position of its own. */
  datatype Loc<D> =
    | Idle
    | Enter(op: Op<D>, started: nat)
    | Await(op: Op<D>, started: nat, at: nat, data: D)
    | Exit(op: Op<D>, started: nat, at: nat, data: D)

  datatype DiskState<D> = DiskState(
    lock: LockState, loc: seq<Loc<D>>, sem: SemState, active: bool, disk: seq<D>, history: seq<Event<D>>)

  datatype Action<D> = Call(op: Op<D>) | InLock(step: LockAction) | Request | TestP | Return

  function NewDisk<D>(threads: nat, disk: seq<D>): DiskState<D> {
    DiskState(NewLock(threads), seq(threads, i => Idle), NewSem(0), false, disk, [])
  }

  /** Callers name sectors that exist. The device's own check that it is idle is not a guard here: that it holds
      is `RequestFindsDiskIdle`. */
  predicate Enabled<D(==)>(s: DiskState<D>, t: Tid, a: Action<D>) {
    t < |s.loc| && |s.loc| == |s.lock.pc| && |s.disk| == NUM_SECTORS &&
    match a
    case Call(op) => s.loc[t].Idle? && op.sector < NUM_SECTORS
    case InLock(step) =>
      LockEnabled(s.lock, t, step) && if AcquireStep(step) then s.loc[t].Enter? else s.loc[t].Exit?
    case Request => s.loc[t].Enter? && s.loc[t].op.sector < NUM_SECTORS && s.lock.pc[t] == Hold
    case TestP => s.loc[t].Await? && t !in s.sem.queue
    case Return => s.loc[t].Exit? && s.lock.pc[t] == Out
  }

  function Perform<D>(disk: seq<D>, op: Op<D>): seq<D>
    requires op.sector < |disk|
  {
    if op.ReadOp? then disk else disk[op.sector := op.written]
  }

  function Do<D(==)>(s: DiskState<D>, t: Tid, a: Action<D>): DiskState<D>
    requires Enabled(s, t, a)
  {
    var l := s.loc[t];
    match a
    case Call(op) => s.(loc := s.loc[t := Enter(op, |s.history|)])
    case InLock(step) => s.(lock := LockDo(s.lock, t, step))
    case Request =>
      var disk := Perform(s.disk, l.op);
      var data := disk[l.op.sector];
      s.(disk := disk, active := true, history := s.history + [Event(l.op, data)],
         loc := s.loc[t := Await(l.op, l.started, |s.history|, data)])
    case TestP =>
      var (sem, available) := TryP(s.sem, t);
      s.(sem := sem, loc := if available then s.loc[t := Exit(l.op, l.started, l.at, l.data)] else s.loc)
    case Return => s.(loc := s.loc[t := Idle])
  }

  /** The disk interrupt: the request in progress is over, and the handler signals the semaphore. */
  function Complete<D>(s: DiskState<D>): DiskState<D> {
    s.(active := false, sem := Post(s.sem).0)
  }

  predicate PlaceOk<D>(l: Loc<D>, p: LockPc) {
    match l
    case Idle => p == Out
    case Enter(_, _) => p != Freed
    case Await(_, _, _, _) => p == Hold
    case Exit(_, _, _, _) => p == Hold || p == Freed || p == Out
  }

  ghost predicate Guarded<D>(s: DiskState<D>) {
    |s.loc| == |s.lock.pc| && forall t: Tid :: t < |s.loc| ==> PlaceOk(s.loc[t], s.lock.pc[t])
  }

  /** Requests, completions and finished waits run in step: at most one request has not been waited for, and it
      belongs to the thread that awaits it. */
  ghost predicate InStep<D>(s: DiskState<D>) {
    && s.sem.initial == 0
    && s.sem.ups + (if s.active then 1 else 0) == |s.history|
    && (forall t: Tid :: t < |s.loc| && s.loc[t].Await? ==> s.sem.downs + 1 == |s.history| && s.loc[t].at + 1 == |s.history|)
    && (s.sem.downs == |s.history| || exists t: Tid :: t < |s.loc| && s.loc[t].Await?)
  }

  ghost predicate Sleepers<D>(s: DiskState<D>) {
    && (forall t :: t in s.sem.queue ==> t < |s.loc| && s.loc[t].Await?)
    && (forall t :: t in s.sem.woken ==> t < |s.loc| && s.loc[t].Await?)
  }

  /** The contents of a sector after a history of requests on a disk that held `before`. */
  function Latest<D>(before: D, history: seq<Event<D>>, sector: nat): D {
    if history == [] then before
    else
      var last := history[|history| - 1].op;
      if last.WriteOp? && last.sector == sector then last.written
      else Latest(before, history[..|history| - 1], sector)
  }

  /** The sectors hold what was written to them last, and each request saw just that. */
  ghost predicate Recorded<D>(s: DiskState<D>, initial: seq<D>) {
    && |s.disk| == |initial| == NUM_SECTORS
    && (forall k :: 0 <= k < NUM_SECTORS ==> s.disk[k] == Latest(initial[k], s.history, k))
    && forall i :: 0 <= i < |s.history| ==>
         && s.history[i].op.sector < NUM_SECTORS
         && s.history[i].data == Latest(initial[s.history[i].op.sector], s.history[..i + 1], s.history[i].op.sector)
  }

  /** Each call's request falls between its start and its end and is the one recorded for it. */
  ghost predicate CallsRecorded<D>(s: DiskState<D>) {
    forall t: Tid :: t < |s.loc| ==> CallRecorded(s.loc[t], s.history)
  }

  ghost predicate CallRecorded<D>(l: Loc<D>, history: seq<Event<D>>) {
    match l
    case Idle => true
    case Enter(_, started) => started <= |history|
    case Await(op, started, at, data) => started <= at < |history| && history[at] == Event(op, data)
    case Exit(op, started, at, data) => started <= at < |history| && history[at] == Event(op, data)
  }

  ghost predicate DiskOk<D>(s: DiskState<D>, initial: seq<D>) {
    && LockOk(s.lock) && SemOk(s.sem) && Guarded(s) && InStep(s) && Sleepers(s)
    && Recorded(s, initial) && CallsRecorded(s)
  }

  lemma NewDiskOk<D>(threads: nat, disk: seq<D>)
    requires |disk| == NUM_SECTORS
    ensures DiskOk(NewDisk(threads, disk), disk)
  {
    NewLockOk(threads);
    hide LockOk;
  }

  /** A thread that awaits its request is the only one inside the lock. */
  lemma Exclusive<D>(s: DiskState<D>, t: Tid)
    requires LockOk(s.lock) && Guarded(s) && t < |s.loc| && s.lock.pc[t] == Hold
    ensures forall u: Tid :: u < |s.loc| && s.loc[u].Await? ==> u == t
  {
    Alone(s.lock, t);
  }

  /** The device's assertion that no request is in progress never fails. */
  lemma RequestFindsDiskIdle<D>(s: DiskState<D>, t: Tid)
    requires LockOk(s.lock) && SemOk(s.sem) && Guarded(s) && InStep(s) && Enabled(s, t, Request)
    ensures !s.active && s.sem.value == 0 && s.sem.downs == |s.history|
    ensures forall u: Tid :: u < |s.loc| ==> !s.loc[u].Await?
  {
    Exclusive(s, t);
    hide LockOk;
  }

  /** Never more than one completion is waiting to be consumed, and a thread that consumes one consumes the
      completion of its own request. */
  lemma OwnCompletion<D>(s: DiskState<D>, t: Tid)
    requires SemOk(s.sem) && InStep(s)
    ensures 0 <= s.sem.value <= 1 && (s.active ==> s.sem.value == 0)
    ensures Enabled(s, t, TestP) && s.sem.value > 0 ==>
      s.loc[t].at + 1 == s.sem.ups && s.loc[t].at == s.sem.downs && !s.active
  {
  }

  /** A call step by step: it begins by noting how many requests came before, issues its own when the lock is held,
      waits until a test finds a completion, and ends with the lock free; nobody else is moved. */
  lemma CallMoves<D>(s: DiskState<D>, t: Tid, a: Action<D>)
    requires Enabled(s, t, a)
    ensures var s', l := Do(s, t, a), s.loc[t];
      && |s'.loc| == |s.loc| && (forall u: Tid :: u < |s.loc| && u != t ==> s'.loc[u] == s.loc[u])
      && (a.Call? ==> s'.loc[t] == Enter(a.op, |s.history|))
      && (a.InLock? ==> s'.loc[t] == l)
      && (a == Request ==> s'.loc[t].Await? && s'.loc[t].op == l.op && s'.loc[t].at == |s.history| && s'.active)
      && (a == TestP ==> if s.sem.value == 0 then s'.loc[t] == l else s'.loc[t] == Exit(l.op, l.started, l.at, l.data))
      && (a == Return ==> s'.loc[t] == Idle)
      && (a != Request ==> s'.disk == s.disk && s'.history == s.history && s'.active == s.active)
      && (!a.InLock? ==> s'.lock == s.lock) && (a != TestP ==> s'.sem == s.sem)
  {
  }

  lemma StepKeepsGuarded<D>(s: DiskState<D>, t: Tid, a: Action<D>)
    requires Guarded(s) && Enabled(s, t, a)
    ensures Guarded(Do(s, t, a))
  {
    hide Perform;
  }

  lemma StepKeepsInStep<D>(s: DiskState<D>, t: Tid, a: Action<D>)
    requires LockOk(s.lock) && SemOk(s.sem) && Guarded(s) && InStep(s) && Enabled(s, t, a)
    ensures InStep(Do(s, t, a))
  {
    var s' := Do(s, t, a);
    if a == Request {
      RequestFindsDiskIdle(s, t);
      assert s'.loc[t].Await?;
    }
    hide LockOk, Perform;
    if a != Request {
      if u: Tid :| u < |s.loc| && s.loc[u].Await? {
        assert u == t || s'.loc[u].Await?;
      }
    }
  }

  lemma StepKeepsSleepers<D>(s: DiskState<D>, t: Tid, a: Action<D>)
    requires SemOk(s.sem) && Sleepers(s) && Enabled(s, t, a)
    ensures Sleepers(Do(s, t, a))
  {
    hide SemOk, Perform;
    var s' := Do(s, t, a);
    assert s.loc[t].Await? ==> a == TestP;
    forall u | u in s'.sem.queue || u in s'.sem.woken
      ensures u < |s'.loc| && s'.loc[u].Await?
    {
      assert u in s.sem.queue || u in s.sem.woken || u == t;
      assert a == TestP && u == t ==> s.sem.value == 0;
    }
  }

  lemma StepKeepsCalls<D>(s: DiskState<D>, t: Tid, a: Action<D>)
    requires CallsRecorded(s) && Enabled(s, t, a)
    ensures CallsRecorded(Do(s, t, a))
  {
    hide Perform;
    var s' := Do(s, t, a);
    forall u: Tid | u < |s.loc|
      ensures CallRecorded(s'.loc[u], s'.history)
    {
      assert CallRecorded(s.loc[u], s.history);
    }
  }

  /** A thread inside a call can take a step unless it sleeps: on the lock, or until its request completes. */
  lemma CanMove<D>(s: DiskState<D>, initial: seq<D>, t: Tid)
    requires DiskOk(s, initial) && t < |s.loc| && !s.loc[t].Idle? && (s.loc[t].Enter? ==> s.loc[t].op.sector < NUM_SECTORS)
    ensures (exists a :: Enabled(s, t, a)) <==>
      !(s.loc[t].Enter? && s.lock.pc[t] == Want && t in s.lock.sem.queue) && !(s.loc[t].Await? && t in s.sem.queue)
  {
    hide LockOk, SemOk, InStep, Sleepers, CallsRecorded;
    assert PlaceOk(s.loc[t], s.lock.pc[t]);
    hide Guarded;
    var p := s.lock.pc[t];
    assert s.loc[t].Await? && t !in s.sem.queue ==> Enabled(s, t, TestP);
    if s.loc[t].Enter? {
      assert p == Out ==> Enabled(s, t, InLock(Begin));
      assert p == Want && t !in s.lock.sem.queue ==> Enabled(s, t, InLock(Test));
      assert p == Got ==> Enabled(s, t, InLock(SetHolder));
      assert p == Hold ==> Enabled(s, t, Request);
    } else if s.loc[t].Exit? {
      assert p == Hold ==> Enabled(s, t, InLock(ClearHolder));
      assert p == Freed ==> Enabled(s, t, InLock(Signal));
      assert p == Out ==> Enabled(s, t, Return);
    }
  }

  /** One more event changes what a sector holds only if it writes that sector. */
  lemma LatestStep<D>(before: D, history: seq<Event<D>>, e: Event<D>, sector: nat)
    ensures Latest(before, history + [e], sector) ==
      if e.op.WriteOp? && e.op.sector == sector then e.op.written else Latest(before, history, sector)
  {
    assert (history + [e])[..|history|] == history;
  }

  lemma RequestKeepsRecorded<D>(s: DiskState<D>, t: Tid, initial: seq<D>)
    requires Recorded(s, initial) && Enabled(s, t, Request)
    ensures Recorded(Do(s, t, Request), initial)
  {
    var op := s.loc[t].op;
    var s' := Do(s, t, Request);
    var h, h' := s.history, s'.history;
    var e := h'[|h|];
    assert h' == h + [e] && e.op == op && s'.disk == Perform(s.disk, op) && e.data == s'.disk[op.sector];
    hide Do, Enabled;
    forall k | 0 <= k < NUM_SECTORS
      ensures s'.disk[k] == Latest(initial[k], h', k)
    {
      LatestStep(initial[k], h, e, k);
    }
    hide Latest, Perform;
    forall i | 0 <= i < |h'|
      ensures h'[i].op.sector < NUM_SECTORS && h'[i].data == Latest(initial[h'[i].op.sector], h'[..i + 1], h'[i].op.sector)
    {
      if i < |h| {
        assert h'[..i + 1] == h[..i + 1] && h'[i] == h[i];
      } else {
        assert h'[..i + 1] == h';
      }
    }
  }

  lemma StepKeepsRecorded<D>(s: DiskState<D>, t: Tid, a: Action<D>, initial: seq<D>)
    requires Recorded(s, initial) && Enabled(s, t, a)
    ensures Recorded(Do(s, t, a), initial)
  {
    if a == Request {
      hide Recorded;
      RequestKeepsRecorded(s, t, initial);
    } else {
      assert Do(s, t, a).history == s.history && Do(s, t, a).disk == s.disk;
      hide Do, Enabled;
    }
  }

  lemma StepKeepsOk<D>(s: DiskState<D>, t: Tid, a: Action<D>, initial: seq<D>)
    requires DiskOk(s, initial) && Enabled(s, t, a)
    ensures DiskOk(Do(s, t, a), initial)
  {
    var s' := Do(s, t, a);
    assert s'.lock == if a.InLock? then LockDo(s.lock, t, a.step) else s.lock;
    assert s'.sem == if a == TestP then TryP(s.sem, t).0 else s.sem;
    assert a.InLock? ==> LockEnabled(s.lock, t, a.step);
    assert a == TestP ==> t !in s.sem.queue;
    hide LockOk, LockDo, LockEnabled, SemOk, TryP, Guarded, InStep, Sleepers, Recorded, CallsRecorded, Enabled, Do;
    if a.InLock? {
      LockStepKeepsOk(s.lock, t, a.step);
    }
    if a == TestP {
      TryPKeepsOk(s.sem, t);
    }
    StepKeepsGuarded(s, t, a);
    StepKeepsInStep(s, t, a);
    StepKeepsSleepers(s, t, a);
    StepKeepsRecorded(s, t, a, initial);
    StepKeepsCalls(s, t, a);
  }

  lemma CompleteKeepsSleepers<D>(s: DiskState<D>)
    requires SemOk(s.sem) && Sleepers(s)
    ensures Sleepers(Complete(s))
  {
    PostMoves(s.sem);
    hide SemOk, Post;
    assert s.sem.queue != [] ==> s.sem.queue[0] in s.sem.queue;
  }

  lemma CompleteKeepsInStep<D>(s: DiskState<D>)
    requires InStep(s) && s.active
    ensures InStep(Complete(s))
  {
  }

  lemma CompleteKeepsOk<D>(s: DiskState<D>, initial: seq<D>)
    requires DiskOk(s, initial) && s.active
    ensures DiskOk(Complete(s), initial)
  {
    assert Guarded(Complete(s)) && Recorded(Complete(s), initial) && CallsRecorded(Complete(s));
    hide LockOk, SemOk, Guarded, Recorded, CallsRecorded, Post, InStep, Sleepers;
    PostKeepsOk(s.sem);
    CompleteKeepsInStep(s);
    CompleteKeepsSleepers(s);
  }

  ghost predicate Step<D(!new)>(s: DiskState<D>, s': DiskState<D>) {
    || (s.active && s' == Complete(s))
    || exists t, a :: Enabled(s, t, a) && s' == Do(s, t, a)
  }

  ghost predicate DiskRun<D(!new)>(run: seq<DiskState<D>>, threads: nat, initial: seq<D>) {
    && |initial| == NUM_SECTORS
    && run != [] && run[0] == NewDisk(threads, initial) && forall i :: 0 <= i < |run| - 1 ==> Step(run[i], run[i + 1])
  }

  lemma {:induction false} DiskRuns<D(!new)>(run: seq<DiskState<D>>, threads: nat, initial: seq<D>, i: nat)
    requires DiskRun(run, threads, initial) && i < |run|
    ensures DiskOk(run[i], initial)
  {
    hide DiskOk, Enabled, Do, Complete;
    if i == 0 {
      NewDiskOk(threads, initial);
    } else {
      DiskRuns(run, threads, initial, i - 1);
      var s, s' := run[i - 1], run[i - 1 + 1];
      if s.active && s' == Complete(s) {
        CompleteKeepsOk(s, initial);
      } else {
        var t, a :| Enabled(s, t, a) && s' == Do(s, t, a);
        StepKeepsOk(s, t, a, initial);
      }
    }
  }

  /** In every run with any number of threads: whoever is about to issue a request finds the disk idle, and
      whoever stops waiting has seen exactly the completion of its own request. */
  lemma OneRequestAtATime<D(!new)>(run: seq<DiskState<D>>, threads: nat, initial: seq<D>, i: nat, t: Tid)
    requires DiskRun(run, threads, initial) && i < |run|
    ensures 0 <= run[i].sem.value <= 1
    ensures Enabled(run[i], t, Request) ==> !run[i].active
    ensures Enabled(run[i], t, TestP) && run[i].sem.value > 0 ==>
      run[i].loc[t].at + 1 == run[i].sem.ups && run[i].loc[t].at == run[i].sem.downs
  {
    DiskRuns(run, threads, initial, i);
    hide LockOk, Recorded, CallsRecorded, Enabled;
    OwnCompletion(run[i], t);
    if Enabled(run[i], t, Request) {
      RequestFindsDiskIdle(run[i], t);
    }
  }

  /** A thread that sleeps on the semaphore is not forgotten: its request is still in progress. */
  lemma SleeperWillWake<D(!new)>(run: seq<DiskState<D>>, threads: nat, initial: seq<D>, i: nat, t: Tid)
    requires DiskRun(run, threads, initial) && i < |run| && t in run[i].sem.queue
    ensures run[i].active && run[i].sem.queue == [t]
  {
    DiskRuns(run, threads, initial, i);
    var s := run[i];
    forall u | u in s.sem.queue || u in s.sem.woken ensures u == t {
      Exclusive(s, t);
    }
    assert s.sem.woken == {};
    OnlyEntry(s.sem.queue, t);
  }

  lemma OnlyEntry(q: seq<Tid>, t: Tid)
    requires NoRepeats(q) && t in q && forall u :: u in q ==> u == t
    ensures q == [t]
  {
    var rest := q[1..];
    assert q == [q[0]] + rest;
    HeadIn(rest);
    HeadIn(q);
    HeadLeaves(q);
  }

  /** What a returning ReadSector delivers is what the last WriteSector to that sector wrote, in the order in which
      requests reached the disk; the read's own place in that order lies after everything that had returned
      when it was called. */
  lemma ReadsLatestWrite<D(!new)>(run: seq<DiskState<D>>, threads: nat, initial: seq<D>, i: nat, t: Tid)
    requires DiskRun(run, threads, initial) && i < |run|
    requires t < |run[i].loc| && run[i].loc[t].Exit?
    ensures var l, h := run[i].loc[t], run[i].history;
      && l.op.sector < NUM_SECTORS && l.started <= l.at < |h| && h[l.at] == Event(l.op, l.data)
      && l.data == Latest(initial[l.op.sector], h[..l.at + 1], l.op.sector)
      && (l.op.ReadOp? ==> l.data == Latest(initial[l.op.sector], h[..l.at], l.op.sector))
  {
    DiskRuns(run, threads, initial, i);
    var l, h := run[i].loc[t], run[i].history;
    assert CallRecorded(l, h);
    hide LockOk, Guarded;
    assert h[..l.at + 1] == h[..l.at] + [h[l.at]];
    LatestStep(initial[l.op.sector], h[..l.at], h[l.at], l.op.sector);
  }

  /** The object, with its lock, its semaphore and the device. Each method is one atomic section of ReadSector or
      WriteSector, or the interrupt. */
  class SynchDisk<D(==)> {
    const lock: Lock
    const semaphore: Semaphore
    var disk: seq<D>
    var active: bool
    ghost const initial: seq<D>
    ghost var loc: seq<Loc<D>>
    ghost var history: seq<Event<D>>

    ghost function State(): DiskState<D>
      reads this, lock, semaphore
    {
      DiskState(lock.state, loc, semaphore.history, active, disk, history)
    }

    ghost predicate Valid()
      reads this, lock, lock.semaphore, semaphore
    {
      lock.Valid() && semaphore.Valid() && lock.semaphore != semaphore && DiskOk(State(), initial)
    }

    constructor (threads: nat, sectors: seq<D>)
      requires |sectors| == NUM_SECTORS
      ensures Valid() && State() == NewDisk(threads, sectors) && fresh(lock) && fresh(lock.semaphore) && fresh(semaphore)
    {
      hide DiskOk, LockOk, SemOk;
      semaphore := new Semaphore(0);
      lock := new Lock(threads);
      disk, active := sectors, false;
      initial, loc, history := sectors, seq(threads, i => Idle), [];
      NewDiskOk(threads, sectors);
    }

    /** A thread calls ReadSector or WriteSector. */
    ghost method Start(t: Tid, op: Op<D>)
      requires Valid() && Enabled(State(), t, Call(op))
      modifies this`loc
      ensures Valid() && State() == Do(old(State()), t, Call(op))
    {
      hide DiskOk, LockOk, SemOk;
      StepKeepsOk(State(), t, Call(op), initial);
      loc := loc[t := Enter(op, |history|)];
    }

    /** One pass of P's loop in the lock's Acquire. */
    method TryLock(t: Tid) returns (available: bool)
      requires Valid() && Enabled(State(), t, InLock(LockAction.Test))
      modifies lock, lock.semaphore
      ensures Valid() && State() == Do(old(State()), t, InLock(LockAction.Test))
      ensures available <==> lock.state.pc[t] == Got
    {
      hide DiskOk, LockOk, SemOk, LockDo;
      StepKeepsOk(State(), t, InLock(LockAction.Test), initial);
      available := lock.TryAcquire(t);
    }

    /** The end of Acquire. */
    method FinishLock(t: Tid)
      requires Valid() && Enabled(State(), t, InLock(SetHolder))
      modifies lock
      ensures Valid() && State() == Do(old(State()), t, InLock(SetHolder))
    {
      hide DiskOk, LockOk, SemOk, LockDo;
      StepKeepsOk(State(), t, InLock(SetHolder), initial);
      lock.RecordHolder(t);
    }

    /** The two parts of Release. */
    method StartUnlock(t: Tid) returns (asserted: bool)
      requires Valid() && Enabled(State(), t, InLock(LockAction.ClearHolder))
      modifies lock
      ensures Valid() && State() == Do(old(State()), t, InLock(LockAction.ClearHolder)) && asserted
    {
      hide DiskOk, LockOk, SemOk, LockDo;
      StepKeepsOk(State(), t, InLock(LockAction.ClearHolder), initial);
      asserted := lock.ClearHolder(t);
    }

    method FinishUnlock(t: Tid) returns (ready: Option<Tid>)
      requires Valid() && Enabled(State(), t, InLock(LockAction.Signal))
      modifies lock, lock.semaphore
      ensures Valid() && State() == Do(old(State()), t, InLock(LockAction.Signal))
    {
      hide DiskOk, LockOk, SemOk, LockDo;
      StepKeepsOk(State(), t, InLock(LockAction.Signal), initial);
      ready := lock.Signal(t);
    }

    /** The request itself; `asserted` is the device's check that it is idle. */
    method IssueRequest(t: Tid, op: Op<D>) returns (asserted: bool, data: D)
      requires Valid() && Enabled(State(), t, Request) && loc[t].op == op
      modifies this`disk, this`active, this`loc, this`history
      ensures Valid() && State() == Do(old(State()), t, Request)
      ensures asserted && loc[t].data == data && active && op.sector < |disk|
      ensures if op.ReadOp? then disk == old(disk) && data == disk[op.sector]
              else disk == old(disk)[op.sector := op.written]
    {
      RequestFindsDiskIdle(State(), t);
      hide DiskOk, LockOk, SemOk;
      StepKeepsOk(State(), t, Request, initial);
      asserted := !active;
      active := true;
      disk := Perform(disk, op);
      data := disk[op.sector];
      loc, history := loc[t := Await(op, loc[t].started, |history|, data)], history + [Event(op, data)];
    }

    /** One pass of P's loop on the completion semaphore. */
    method TryWait(t: Tid) returns (done: bool)
      requires Valid() && Enabled(State(), t, TestP)
      modifies this`loc, semaphore
      ensures Valid() && State() == Do(old(State()), t, TestP)
      ensures (done <==> old(semaphore.value) > 0) && (done <==> loc[t].Exit?)
    {
      hide DiskOk, LockOk, SemOk, TryP;
      StepKeepsOk(State(), t, TestP, initial);
      ghost var l := loc[t];
      done := semaphore.Test(t);
      if done {
        loc := loc[t := Exit(l.op, l.started, l.at, l.data)];
      }
    }

    /** The disk's interrupt. */
    method CallBack() returns (ready: Option<Tid>)
      requires Valid() && active
      modifies this`active, semaphore
      ensures Valid() && State() == Complete(old(State())) && !active && semaphore.value == old(semaphore.value) + 1
    {
      hide DiskOk, LockOk, SemOk, Post;
      CompleteKeepsOk(State(), initial);
      active := false;
      ready := semaphore.V();
    }
  }
}

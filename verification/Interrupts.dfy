/** The interrupt queue and the simulated clock. */
module Interrupts {
  import opened Lists

  const USER_TICK := 1
  const SYSTEM_TICK := 10

  /** How far in the future an interrupt may be scheduled. */
  type Delay = d: int | d > 0 witness 1

  /** A pending interrupt; `id` is its number in the order of the Schedule calls. */
  datatype Pending = Pending(id: nat, when: int)

  datatype Firing = Firing(entry: Pending, at: int)

  /** What a handler does when it is called: the interrupts it schedules, and whether it asks for a switch. As
      no interrupt fires twice, a function of the interrupt's number covers every behaviour. */
  datatype Handlers = Handlers(delays: nat -> seq<Delay>, wantsYield: nat -> bool)

  /** A Schedule call: when it was made, and for how much later. */
  datatype Request = Request(at: int, delay: Delay)

  /** The queue and the clock, with a record of every Schedule call, of what it put into the queue, and of every
      firing. */
  datatype Machine = Machine(
    pending: seq<Pending>, total: int, idle: int, system: int, user: int,
    asked: seq<Request>, scheduled: seq<Pending>, fired: seq<Firing>)

  function PendingCompare(x: Pending, y: Pending): int {
    if x.when < y.when then -1 else if x.when > y.when then 1 else 0
  }

  const NEW_MACHINE := Machine([], 0, 0, 0, 0, [], [], [])

  function Scheduled(m: Machine, fromNow: Delay): Machine {
    var toOccur := Pending(|m.scheduled|, m.total + fromNow);
    m.(pending := SortedInsert(m.pending, toOccur, PendingCompare), scheduled := m.scheduled + [toOccur],
       asked := m.asked + [Request(m.total, fromNow)])
  }

  function ScheduleAll(m: Machine, delays: seq<Delay>): Machine
    decreases |delays|
  {
    if delays == [] then m else ScheduleAll(Scheduled(m, delays[0]), delays[1..])
  }

  /** The first pending interrupt leaves the queue and its handler runs. */
  function FireFirst(m: Machine, h: Handlers): Machine
    requires m.pending != []
  {
    ScheduleAll(m.(pending := m.pending[1..], fired := m.fired + [Firing(m.pending[0], m.total)]), h.delays(m.pending[0].id))
  }

  function DueCount(pending: seq<Pending>, now: int): nat {
    if pending == [] then 0 else (if pending[0].when <= now then 1 else 0) + DueCount(pending[1..], now)
  }

  predicate FirstIsDue(m: Machine) { m.pending != [] && m.pending[0].when <= m.total }

  /** Fires until the first pending interrupt is not due, or there is none. */
  function FireDue(m: Machine, h: Handlers): Machine
    decreases DueCount(m.pending, m.total)
  {
    if FirstIsDue(m) then
      FiringReducesDue(m, h);
      FireDue(FireFirst(m, h), h)
    else m
  }

  lemma {:induction false} DueCountAppend(a: seq<Pending>, b: seq<Pending>, now: int)
    ensures DueCount(a + b, now) == DueCount(a, now) + DueCount(b, now)
  {
    if a == [] {
      assert a + b == b;
    } else {
      assert (a + b)[1..] == a[1..] + b;
      DueCountAppend(a[1..], b, now);
    }
  }

  lemma ScheduleKeepsDue(m: Machine, fromNow: Delay)
    ensures DueCount(Scheduled(m, fromNow).pending, m.total) == DueCount(m.pending, m.total)
  {
    var toOccur := Pending(|m.scheduled|, m.total + fromNow);
    var k := Place(m.pending, toOccur, PendingCompare);
    assert Scheduled(m, fromNow).pending == m.pending[..k] + [toOccur] + m.pending[k..];
    hide Place, SortedInsert, Scheduled;
    DueCountAppend(m.pending[..k], m.pending[k..], m.total);
    assert m.pending == m.pending[..k] + m.pending[k..];
    DueCountAppend(m.pending[..k] + [toOccur], m.pending[k..], m.total);
    DueCountAppend(m.pending[..k], [toOccur], m.total);
    assert DueCount([toOccur], m.total) == 0;
  }

  lemma {:induction false} ScheduleAllKeepsDue(m: Machine, delays: seq<Delay>)
    ensures ScheduleAll(m, delays).total == m.total
    ensures DueCount(ScheduleAll(m, delays).pending, m.total) == DueCount(m.pending, m.total)
    decreases |delays|
  {
    if delays != [] {
      ScheduleKeepsDue(m, delays[0]);
      ScheduleAllKeepsDue(Scheduled(m, delays[0]), delays[1..]);
    }
  }

  /** Handlers only schedule strictly later, so every firing leaves one due interrupt less: the loop ends. */
  lemma FiringReducesDue(m: Machine, h: Handlers)
    requires FirstIsDue(m)
    ensures FireFirst(m, h).total == m.total
    ensures DueCount(FireFirst(m, h).pending, m.total) == DueCount(m.pending, m.total) - 1
  {
    ScheduleAllKeepsDue(m.(pending := m.pending[1..], fired := m.fired + [Firing(m.pending[0], m.total)]),
      h.delays(m.pending[0].id));
  }

  /** Earlier time first, and first come first served at the same time. */
  predicate Before(x: Pending, y: Pending) {
    x.when < y.when || (x.when == y.when && x.id < y.id)
  }

  ghost predicate InOrder(line: seq<Pending>) {
    forall i, j :: 0 <= i < j < |line| ==> Before(line[i], line[j])
  }

  function Entries(fired: seq<Firing>): seq<Pending> {
    seq(|fired|, i requires 0 <= i < |fired| => fired[i].entry)
  }

  /** What has fired and what is pending, in that order. */
  function Line(m: Machine): seq<Pending> { Entries(m.fired) + m.pending }

  /** Each request has one interrupt, for the time asked for. */
  ghost predicate Recorded(m: Machine) {
    && |m.asked| == |m.scheduled|
    && forall id :: 0 <= id < |m.scheduled| ==>
         m.scheduled[id].id == id && m.scheduled[id].when == m.asked[id].at + m.asked[id].delay
  }

  /** What has fired, followed by what is pending, is exactly what was asked for,
      in order of time and then of insertion. */
  ghost predicate Orderly(m: Machine) {
    && InOrder(Line(m))
    && multiset(Line(m)) == multiset(m.scheduled)
    && Recorded(m)
  }

  /** Nothing fires early or as much as a tick late; no time is lost. */
  ghost predicate Timely(m: Machine) {
    && (forall i :: 0 <= i < |m.fired| ==> OnTime(m.fired[i]) && m.fired[i].at <= m.total)
    && m.total == m.idle + m.system + m.user
  }

  predicate OnTime(f: Firing) { f.entry.when <= f.at < f.entry.when + SYSTEM_TICK }

  /** Nothing pending is due. */
  ghost predicate Quiet(m: Machine) {
    forall i :: 0 <= i < |m.pending| ==> m.total < m.pending[i].when
  }

  /** Whatever is due became due less than a tick ago. */
  ghost predicate Fresh(m: Machine) {
    forall i :: 0 <= i < |m.pending| ==> m.total < m.pending[i].when + SYSTEM_TICK
  }

  lemma IdsBelow(m: Machine)
    requires Orderly(m)
    ensures forall i :: 0 <= i < |Line(m)| ==> Line(m)[i].id < |m.scheduled|
  {
    forall i | 0 <= i < |Line(m)| ensures Line(m)[i].id < |m.scheduled| {
      assert Line(m)[i] in multiset(Line(m));
      assert Line(m)[i] in m.scheduled;
    }
  }

  /** Before the place lies what comes before the new interrupt, and nothing else. */
  lemma PlaceSplitsBefore(s: seq<Pending>, x: Pending)
    requires InOrder(s) && forall i :: 0 <= i < |s| ==> s[i].id < x.id
    ensures forall i :: 0 <= i < Place(s, x, PendingCompare) ==> Before(s[i], x)
    ensures forall i :: Place(s, x, PendingCompare) <= i < |s| ==> Before(x, s[i])
  {
    var k := Place(s, x, PendingCompare);
    assert forall i :: 0 <= i < k ==> PendingCompare(x, s[i]) >= 0;
    assert k < |s| ==> Before(x, s[k]);
    forall i | k <= i < |s| ensures Before(x, s[i]) {
      assert k < i ==> Before(s[k], s[i]);
    }
  }

  lemma InsertInOrder(s: seq<Pending>, x: Pending, k: nat)
    requires InOrder(s) && k <= |s|
    requires forall i :: 0 <= i < k ==> Before(s[i], x)
    requires forall i :: k <= i < |s| ==> Before(x, s[i])
    ensures InOrder(s[..k] + [x] + s[k..])
  {
    var s' := s[..k] + [x] + s[k..];
    assert forall i :: 0 <= i < |s'| ==> s'[i] == if i < k then s[i] else if i == k then x else s[i - 1];
  }

  lemma PlaceInOrder(s: seq<Pending>, x: Pending)
    requires InOrder(s) && forall i :: 0 <= i < |s| ==> s[i].id < x.id
    ensures InOrder(SortedInsert(s, x, PendingCompare))
  {
    PlaceSplitsBefore(s, x);
    hide InOrder, Place, Before;
    InsertInOrder(s, x, Place(s, x, PendingCompare));
  }

  lemma InOrderConcat(a: seq<Pending>, b: seq<Pending>)
    ensures InOrder(a + b) <==>
      InOrder(a) && InOrder(b) && forall i, j :: 0 <= i < |a| && 0 <= j < |b| ==> Before(a[i], b[j])
  {
    var c := a + b;
    assert forall i :: 0 <= i < |a| ==> c[i] == a[i];
    assert forall j :: 0 <= j < |b| ==> c[|a| + j] == b[j];
  }

  /** What the queue holds after an insertion. */
  lemma ScheduledPending(m: Machine, fromNow: Delay)
    requires Orderly(m)
    ensures var m' := Scheduled(m, fromNow);
      var x := m'.scheduled[|m.scheduled|];
      && InOrder(m'.pending) && multiset(m'.pending) == multiset(m.pending) + multiset{x}
      && forall y :: y in m'.pending ==> y == x || y in m.pending
  {
    var m' := Scheduled(m, fromNow);
    var x := m'.scheduled[|m.scheduled|];
    IdsBelow(m);
    var n := |m.fired|;
    assert forall i :: 0 <= i < |m.pending| ==> m.pending[i] == Line(m)[n + i];
    InOrderConcat(Entries(m.fired), m.pending);
    hide InOrder, Line;
    PlaceInOrder(m.pending, x);
    InsertAdds(m.pending, x, PendingCompare);
    hide *;
    forall y | y in m'.pending ensures y == x || y in m.pending {
      assert y in multiset(m'.pending);
    }
  }

  lemma ScheduleKeepsRecorded(m: Machine, fromNow: Delay)
    requires Recorded(m)
    ensures Recorded(Scheduled(m, fromNow))
  {
    hide SortedInsert;
  }

  /** A new interrupt lies in the future, hence behind everything that fired. */
  lemma ScheduleKeepsOrderly(m: Machine, fromNow: Delay)
    requires Orderly(m) && Timely(m)
    ensures Orderly(Scheduled(m, fromNow))
  {
    ScheduleKeepsRecorded(m, fromNow);
    var m', e := Scheduled(m, fromNow), Entries(m.fired);
    var x := m'.scheduled[|m.scheduled|];
    ScheduledPending(m, fromNow);
    assert multiset(Line(m')) == multiset(Line(m)) + multiset{x};
    assert m'.scheduled == m.scheduled + [x] && x.when > m.total && x.id == |m.scheduled|;
    assert Entries(m'.fired) == e;
    InOrderConcat(e, m.pending);
    hide Scheduled, InOrder, Recorded;
    forall i, j | 0 <= i < |e| && 0 <= j < |m'.pending| ensures Before(e[i], m'.pending[j]) {
      assert OnTime(m.fired[i]);
      assert m'.pending[j] in m'.pending;
    }
    InOrderConcat(e, m'.pending);
  }

  lemma ScheduleKeepsTimely(m: Machine, fromNow: Delay)
    requires Timely(m)
    ensures Timely(Scheduled(m, fromNow))
    ensures Quiet(m) ==> Quiet(Scheduled(m, fromNow))
    ensures Fresh(m) ==> Fresh(Scheduled(m, fromNow))
  {
    hide Place;
  }

  lemma {:induction false} ScheduleAllKeeps(m: Machine, delays: seq<Delay>)
    requires Orderly(m) && Timely(m) && Fresh(m)
    ensures Orderly(ScheduleAll(m, delays)) && Timely(ScheduleAll(m, delays)) && Fresh(ScheduleAll(m, delays))
    ensures ScheduleAll(m, delays).total == m.total
    decreases |delays|
  {
    hide Orderly, Timely, Fresh;
    if delays != [] {
      ScheduleKeepsOrderly(m, delays[0]);
      ScheduleKeepsTimely(m, delays[0]);
      ScheduleAllKeeps(Scheduled(m, delays[0]), delays[1..]);
    }
  }

  /** A firing moves the first pending interrupt to the end of what has fired: the line as a whole stays. */
  lemma FireFirstKeeps(m: Machine, h: Handlers)
    requires Orderly(m) && Timely(m) && Fresh(m) && FirstIsDue(m)
    ensures Orderly(FireFirst(m, h)) && Timely(FireFirst(m, h)) && Fresh(FireFirst(m, h))
    ensures FireFirst(m, h).total == m.total
  {
    var gone := m.(pending := m.pending[1..], fired := m.fired + [Firing(m.pending[0], m.total)]);
    assert Line(gone) == Line(m) by {
      assert Entries(gone.fired) == Entries(m.fired) + [m.pending[0]];
      assert m.pending == [m.pending[0]] + m.pending[1..];
    }
    hide Line;
    ScheduleAllKeeps(gone, h.delays(m.pending[0].id));
  }

  /** Firing keeps the order and the times, and leaves nothing due. */
  lemma {:induction false} FireDueKeeps(m: Machine, h: Handlers)
    requires Orderly(m) && Timely(m) && Fresh(m)
    ensures Orderly(FireDue(m, h)) && Timely(FireDue(m, h)) && Quiet(FireDue(m, h))
    ensures FireDue(m, h).total == m.total
    decreases DueCount(m.pending, m.total)
  {
    if FirstIsDue(m) {
      FiringReducesDue(m, h);
      FireFirstKeeps(m, h);
      hide Orderly, Timely, Fresh, FireFirst;
      FireDueKeeps(FireFirst(m, h), h);
    } else {
      InOrderConcat(Entries(m.fired), m.pending);
      assert forall i :: 1 <= i < |m.pending| ==> Before(m.pending[0], m.pending[i]);
    }
  }

  function Ticked(m: Machine, systemMode: bool): Machine {
    if systemMode then m.(total := m.total + SYSTEM_TICK, system := m.system + SYSTEM_TICK)
    else m.(total := m.total + USER_TICK, user := m.user + USER_TICK)
  }

  /** Time passes by one tick of the given mode, then what has become due fires. */
  function Tick(m: Machine, systemMode: bool, h: Handlers): Machine {
    FireDue(Ticked(m, systemMode), h)
  }

  function Jumped(m: Machine): Machine
    requires m.pending != []
  {
    var when := m.pending[0].when;
    if when > m.total then m.(idle := m.idle + (when - m.total), total := when) else m
  }

  /** With nobody to run, the clock jumps to the first pending interrupt, if there is one. */
  function Idled(m: Machine, h: Handlers): Machine {
    if m.pending == [] then m else FireDue(Jumped(m), h)
  }

  /** What holds whenever no tick is under way. */
  ghost predicate MachineOk(m: Machine) { Orderly(m) && Timely(m) && Quiet(m) }

  lemma SameLineOrderly(m: Machine, m': Machine)
    requires Orderly(m) && m'.pending == m.pending && m'.fired == m.fired
    requires m'.scheduled == m.scheduled && m'.asked == m.asked
    ensures Orderly(m')
  {
    assert Line(m') == Line(m);
    hide Line, InOrder;
  }

  lemma TickKeepsOk(m: Machine, systemMode: bool, h: Handlers)
    requires MachineOk(m)
    ensures MachineOk(Tick(m, systemMode, h))
  {
    SameLineOrderly(m, Ticked(m, systemMode));
    hide Orderly;
    assert Timely(Ticked(m, systemMode)) && Fresh(Ticked(m, systemMode));
    hide Ticked, Timely, Fresh, Quiet, FireDue;
    FireDueKeeps(Ticked(m, systemMode), h);
  }

  lemma JumpKeeps(m: Machine)
    requires MachineOk(m) && m.pending != []
    ensures Orderly(Jumped(m)) && Timely(Jumped(m)) && Fresh(Jumped(m))
    ensures Jumped(m).total == m.pending[0].when
  {
    InOrderConcat(Entries(m.fired), m.pending);
    hide Entries;
    assert m.total < m.pending[0].when;
    assert forall i :: 1 <= i < |m.pending| ==> Before(m.pending[0], m.pending[i]);
    SameLineOrderly(m, Jumped(m));
    hide Orderly, InOrder;
  }

  lemma IdleKeepsOk(m: Machine, h: Handlers)
    requires MachineOk(m)
    ensures MachineOk(Idled(m, h))
    ensures m.pending != [] ==> Idled(m, h).total == m.pending[0].when
  {
    hide Orderly, Timely, Quiet, Fresh, FireDue, Jumped;
    if m.pending != [] {
      JumpKeeps(m);
      FireDueKeeps(Jumped(m), h);
    }
  }

  lemma ScheduleKeepsOk(m: Machine, fromNow: Delay)
    requires MachineOk(m)
    ensures MachineOk(Scheduled(m, fromNow))
  {
    ScheduleKeepsOrderly(m, fromNow);
    ScheduleKeepsTimely(m, fromNow);
  }

  /** A device asks for an interrupt, or time passes in a thread, or in nobody. */
  ghost predicate Step(m: Machine, m': Machine, h: Handlers) {
    || (exists fromNow: Delay :: m' == Scheduled(m, fromNow))
    || (exists systemMode :: m' == Tick(m, systemMode, h))
    || m' == Idled(m, h)
  }

  ghost predicate MachineRun(run: seq<Machine>, h: Handlers) {
    run != [] && run[0] == NEW_MACHINE && forall i :: 0 <= i < |run| - 1 ==> Step(run[i], run[i + 1], h)
  }

  lemma NewMachineOk()
    ensures MachineOk(NEW_MACHINE)
  {
  }

  lemma {:induction false} MachineRuns(run: seq<Machine>, h: Handlers, i: nat)
    requires MachineRun(run, h) && i < |run|
    ensures MachineOk(run[i])
  {
    hide MachineOk, Scheduled, Tick, Idled;
    if i == 0 {
      NewMachineOk();
    } else {
      MachineRuns(run, h, i - 1);
      var m, m' := run[i - 1], run[i - 1 + 1];
      if fromNow: Delay :| m' == Scheduled(m, fromNow) {
        ScheduleKeepsOk(m, fromNow);
      } else if systemMode :| m' == Tick(m, systemMode, h) {
        TickKeepsOk(m, systemMode, h);
      } else {
        IdleKeepsOk(m, h);
      }
    }
  }

  /** Over every run, with any handlers: an interrupt asked for at one time with some delay has fired exactly if that
      delay has passed, exactly once, not early, less than a system tick late, and in order of time, then of insertion. */
  lemma EachInterruptOnceInTime(run: seq<Machine>, h: Handlers, i: nat, id: nat)
    requires MachineRun(run, h) && i < |run| && id < |run[i].asked|
    ensures var m := run[i];
      var due := m.asked[id].at + m.asked[id].delay;
      && (due <= m.total <==> exists k :: 0 <= k < |m.fired| && m.fired[k].entry.id == id)
      && (forall k :: 0 <= k < |m.fired| && m.fired[k].entry.id == id ==> due <= m.fired[k].at < due + 10)
      && (forall j, k :: 0 <= j < k < |m.fired| ==>
            Before(m.fired[j].entry, m.fired[k].entry) && m.fired[j].entry.id != m.fired[k].entry.id)
  {
    MachineRuns(run, h, i);
    var m := run[i];
    OnceInTime(m, id);
    forall k | 0 <= k < |m.fired| && m.fired[k].entry.id == id
      ensures m.asked[id].at + m.asked[id].delay <= m.fired[k].at < m.asked[id].at + m.asked[id].delay + 10
    {
      FiredEntry(m, k);
      assert OnTime(m.fired[k]);
    }
    forall j, k | 0 <= j < k < |m.fired|
      ensures Before(m.fired[j].entry, m.fired[k].entry) && m.fired[j].entry.id != m.fired[k].entry.id
    {
      FiredEntry(m, j);
      FiredEntry(m, k);
      InOrderConcat(Entries(m.fired), m.pending);
      assert Before(Entries(m.fired)[j], Entries(m.fired)[k]);
    }
  }

  /** What fired is what was scheduled under its number. */
  lemma FiredEntry(m: Machine, k: nat)
    requires Orderly(m) && k < |m.fired|
    ensures var x := m.fired[k].entry; x.id < |m.scheduled| && m.scheduled[x.id] == x
  {
    assert Line(m)[k] == m.fired[k].entry;
    assert Line(m)[k] in multiset(Line(m));
    assert m.fired[k].entry in m.scheduled;
  }

  lemma OnceInTime(m: Machine, id: nat)
    requires MachineOk(m) && id < |m.asked|
    ensures m.asked[id].at + m.asked[id].delay <= m.total <==> exists k :: 0 <= k < |m.fired| && m.fired[k].entry.id == id
  {
    var x, e := m.scheduled[id], Entries(m.fired);
    assert x in multiset(m.scheduled);
    assert x in Line(m);
    InOrderConcat(e, m.pending);
    var n :| 0 <= n < |Line(m)| && Line(m)[n] == x;
    if n < |e| {
      assert m.fired[n].entry == x && OnTime(m.fired[n]);
    } else {
      assert m.pending[n - |e|] == x;
      forall k | 0 <= k < |m.fired| ensures m.fired[k].entry.id != id {
        FiredEntry(m, k);
        assert Before(e[k], m.pending[n - |e|]);
      }
    }
  }

  function Requests(at: int, delays: seq<Delay>): seq<Request> {
    seq(|delays|, i requires 0 <= i < |delays| => Request(at, delays[i]))
  }

  /** What the handlers of these firings ask for, each at the time of its firing. */
  function Wanted(h: Handlers, firings: seq<Firing>): seq<Request> {
    if firings == [] then []
    else Requests(firings[0].at, h.delays(firings[0].entry.id)) + Wanted(h, firings[1..])
  }

  predicate SameClock(m: Machine, m': Machine) {
    m'.total == m.total && m'.idle == m.idle && m'.system == m.system && m'.user == m.user
  }

  lemma {:induction false} ScheduleAllAsks(m: Machine, delays: seq<Delay>)
    ensures var m' := ScheduleAll(m, delays);
      m'.asked == m.asked + Requests(m.total, delays) && m'.fired == m.fired && SameClock(m, m')
    decreases |delays|
  {
    hide SortedInsert;
    if delays == [] {
      assert m.asked == m.asked + Requests(m.total, delays);
    } else {
      ScheduleAllAsks(Scheduled(m, delays[0]), delays[1..]);
      assert Requests(m.total, delays) == [Request(m.total, delays[0])] + Requests(m.total, delays[1..]);
    }
  }

  /** One firing: the first pending interrupt fires now, and its handler asks for what it asks for. */
  lemma FireFirstAsks(m: Machine, h: Handlers)
    requires m.pending != []
    ensures var m', x := FireFirst(m, h), m.pending[0];
      && SameClock(m, m') && m'.fired == m.fired + [Firing(x, m.total)]
      && m'.asked == m.asked + Requests(m.total, h.delays(x.id))
  {
    ScheduleAllAsks(m.(pending := m.pending[1..], fired := m.fired + [Firing(m.pending[0], m.total)]),
      h.delays(m.pending[0].id));
  }

  lemma WantedFirst(h: Handlers, before: seq<Firing>, f: Firing, after: seq<Firing>)
    requires before + [f] <= after
    ensures before <= after && |before| < |after| && after[|before|] == f
    ensures Wanted(h, after[|before|..]) == Requests(f.at, h.delays(f.entry.id)) + Wanted(h, after[|before| + 1..])
  {
    var n := |before|;
    assert after[n] == (before + [f])[n];
    assert after[..n] == after[..n + 1][..n] == before;
    assert after[n..][0] == f && after[n..][1..] == after[n + 1..];
  }

  /** Firing what is due takes no time, and asks for what the handlers of exactly the interrupts fired ask for. */
  lemma {:induction false} FiringAsks(m: Machine, h: Handlers)
    ensures var m' := FireDue(m, h);
      && SameClock(m, m') && m.fired <= m'.fired
      && m'.asked == m.asked + Wanted(h, m'.fired[|m.fired|..])
      && forall k :: |m.fired| <= k < |m'.fired| ==> m'.fired[k].at == m.total
    decreases DueCount(m.pending, m.total)
  {
    if FirstIsDue(m) {
      FiringReducesDue(m, h);
      hide Wanted, Requests, FireFirst;
      FireFirstAsks(m, h);
      FiringAsks(FireFirst(m, h), h);
      var m' := FireDue(m, h);
      assert m' == FireDue(FireFirst(m, h), h);
      hide FireDue;
      WantedFirst(h, m.fired, Firing(m.pending[0], m.total), m'.fired);
    } else {
      assert m.fired[|m.fired|..] == [];
    }
  }

  /** A tick adds 10 to the system's time or 1 to the user's, and the interrupts that have become due fire now, each of
      their handlers asking for what it asks for. */
  lemma TickEffect(m: Machine, systemMode: bool, h: Handlers)
    ensures var m' := Tick(m, systemMode, h);
      && m'.system == m.system + (if systemMode then 10 else 0) && m'.user == m.user + (if systemMode then 0 else 1)
      && m'.idle == m.idle && m'.total == m.total + (if systemMode then 10 else 1)
      && m.fired <= m'.fired && m'.asked == m.asked + Wanted(h, m'.fired[|m.fired|..])
      && forall k :: |m.fired| <= k < |m'.fired| ==> m'.fired[k].at == m'.total
  {
    FiringAsks(Ticked(m, systemMode), h);
    hide FireDue;
  }

  /** Idling is nobody's time but the idle one's: from now to the first pending interrupt. */
  lemma IdleEffect(m: Machine, h: Handlers)
    requires MachineOk(m)
    ensures var m' := Idled(m, h);
      && m'.system == m.system && m'.user == m.user && m'.idle - m.idle == m'.total - m.total
      && m'.total == (if m.pending == [] then m.total else m.pending[0].when)
      && m.fired <= m'.fired && m'.asked == m.asked + Wanted(h, m'.fired[|m.fired|..])
      && (m'.fired == m.fired <==> m.pending == [])
  {
    if m.pending == [] {
      assert m.fired[|m.fired|..] == [];
    } else {
      JumpKeeps(m);
      FiringAsks(Jumped(m), h);
      FiresFirst(Jumped(m), h);
    }
  }

  lemma FiresFirst(m: Machine, h: Handlers)
    requires FirstIsDue(m)
    ensures |FireDue(m, h).fired| > |m.fired|
  {
    FireFirstAsks(m, h);
    FiringAsks(FireFirst(m, h), h);
  }

  /** What was asked for stays so. */
  lemma {:induction false} AskedStays(run: seq<Machine>, h: Handlers, i: nat, j: nat)
    requires MachineRun(run, h) && i <= j < |run|
    ensures run[i].asked <= run[j].asked
  {
    if i < j {
      AskedStays(run, h, i, j - 1);
      MachineRuns(run, h, j - 1);
      var m, m' := run[j - 1], run[j - 1 + 1];
      hide MachineOk, Tick, Idled, SortedInsert, Wanted;
      if systemMode :| m' == Tick(m, systemMode, h) {
        TickEffect(m, systemMode, h);
      } else if m' == Idled(m, h) {
        IdleEffect(m, h);
      }
    }
  }

  /** Over every run: an interrupt that a device asks for has fired exactly if the clock has gone on by `fromNow` since
      then, and it fires by then or less than a system tick later. */
  lemma FiresAfterDelay(run: seq<Machine>, h: Handlers, i: nat, fromNow: Delay, j: nat)
    requires MachineRun(run, h) && i < j < |run| && run[i + 1] == Scheduled(run[i], fromNow)
    ensures var m, id := run[j], |run[i].asked|;
      && (run[i].total + fromNow <= m.total <==> exists k :: 0 <= k < |m.fired| && m.fired[k].entry.id == id)
      && (forall k :: 0 <= k < |m.fired| && m.fired[k].entry.id == id ==>
            run[i].total + fromNow <= m.fired[k].at < run[i].total + fromNow + 10)
  {
    AskedStays(run, h, i + 1, j);
    hide SortedInsert, MachineRun;
    assert run[i + 1].asked[|run[i].asked|] == Request(run[i].total, fromNow);
    EachInterruptOnceInTime(run, h, j, |run[i].asked|);
  }

  /** Nothing is lost or invented, and every tick is accounted for. */
  lemma ClockAddsUp(run: seq<Machine>, h: Handlers, i: nat)
    requires MachineRun(run, h) && i < |run|
    ensures run[i].total == run[i].idle + run[i].system + run[i].user
    ensures |run[i].fired| + |run[i].pending| == |run[i].scheduled|
    ensures Quiet(run[i])
  {
    MachineRuns(run, h, i);
    assert |multiset(Line(run[i]))| == |multiset(run[i].scheduled)|;
  }

  datatype IntStatus = IntOff | IntOn
  datatype MachineStatus = IdleMode | SystemMode | UserMode

  /** Does a handler that ran since the `from`-th firing want a context switch? */
  predicate AnyYield(h: Handlers, fired: seq<Firing>, from: nat) {
    exists k :: from <= k < |fired| && h.wantsYield(fired[k].entry.id)
  }

  lemma OneMoreFiring(h: Handlers, fired: seq<Firing>, f: Firing, from: nat)
    requires from <= |fired|
    ensures AnyYield(h, fired + [f], from) <==> AnyYield(h, fired, from) || h.wantsYield(f.entry.id)
  {
    var more := fired + [f];
    assert more[|fired|] == f && forall k :: from <= k < |fired| ==> more[k] == fired[k];
  }

  class Interrupt {
    const handlers: Handlers
    var level: IntStatus
    var status: MachineStatus
    var inHandler: bool
    var yieldOnReturn: bool
    var pending: seq<Pending>
    var totalTicks: int
    var idleTicks: int
    var systemTicks: int
    var userTicks: int
    var inserted: nat
    ghost var asked: seq<Request>
    ghost var scheduled: seq<Pending>
    ghost var fired: seq<Firing>

    ghost function State(): Machine
      reads this
    {
      Machine(pending, totalTicks, idleTicks, systemTicks, userTicks, asked, scheduled, fired)
    }

    ghost predicate Valid()
      reads this
    {
      inserted == |scheduled|
    }

    constructor (handlers: Handlers)
      ensures Valid() && this.handlers == handlers && State() == NEW_MACHINE
      ensures level == IntOff && status == SystemMode && !inHandler && !yieldOnReturn
    {
      this.handlers := handlers;
      level, status, inHandler, yieldOnReturn := IntOff, SystemMode, false, false;
      pending, inserted, asked, scheduled, fired := [], 0, [], [], [];
      totalTicks, idleTicks, systemTicks, userTicks := 0, 0, 0, 0;
    }

    /** Arranges an interrupt; the assertion that it lies in the future is the type of `fromNow`. */
    method Schedule(fromNow: Delay)
      requires Valid()
      modifies this`pending, this`inserted, this`asked, this`scheduled
      ensures Valid() && State() == Scheduled(old(State()), fromNow)
      ensures scheduled == old(scheduled) + [Pending(old(inserted), old(totalTicks) + fromNow)]
      ensures asked == old(asked) + [Request(old(totalTicks), fromNow)]
    {
      hide SortedInsert;
      var toOccur := Pending(inserted, totalTicks + fromNow);
      pending := SortedInsert(pending, toOccur, PendingCompare);
      inserted := inserted + 1;
      scheduled := scheduled + [toOccur];
      asked := asked + [Request(totalTicks, fromNow)];
    }

    method YieldOnReturn()
      requires inHandler
      modifies this`yieldOnReturn
      ensures yieldOnReturn
    {
      yieldOnReturn := true;
    }

    /** Calls the handler of the first pending interrupt. */
    method FireNext()
      requires Valid() && inHandler && pending != []
      modifies this`pending, this`inserted, this`asked, this`scheduled, this`fired, this`yieldOnReturn
      ensures Valid() && State() == FireFirst(old(State()), handlers)
      ensures fired == old(fired) + [Firing(old(pending)[0], totalTicks)]
      ensures yieldOnReturn <==> old(yieldOnReturn) || handlers.wantsYield(old(pending)[0].id)
    {
      var next := pending[0];
      pending := pending[1..];
      fired := fired + [Firing(next, totalTicks)];
      var delays := handlers.delays(next.id);
      ScheduleAllAsks(State(), delays);
      ghost var goal := ScheduleAll(State(), delays);
      assert goal == FireFirst(old(State()), handlers);
      while delays != []
        invariant Valid() && ScheduleAll(State(), delays) == goal
        invariant yieldOnReturn == old(yieldOnReturn) && fired == old(fired) + [Firing(next, totalTicks)]
        decreases |delays|
      {
        Schedule(delays[0]);
        delays := delays[1..];
      }
      if handlers.wantsYield(next.id) {
        YieldOnReturn();
      }
    }

    method CheckIfDue(advanceClock: bool) returns (any: bool)
      requires Valid() && level == IntOff && !inHandler
      modifies this`pending, this`inserted, this`asked, this`scheduled, this`fired, this`yieldOnReturn, this`inHandler,
        this`totalTicks, this`idleTicks
      ensures Valid() && !inHandler
      ensures State() == if advanceClock then Idled(old(State()), handlers) else FireDue(old(State()), handlers)
      ensures any <==> if advanceClock then old(pending) != [] else FirstIsDue(old(State()))
      ensures old(fired) <= fired
      ensures yieldOnReturn <==> old(yieldOnReturn) || AnyYield(handlers, fired, |old(fired)|)
    {
      if pending == [] {
        return false;
      }
      var next := pending[0];
      if next.when > totalTicks {
        if !advanceClock {
          return false;
        }
        idleTicks := idleTicks + (next.when - totalTicks);
        totalTicks := next.when;
      }
      FireAllDue();
      any := true;
    }

    /** The do-while loop of CheckIfDue, entered with a first interrupt that is due. */
    method FireAllDue()
      requires Valid() && !inHandler && FirstIsDue(State())
      modifies this`pending, this`inserted, this`asked, this`scheduled, this`fired, this`yieldOnReturn, this`inHandler
      ensures Valid() && !inHandler && State() == FireDue(old(State()), handlers)
      ensures old(fired) <= fired
      ensures yieldOnReturn <==> old(yieldOnReturn) || AnyYield(handlers, fired, |old(fired)|)
    {
      assert !AnyYield(handlers, fired, |fired|);
      hide FireFirst, AnyYield;
      inHandler := true;
      FiringReducesDue(State(), handlers);
      OneMoreFiring(handlers, fired, Firing(pending[0], totalTicks), |fired|);
      FireNext();
      while pending != [] && pending[0].when <= totalTicks
        invariant Valid() && inHandler && FireDue(State(), handlers) == FireDue(old(State()), handlers)
        invariant old(fired) <= fired
        invariant yieldOnReturn <==> old(yieldOnReturn) || AnyYield(handlers, fired, |old(fired)|)
        decreases DueCount(pending, totalTicks)
      {
        FiringReducesDue(State(), handlers);
        OneMoreFiring(handlers, fired, Firing(pending[0], totalTicks), |old(fired)|);
        FireNext();
      }
      inHandler := false;
    }

    /** One tick; `switch` says that the current thread has to yield on return. */
    method OneTick() returns (switch: bool)
      requires Valid() && level == IntOn && !inHandler
      modifies this
      ensures Valid() && level == IntOn && !inHandler && status == old(status) && !yieldOnReturn
      ensures State() == Tick(old(State()), status == SystemMode, handlers)
      ensures old(fired) <= fired && (switch <==> old(yieldOnReturn) || AnyYield(handlers, fired, |old(fired)|))
    {
      hide FireDue, AnyYield;
      if status == SystemMode {
        totalTicks := totalTicks + SYSTEM_TICK;
        systemTicks := systemTicks + SYSTEM_TICK;
      } else {
        totalTicks := totalTicks + USER_TICK;
        userTicks := userTicks + USER_TICK;
      }
      level := IntOff;
      var _ := CheckIfDue(false);
      level := IntOn;
      switch := yieldOnReturn;
      yieldOnReturn := false;
    }

    /** Time passes exactly when interrupts go from off to on, and only then the current thread may have to yield on
        return, as `switch` says. Handlers may not enable interrupts. */
    method SetLevel(now: IntStatus) returns (old': IntStatus, switch: bool)
      requires Valid() && (now == IntOff || !inHandler)
      modifies this
      ensures Valid() && level == now && old' == old(level) && status == old(status) && inHandler == old(inHandler)
      ensures State() ==
        if now == IntOn && old' == IntOff then Tick(old(State()), status == SystemMode, handlers) else old(State())
      ensures old(fired) <= fired
      ensures switch <==>
        now == IntOn && old' == IntOff && (old(yieldOnReturn) || AnyYield(handlers, fired, |old(fired)|))
      ensures yieldOnReturn <==> old(yieldOnReturn) && !(now == IntOn && old' == IntOff)
    {
      hide FireDue, AnyYield;
      old', switch := level, false;
      level := now;
      if now == IntOn && old' == IntOff {
        switch := OneTick();
      }
    }

    /** `halt` says that nothing can ever happen again. */
    method Idle() returns (halt: bool)
      requires Valid() && level == IntOff && !inHandler
      modifies this
      ensures Valid() && level == IntOff && !inHandler && State() == Idled(old(State()), handlers)
      ensures halt <==> old(pending) == []
      ensures status == if halt then IdleMode else SystemMode
    {
      status := IdleMode;
      var any := CheckIfDue(true);
      if any {
        status := SystemMode;
        return false;
      }
      halt := true;
    }
  }
}

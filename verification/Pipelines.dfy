/** The pipeline of reader, producers, consumers and writer over three bounded queues, with a pool of consumers that
    a controller grows and shrinks. Each queue operation, size query and decision of a thread is one step. */
module Pipelines {
  import opened Semaphores

  /** What main sets up: the lines of the input file, the two transforms, and the sizes. */
  datatype Config<!T> = Config(
    lines: seq<T>, produce: T -> T, consume: T -> T,
    inputSize: nat, workerSize: nat, outputSize: nat, low: nat, high: nat, producers: nat)

  /** An item with the number of the line it came from. */
  datatype Tracked<T> = Tracked(id: nat, item: T)

  /** Where a producer or consumer is in its loop: at the top, where alone it can be cancelled; about to look at
      the queue's size; waiting to dequeue; with an item in hand; finished. */
  datatype Place<T> = Top | Looking | Waiting | Holding(it: Tracked<T>) | Gone

  /** `consumers` are all consumers ever started, `pool` the controller's vector of those not cancelled. `fetched`,
      `claimed` and `written` are the items taken from the three queues so far, `made` and `done` those put into the
      second and the third, each in order. */
  datatype State<T> = State(
    read: nat, reader: Option<Tracked<T>>,
    input: seq<Tracked<T>>, worker: seq<Tracked<T>>, output: seq<Tracked<T>>, written: seq<Tracked<T>>,
    producers: seq<Place<T>>, consumers: seq<Place<T>>, pool: seq<nat>, cancelled: set<nat>,
    fetched: seq<Tracked<T>>, made: seq<Tracked<T>>, claimed: seq<Tracked<T>>, done: seq<Tracked<T>>)

  datatype Action =
    | ReadLine
    | ReaderPut
    | ProducerLook(i: nat)
    | ProducerTake(i: nat)
    | ProducerPut(i: nat)
    | ConsumerBegin(i: nat)
    | ConsumerLook(i: nat)
    | ConsumerTake(i: nat)
    | ConsumerPut(i: nat)
    | ConsumerLeave(i: nat)
    | ScaleUp
    | ScaleDown
    | Write

  function Initial<T>(c: Config<T>): State<T> {
    State(0, None, [], [], [], [], seq(c.producers, i => Top), [], [], {}, [], [], [], [])
  }

  predicate Enabled<T>(c: Config<T>, s: State<T>, a: Action) {
    match a
    case ReadLine => s.read < |c.lines| && s.reader == None
    case ReaderPut => s.reader.Some? && |s.input| < c.inputSize
    case ProducerLook(i) => i < |s.producers| && s.producers[i].Top?
    case ProducerTake(i) => i < |s.producers| && s.producers[i].Waiting? && s.input != []
    case ProducerPut(i) => i < |s.producers| && s.producers[i].Holding? && |s.worker| < c.workerSize
    case ConsumerBegin(i) => i < |s.consumers| && s.consumers[i].Top? && i !in s.cancelled
    case ConsumerLook(i) => i < |s.consumers| && s.consumers[i].Looking?
    case ConsumerTake(i) => i < |s.consumers| && s.consumers[i].Waiting? && s.worker != []
    case ConsumerPut(i) => i < |s.consumers| && s.consumers[i].Holding? && |s.output| < c.outputSize
    case ConsumerLeave(i) => i < |s.consumers| && s.consumers[i].Top? && i in s.cancelled
    case ScaleUp => |s.worker| * 100 > c.high * c.workerSize
    case ScaleDown =>
      |s.worker| * 100 <= c.high * c.workerSize && |s.worker| * 100 < c.low * c.workerSize && |s.pool| > 1
    case Write => |s.written| < |c.lines| && s.output != []
  }

  function Do<T>(c: Config<T>, s: State<T>, a: Action): State<T>
    requires Enabled(c, s, a)
  {
    match a
    case ReadLine => s.(read := s.read + 1, reader := Some(Tracked(s.read, c.lines[s.read])))
    case ReaderPut => s.(reader := None, input := s.input + [s.reader.value])
    case ProducerLook(i) => if s.input == [] then s else s.(producers := s.producers[i := Waiting])
    case ProducerTake(i) =>
      s.(input := s.input[1..], fetched := s.fetched + [s.input[0]], producers := s.producers[i := Holding(s.input[0])])
    case ProducerPut(i) =>
      var it := s.producers[i].it;
      var made := Tracked(it.id, c.produce(it.item));
      s.(worker := s.worker + [made], made := s.made + [made], producers := s.producers[i := Top])
    case ConsumerBegin(i) => s.(consumers := s.consumers[i := Looking])
    case ConsumerLook(i) => s.(consumers := s.consumers[i := if s.worker == [] then Top else Waiting])
    case ConsumerTake(i) =>
      s.(worker := s.worker[1..], claimed := s.claimed + [s.worker[0]], consumers := s.consumers[i := Holding(s.worker[0])])
    case ConsumerPut(i) =>
      var it := s.consumers[i].it;
      var done := Tracked(it.id, c.consume(it.item));
      s.(output := s.output + [done], done := s.done + [done], consumers := s.consumers[i := Top])
    case ConsumerLeave(i) => s.(consumers := s.consumers[i := Gone])
    case ScaleUp => s.(consumers := s.consumers + [Top], pool := s.pool + [|s.consumers|])
    case ScaleDown => s.(cancelled := s.cancelled + {s.pool[|s.pool| - 1]}, pool := s.pool[..|s.pool| - 1])
    case Write => s.(output := s.output[1..], written := s.written + [s.output[0]])
  }

  /** The decisions of the controller with the sizes and percentages that main sets: it starts a consumer exactly
      above 160 items, and cancels one exactly below 40, and only if another remains. */
  lemma Thresholds<T>(c: Config<T>, s: State<T>)
    requires c.workerSize == 200 && c.low == 20 && c.high == 80
    ensures Enabled(c, s, ScaleUp) <==> |s.worker| > 160
    ensures Enabled(c, s, ScaleDown) <==> |s.worker| < 40 && |s.pool| >= 2
    ensures Enabled(c, s, ScaleDown) ==> 1 <= |Do(c, s, ScaleDown).pool| == |s.pool| - 1
    ensures Enabled(c, s, ScaleUp) ==> |Do(c, s, ScaleUp).pool| == |s.pool| + 1
  {
  }

  /** How often an item from line `id` occurs in a queue, or in somebody's hand. */
  function Count<T>(items: seq<Tracked<T>>, id: nat): nat {
    if items == [] then 0 else (if items[0].id == id then 1 else 0) + Count(items[1..], id)
  }

  function InHand<T>(p: Place<T>, id: nat): nat {
    if p.Holding? && p.it.id == id then 1 else 0
  }

  function InHands<T>(places: seq<Place<T>>, id: nat): nat {
    if places == [] then 0 else InHand(places[0], id) + InHands(places[1..], id)
  }

  /** How often an item from line `id` occurs anywhere. */
  function Copies<T>(s: State<T>, id: nat): nat {
    (if s.reader.Some? && s.reader.value.id == id then 1 else 0) +
    Count(s.input, id) + InHands(s.producers, id) + Count(s.worker, id) + InHands(s.consumers, id) +
    Count(s.output, id) + Count(s.written, id)
  }

  lemma {:induction false} CountAppend<T>(items: seq<Tracked<T>>, it: Tracked<T>, id: nat)
    ensures Count(items + [it], id) == Count(items, id) + if it.id == id then 1 else 0
  {
    if items != [] {
      assert (items + [it])[1..] == items[1..] + [it];
      CountAppend(items[1..], it, id);
    } else {
      assert (items + [it])[1..] == [];
    }
  }

  lemma {:induction false} HandsUpdate<T>(places: seq<Place<T>>, i: nat, p: Place<T>, id: nat)
    requires i < |places|
    ensures InHands(places[i := p], id) == InHands(places, id) + InHand(p, id) - InHand(places[i], id)
  {
    if i == 0 {
      assert places[i := p][1..] == places[1..];
    } else {
      assert places[i := p][1..] == places[1..][i - 1 := p];
      HandsUpdate(places[1..], i - 1, p, id);
    }
  }

  lemma {:induction false} HandsAppend<T>(places: seq<Place<T>>, p: Place<T>, id: nat)
    ensures InHands(places + [p], id) == InHands(places, id) + InHand(p, id)
  {
    if places != [] {
      assert (places + [p])[1..] == places[1..] + [p];
      HandsAppend(places[1..], p, id);
    } else {
      assert (places + [p])[1..] == [];
    }
  }

  predicate OfProducer(a: Action) { a.ProducerLook? || a.ProducerTake? || a.ProducerPut? }
  predicate OfConsumer(a: Action) {
    a.ConsumerBegin? || a.ConsumerLook? || a.ConsumerTake? || a.ConsumerPut? || a.ConsumerLeave?
  }

  lemma ProducerConserves<T>(c: Config<T>, s: State<T>, a: Action, id: nat)
    requires Enabled(c, s, a) && OfProducer(a)
    ensures Copies(Do(c, s, a), id) == Copies(s, id)
  {
    hide InHands;
    match a
    case ProducerLook(i) => HandsUpdate(s.producers, i, Waiting, id);
    case ProducerTake(i) => HandsUpdate(s.producers, i, Holding(s.input[0]), id);
    case ProducerPut(i) =>
      var it := s.producers[i].it;
      HandsUpdate(s.producers, i, Top, id);
      CountAppend(s.worker, Tracked(it.id, c.produce(it.item)), id);
  }

  lemma ConsumerConserves<T>(c: Config<T>, s: State<T>, a: Action, id: nat)
    requires Enabled(c, s, a) && OfConsumer(a)
    ensures Copies(Do(c, s, a), id) == Copies(s, id)
  {
    hide InHands;
    match a
    case ConsumerBegin(i) => HandsUpdate(s.consumers, i, Looking, id);
    case ConsumerLook(i) => HandsUpdate(s.consumers, i, if s.worker == [] then Top else Waiting, id);
    case ConsumerTake(i) => HandsUpdate(s.consumers, i, Holding(s.worker[0]), id);
    case ConsumerPut(i) =>
      var it := s.consumers[i].it;
      HandsUpdate(s.consumers, i, Top, id);
      CountAppend(s.output, Tracked(it.id, c.consume(it.item)), id);
    case ConsumerLeave(i) => HandsUpdate(s.consumers, i, Gone, id);
  }

  /** A step neither loses nor duplicates an item; only reading adds one. */
  lemma StepConserves<T>(c: Config<T>, s: State<T>, a: Action, id: nat)
    requires Enabled(c, s, a)
    ensures Copies(Do(c, s, a), id) == Copies(s, id) + if a == ReadLine && s.read == id then 1 else 0
  {
    hide InHands;
    if OfProducer(a) {
      hide Do, Enabled, Copies;
      ProducerConserves(c, s, a, id);
    } else if OfConsumer(a) {
      hide Do, Enabled, Copies;
      ConsumerConserves(c, s, a, id);
    } else {
      match a
      case ReadLine =>
      case ReaderPut => CountAppend(s.input, s.reader.value, id);
      case ScaleUp => HandsAppend(s.consumers, Top, id);
      case ScaleDown =>
      case Write => CountAppend(s.written, s.output[0], id);
    }
  }

  /** The item of line `it.id` after none, one or both transforms. */
  ghost predicate Raw<T>(c: Config<T>, it: Tracked<T>) { it.id < |c.lines| && it.item == c.lines[it.id] }
  ghost predicate Produced<T>(c: Config<T>, it: Tracked<T>) { it.id < |c.lines| && it.item == c.produce(c.lines[it.id]) }
  ghost predicate Finished<T>(c: Config<T>, it: Tracked<T>) {
    it.id < |c.lines| && it.item == c.consume(c.produce(c.lines[it.id]))
  }

  /** Every item is at the stage that its place stands for. */
  ghost predicate Staged<T>(c: Config<T>, s: State<T>) {
    RawStaged(c, s) && ProducedStaged(c, s) && FinishedStaged(c, s)
  }

  ghost predicate RawStaged<T>(c: Config<T>, s: State<T>) {
    && s.read <= |c.lines|
    && (s.reader.Some? ==> Raw(c, s.reader.value))
    && (forall k :: 0 <= k < |s.input| ==> Raw(c, s.input[k]))
    && (forall i :: 0 <= i < |s.producers| && s.producers[i].Holding? ==> Raw(c, s.producers[i].it))
  }

  ghost predicate ProducedStaged<T>(c: Config<T>, s: State<T>) {
    && (forall k :: 0 <= k < |s.worker| ==> Produced(c, s.worker[k]))
    && (forall i :: 0 <= i < |s.consumers| && s.consumers[i].Holding? ==> Produced(c, s.consumers[i].it))
  }

  ghost predicate FinishedStaged<T>(c: Config<T>, s: State<T>) {
    && |s.written| <= |c.lines|
    && (forall k :: 0 <= k < |s.output| ==> Finished(c, s.output[k]))
    && (forall k :: 0 <= k < |s.written| ==> Finished(c, s.written[k]))
  }

  lemma StepKeepsRaw<T>(c: Config<T>, s: State<T>, a: Action)
    requires Enabled(c, s, a) && RawStaged(c, s)
    ensures RawStaged(c, Do(c, s, a))
  {
  }

  lemma StepKeepsProduced<T>(c: Config<T>, s: State<T>, a: Action)
    requires Enabled(c, s, a) && RawStaged(c, s) && ProducedStaged(c, s)
    ensures ProducedStaged(c, Do(c, s, a))
  {
    if a.ProducerPut? {
      assert Raw(c, s.producers[a.i].it);
    }
    hide RawStaged;
  }

  lemma StepKeepsFinished<T>(c: Config<T>, s: State<T>, a: Action)
    requires Enabled(c, s, a) && ProducedStaged(c, s) && FinishedStaged(c, s)
    ensures FinishedStaged(c, Do(c, s, a))
  {
    if a.ConsumerPut? {
      assert Produced(c, s.consumers[a.i].it);
    }
    hide ProducedStaged;
  }

  lemma StepKeepsStaged<T>(c: Config<T>, s: State<T>, a: Action)
    requires Enabled(c, s, a) && Staged(c, s)
    ensures Staged(c, Do(c, s, a))
  {
    hide Enabled, Do, RawStaged, ProducedStaged, FinishedStaged;
    StepKeepsRaw(c, s, a);
    StepKeepsProduced(c, s, a);
    StepKeepsFinished(c, s, a);
  }

  /** Each line that was read has exactly one item, somewhere. */
  ghost predicate Conserved<T>(s: State<T>) {
    forall id: nat :: Copies(s, id) == if id < s.read then 1 else 0
  }

  /** The controller's vector lists the consumers that were not cancelled, and a consumer finishes only if it was. */
  ghost predicate PoolOk<T>(s: State<T>) {
    && NoRepeats(s.pool)
    && (forall i: nat :: i in s.pool <==> i < |s.consumers| && i !in s.cancelled)
    && (forall i: nat :: i in s.cancelled ==> i < |s.consumers|)
    && (forall i :: 0 <= i < |s.consumers| && s.consumers[i].Gone? ==> i in s.cancelled)
    && (s.consumers != [] ==> s.pool != [])
  }

  lemma LastLeaves(pool: seq<nat>)
    requires NoRepeats(pool) && pool != []
    ensures NoRepeats(pool[..|pool| - 1])
    ensures forall i: nat :: i in pool[..|pool| - 1] <==> i in pool && i != pool[|pool| - 1]
  {
    assert pool == pool[..|pool| - 1] + [pool[|pool| - 1]];
  }

  lemma ScalingKeepsPool<T>(c: Config<T>, s: State<T>, a: Action)
    requires Enabled(c, s, a) && PoolOk(s) && (a == ScaleDown || a == ScaleUp)
    ensures PoolOk(Do(c, s, a))
  {
    var s' := Do(c, s, a);
    if a == ScaleDown {
      LastLeaves(s.pool);
      assert s.pool[|s.pool| - 1] in s.pool;
    } else {
      assert |s.consumers| !in s.pool && |s.consumers| !in s.cancelled;
      NewAtEnd(s.pool, |s.consumers|);
      assert forall i :: 0 <= i < |s.consumers| ==> s'.consumers[i] == s.consumers[i];
    }
    hide NoRepeats;
    forall i: nat ensures i in s'.pool <==> i < |s'.consumers| && i !in s'.cancelled {
      assert i in s.pool <==> i < |s.consumers| && i !in s.cancelled;
    }
  }

  lemma StepKeepsPool<T>(c: Config<T>, s: State<T>, a: Action)
    requires Enabled(c, s, a) && PoolOk(s)
    ensures PoolOk(Do(c, s, a))
  {
    hide NoRepeats;
    if a == ScaleDown || a == ScaleUp {
      ScalingKeepsPool(c, s, a);
    } else {
      var s' := Do(c, s, a);
      assert s'.pool == s.pool && s'.cancelled == s.cancelled && |s'.consumers| == |s.consumers|;
      forall i | 0 <= i < |s'.consumers| && s'.consumers[i].Gone? ensures i in s'.cancelled {
        assert s.consumers[i].Gone? || a == ConsumerLeave(i);
      }
    }
  }

  lemma StepKeepsSomePool<T>(c: Config<T>, s: State<T>, a: Action)
    requires Enabled(c, s, a) && s.pool != []
    ensures Do(c, s, a).pool != []
  {
  }

  ghost predicate PipelineOk<T>(c: Config<T>, s: State<T>) {
    Conserved(s) && Staged(c, s) && PoolOk(s)
  }

  lemma {:induction false} NoneInHands<T>(places: seq<Place<T>>, id: nat)
    requires forall i :: 0 <= i < |places| ==> !places[i].Holding?
    ensures InHands(places, id) == 0
  {
    if places != [] {
      NoneInHands(places[1..], id);
    }
  }

  lemma InitialOk<T>(c: Config<T>)
    ensures PipelineOk(c, Initial(c))
  {
    forall id: nat ensures Copies(Initial(c), id) == 0 {
      NoneInHands(Initial(c).producers, id);
    }
  }

  lemma StepKeepsOk<T>(c: Config<T>, s: State<T>, a: Action)
    requires Enabled(c, s, a) && PipelineOk(c, s)
    ensures PipelineOk(c, Do(c, s, a))
  {
    var s' := Do(c, s, a);
    assert s'.read == if a == ReadLine then s.read + 1 else s.read;
    StepKeepsStaged(c, s, a);
    StepKeepsPool(c, s, a);
    hide Staged, PoolOk, Do, Enabled, Copies;
    forall id: nat ensures Copies(s', id) == if id < s'.read then 1 else 0 {
      StepConserves(c, s, a, id);
    }
  }

  ghost predicate Step<T(!new)>(c: Config<T>, s: State<T>, s': State<T>) {
    exists a :: Enabled(c, s, a) && s' == Do(c, s, a)
  }

  ghost predicate PipelineRun<T(!new)>(c: Config<T>, run: seq<State<T>>) {
    run != [] && run[0] == Initial(c) && forall i :: 0 <= i < |run| - 1 ==> Step(c, run[i], run[i + 1])
  }

  lemma {:induction false} PipelineRuns<T(!new)>(c: Config<T>, run: seq<State<T>>, i: nat)
    requires PipelineRun(c, run) && i < |run|
    ensures PipelineOk(c, run[i])
  {
    hide PipelineOk, Enabled, Do;
    if i == 0 {
      InitialOk(c);
    } else {
      PipelineRuns(c, run, i - 1);
      var s, s' := run[i - 1], run[i - 1 + 1];
      var a :| Enabled(c, s, a) && s' == Do(c, s, a);
      StepKeepsOk(c, s, a);
    }
  }

  /** In every interleaving each line read has exactly one item in the whole pipeline, transformed as far as its
      place says. */
  lemma NothingLostOrDoubled<T(!new)>(c: Config<T>, run: seq<State<T>>, i: nat, id: nat)
    requires PipelineRun(c, run) && i < |run|
    ensures Copies(run[i], id) == if id < run[i].read then 1 else 0
    ensures Staged(c, run[i])
  {
    PipelineRuns(c, run, i);
    hide Staged, PoolOk;
  }

  /** Scaling down takes nothing from anybody; a consumer only ends with empty hands; and once there is a consumer
      that is not cancelled there always will be. */
  lemma ScalingDropsNothing<T(!new)>(c: Config<T>, run: seq<State<T>>, i: nat, j: nat, k: nat)
    requires PipelineRun(c, run) && i < |run|
    ensures Enabled(c, run[i], ScaleDown) ==>
      Do(c, run[i], ScaleDown).consumers == run[i].consumers && Do(c, run[i], ScaleDown).pool != []
    ensures Enabled(c, run[i], ConsumerLeave(j)) ==> forall id: nat :: InHand(run[i].consumers[j], id) == 0
    ensures i <= k < |run| && run[i].pool != [] ==> run[k].pool != []
  {
    if i <= k < |run| && run[i].pool != [] {
      PoolStays(c, run, i, k);
    }
  }

  lemma {:induction false} PoolStays<T(!new)>(c: Config<T>, run: seq<State<T>>, i: nat, k: nat)
    requires PipelineRun(c, run) && i <= k < |run| && run[i].pool != []
    ensures run[k].pool != []
  {
    hide Do, Enabled;
    if i < k {
      PoolStays(c, run, i, k - 1);
      var s, s' := run[k - 1], run[k - 1 + 1];
      var a :| Enabled(c, s, a) && s' == Do(c, s, a);
      StepKeepsSomePool(c, s, a);
    }
  }

  /** The lines enter and leave the first queue in the order of the file, and the other two queues are first in, first
      out. */
  ghost predicate InTurn<T>(c: Config<T>, s: State<T>) {
    LinesInTurn(c, s) && s.made == s.claimed + s.worker && s.done == s.written + s.output
  }

  ghost predicate LinesInTurn<T>(c: Config<T>, s: State<T>) {
    && |s.fetched| + |s.input| + (if s.reader.Some? then 1 else 0) == s.read <= |c.lines|
    && (forall k :: 0 <= k < |s.fetched| + |s.input| ==> (s.fetched + s.input)[k] == Tracked(k, c.lines[k]))
    && (s.reader.Some? ==> s.reader.value == Tracked(s.read - 1, c.lines[s.read - 1]))
  }

  lemma StepKeepsTurn<T>(c: Config<T>, s: State<T>, a: Action)
    requires Enabled(c, s, a) && InTurn(c, s)
    ensures InTurn(c, Do(c, s, a))
  {
    StepKeepsLines(c, s, a);
    hide LinesInTurn;
  }

  lemma StepKeepsLines<T>(c: Config<T>, s: State<T>, a: Action)
    requires Enabled(c, s, a) && LinesInTurn(c, s)
    ensures LinesInTurn(c, Do(c, s, a))
  {
    if a.ProducerTake? {
      assert s.fetched + s.input == (s.fetched + [s.input[0]]) + s.input[1..];
    } else if a.ReaderPut? {
      assert s.fetched + (s.input + [s.reader.value]) == (s.fetched + s.input) + [s.reader.value];
    }
  }

  /** What each step hands over, from whom and to whom; nobody else's hands change, and nothing else is handed over. */
  lemma HandedOver<T>(c: Config<T>, s: State<T>, a: Action)
    requires Enabled(c, s, a)
    ensures var s' := Do(c, s, a);
      && (if a.ProducerTake? then s'.producers[a.i].Holding? && s'.fetched == s.fetched + [s'.producers[a.i].it]
          else s'.fetched == s.fetched)
      && (if a.ProducerPut? then
            var it := s.producers[a.i].it; s'.made == s.made + [Tracked(it.id, c.produce(it.item))] && s'.producers[a.i].Top?
          else s'.made == s.made)
      && (if a.ConsumerTake? then s'.consumers[a.i].Holding? && s'.claimed == s.claimed + [s'.consumers[a.i].it]
          else s'.claimed == s.claimed)
      && (if a.ConsumerPut? then
            var it := s.consumers[a.i].it; s'.done == s.done + [Tracked(it.id, c.consume(it.item))] && s'.consumers[a.i].Top?
          else s'.done == s.done)
      && |s'.written| == |s.written| + (if a.Write? then 1 else 0)
      && s'.read == s.read + (if a.ReadLine? then 1 else 0)
      && (s'.reader != s.reader ==> a.ReadLine? || a.ReaderPut?)
  {
  }

  /** The next place of a producer or consumer whose queue holds `waiting` items. */
  ghost predicate ProducerFollows<T>(p: Place<T>, p': Place<T>, waiting: seq<Tracked<T>>) {
    match p
    case Top => p' == if waiting == [] then Top else Waiting
    case Waiting => waiting != [] && p' == Holding(waiting[0])
    case Holding(_) => p' == Top
    case _ => false
  }

  ghost predicate ConsumerFollows<T>(p: Place<T>, p': Place<T>, waiting: seq<Tracked<T>>, cancelled: bool) {
    match p
    case Top => p' == if cancelled then Gone else Looking
    case Looking => p' == if waiting == [] then Top else Waiting
    case Waiting => waiting != [] && p' == Holding(waiting[0])
    case Holding(_) => p' == Top
    case Gone => false
  }

  /** The loops step by step; nobody but the one whose step it is moves. */
  lemma StepsFollow<T>(c: Config<T>, s: State<T>, a: Action)
    requires Enabled(c, s, a)
    ensures var s' := Do(c, s, a);
      && |s'.producers| == |s.producers| && |s'.consumers| >= |s.consumers|
      && (forall i :: 0 <= i < |s.producers| && !(OfProducer(a) && a.i == i) ==> s'.producers[i] == s.producers[i])
      && (forall i :: 0 <= i < |s.consumers| && !(OfConsumer(a) && a.i == i) ==> s'.consumers[i] == s.consumers[i])
      && (OfProducer(a) ==> ProducerFollows(s.producers[a.i], s'.producers[a.i], s.input))
      && (OfConsumer(a) ==> ConsumerFollows(s.consumers[a.i], s'.consumers[a.i], s.worker, a.i in s.cancelled))
  {
  }

  /** In every interleaving the producers take the lines in the order of the file, the consumers take what the producers
      made in the order in which it was made, and the output is in the order in which the consumers finished. */
  lemma {:induction false} QueuesInOrder<T(!new)>(c: Config<T>, run: seq<State<T>>, i: nat)
    requires PipelineRun(c, run) && i < |run|
    ensures InTurn(c, run[i])
    ensures forall k :: 0 <= k < |run[i].fetched| ==> run[i].fetched[k].id == k
    ensures run[i].claimed <= run[i].made && run[i].written <= run[i].done
  {
    hide Enabled, Do;
    if i > 0 {
      QueuesInOrder(c, run, i - 1);
      var s, s' := run[i - 1], run[i - 1 + 1];
      var a :| Enabled(c, s, a) && s' == Do(c, s, a);
      StepKeepsTurn(c, s, a);
    }
    forall k | 0 <= k < |run[i].fetched| ensures run[i].fetched[k].id == k {
      assert (run[i].fetched + run[i].input)[k] == run[i].fetched[k];
    }
  }

  /** The controller's vector is in the order in which the consumers were started. */
  ghost predicate Ascending(pool: seq<nat>) {
    forall i, j :: 0 <= i < j < |pool| ==> pool[i] < pool[j]
  }

  /** Growing starts one consumer, and shrinking cancels one: of those that are not cancelled the one started last. */
  lemma ScalingEffect<T>(c: Config<T>, s: State<T>, a: Action)
    requires Enabled(c, s, a) && PoolOk(s) && Ascending(s.pool)
    ensures var s' := Do(c, s, a);
      && Ascending(s'.pool)
      && |s'.consumers| == |s.consumers| + (if a == ScaleUp then 1 else 0)
      && (a == ScaleUp ==> s'.consumers[|s.consumers|].Top? && s'.pool == s.pool + [|s.consumers|])
      && (a == ScaleDown ==> exists last: nat ::
            && last in s.pool && (forall i :: i in s.pool ==> i <= last) && s'.cancelled == s.cancelled + {last}
            && (forall i: nat :: i in s'.pool <==> i in s.pool && i != last))
      && (a != ScaleDown ==> s'.cancelled == s.cancelled)
      && (a != ScaleDown && a != ScaleUp ==> s'.pool == s.pool)
  {
    if a == ScaleDown {
      LastLeaves(s.pool);
      var last := s.pool[|s.pool| - 1];
      assert last in s.pool;
    } else if a == ScaleUp {
      assert forall i :: 0 <= i < |s.pool| ==> s.pool[i] in s.pool;
    }
  }

  lemma {:induction false} PoolInOrder<T(!new)>(c: Config<T>, run: seq<State<T>>, i: nat)
    requires PipelineRun(c, run) && i < |run|
    ensures Ascending(run[i].pool)
  {
    hide Enabled, Do, PoolOk, Conserved, Staged;
    if i > 0 {
      PoolInOrder(c, run, i - 1);
      PipelineRuns(c, run, i - 1);
      var s, s' := run[i - 1], run[i - 1 + 1];
      var a :| Enabled(c, s, a) && s' == Do(c, s, a);
      ScalingEffect(c, s, a);
    }
  }

  function Values<T>(items: seq<Tracked<T>>): seq<T> {
    seq(|items|, i requires 0 <= i < |items| => items[i].item)
  }

  /** The line, transformed by a producer and then by a consumer. */
  function Expected<T>(c: Config<T>): seq<T> {
    seq(|c.lines|, i requires 0 <= i < |c.lines| => c.consume(c.produce(c.lines[i])))
  }

  lemma {:induction false} CountPositive<T>(items: seq<Tracked<T>>, id: nat, k: nat)
    requires k < |items| && items[k].id == id
    ensures Count(items, id) >= 1
  {
    if k > 0 {
      CountPositive(items[1..], id, k - 1);
    }
  }

  lemma {:induction false} CountWithin<T>(items: seq<Tracked<T>>, id: nat)
    requires Count(items, id) >= 1
    ensures exists k :: 0 <= k < |items| && items[k].id == id
  {
    if items[0].id == id {
    } else {
      CountWithin(items[1..], id);
      var k :| 0 <= k < |items[1..]| && items[1..][k].id == id;
      assert items[k + 1].id == id;
    }
  }

  lemma {:induction false} CountTwice<T>(items: seq<Tracked<T>>, j: nat, k: nat)
    requires j < k < |items| && items[j].id == items[k].id
    ensures Count(items, items[j].id) >= 2
  {
    if j == 0 {
      CountPositive(items[1..], items[k].id, k - 1);
    } else {
      CountTwice(items[1..], j - 1, k - 1);
    }
  }

  ghost predicate DistinctIds<T>(items: seq<Tracked<T>>) {
    forall j, k :: 0 <= j < k < |items| ==> items[j].id != items[k].id
  }

  lemma {:induction false} IdSetSize<T>(items: seq<Tracked<T>>) returns (ids: set<nat>)
    requires DistinctIds(items)
    ensures |ids| == |items| && forall id :: id in ids <==> exists k :: 0 <= k < |items| && items[k].id == id
  {
    if items == [] {
      ids := {};
    } else {
      var n := |items| - 1;
      var front := IdSetSize(items[..n]);
      assert forall k :: 0 <= k < n ==> items[..n][k] == items[k];
      ids := front + {items[n].id};
      forall id | id in ids ensures exists k :: 0 <= k < |items| && items[k].id == id {
        if id in front {
          var k :| 0 <= k < n && items[..n][k].id == id;
          assert items[k].id == id;
        }
      }
      forall k | 0 <= k < |items| ensures items[k].id in ids {
        assert k < n ==> items[..n][k].id in front;
      }
    }
  }

  lemma {:induction false} SubsetOfBelow(ids: set<nat>, n: nat)
    requires forall id :: id in ids ==> id < n
    ensures |ids| <= n
    ensures |ids| == n ==> forall id: nat :: id < n ==> id in ids
  {
    if n > 0 {
      SubsetOfBelow(ids - {n - 1}, n - 1);
    } else {
      assert ids == {};
    }
  }

  /** As many finished items as lines, from different lines: what is expected, in some order. */
  lemma {:induction false} AllOnce<T>(items: seq<Tracked<T>>, expected: seq<T>)
    requires |items| == |expected| && DistinctIds(items)
    requires forall k :: 0 <= k < |items| ==> items[k].id < |expected| && items[k].item == expected[items[k].id]
    ensures multiset(Values(items)) == multiset(expected)
  {
    if items != [] {
      var n := |expected| - 1;
      var ids := IdSetSize(items);
      SubsetOfBelow(ids, |expected|);
      assert n in ids;
      var k :| 0 <= k < |items| && items[k].id == n;
      RestOnce(items, k, expected);
      AllOnce(items[..k] + items[k + 1..], expected[..n]);
      PutBack(items, k, expected);
    }
  }

  /** Without the item of the last line the others are from different lines still. */
  lemma RestOnce<T>(items: seq<Tracked<T>>, k: nat, expected: seq<T>)
    requires |items| == |expected| && DistinctIds(items) && k < |items| && items[k].id == |expected| - 1
    requires forall k :: 0 <= k < |items| ==> items[k].id < |expected| && items[k].item == expected[items[k].id]
    ensures var rest, front := items[..k] + items[k + 1..], expected[..|expected| - 1];
      && |rest| == |front| && DistinctIds(rest)
      && forall j :: 0 <= j < |rest| ==> rest[j].id < |front| && rest[j].item == front[rest[j].id]
  {
    var rest := items[..k] + items[k + 1..];
    forall j | 0 <= j < |rest|
      ensures rest[j] == items[if j < k then j else j + 1] && rest[j].id < |expected| - 1
    {
      var m := if j < k then j else j + 1;
      assert rest[j] == items[m] && items[m].id != items[k].id;
    }
  }

  lemma PutBack<T>(items: seq<Tracked<T>>, k: nat, expected: seq<T>)
    requires k < |items| && expected != [] && items[k].item == expected[|expected| - 1]
    requires multiset(Values(items[..k] + items[k + 1..])) == multiset(expected[..|expected| - 1])
    ensures multiset(Values(items)) == multiset(expected)
  {
    hide Values;
    ValuesWithout(items, k);
    WithoutOne(Values(items), k);
    WithoutOne(expected, |expected| - 1);
    assert expected[..|expected| - 1] + expected[|expected| - 1 + 1..] == expected[..|expected| - 1];
  }

  lemma ValuesWithout<T>(items: seq<Tracked<T>>, k: nat)
    requires k < |items|
    ensures var v := Values(items);
      && |v| == |items| && v[k] == items[k].item && Values(items[..k] + items[k + 1..]) == v[..k] + v[k + 1..]
  {
  }

  lemma WithoutOne<T>(v: seq<T>, k: nat)
    requires k < |v|
    ensures multiset(v) == multiset(v[..k] + v[k + 1..]) + multiset{v[k]}
  {
    assert v == v[..k] + ([v[k]] + v[k + 1..]);
  }

  /** When as many items are written as there are lines, the output is a permutation of the lines, each transformed
      by a producer and then by a consumer, and nothing is left anywhere else. */
  lemma OutputIsPermutation<T(!new)>(c: Config<T>, run: seq<State<T>>, i: nat)
    requires PipelineRun(c, run) && i < |run| && |run[i].written| == |c.lines|
    ensures multiset(Values(run[i].written)) == multiset(Expected(c))
    ensures run[i].read == |c.lines| && forall id: nat :: Copies(run[i], id) == Count(run[i].written, id)
  {
    PipelineRuns(c, run, i);
    var s := run[i];
    var w := s.written;
    hide PipelineRun, PoolOk;
    forall k | 0 <= k < |w| ensures w[k].id < s.read {
      CountPositive(w, w[k].id, k);
      assert Copies(s, w[k].id) >= 1;
    }
    forall j, k | 0 <= j < k < |w| ensures w[j].id != w[k].id {
      assert Count(w, w[j].id) <= Copies(s, w[j].id) <= 1;
      if w[j].id == w[k].id {
        CountTwice(w, j, k);
      }
    }
    WrittenIsAll(c, s);
  }

  lemma WrittenIsAll<T(!new)>(c: Config<T>, s: State<T>)
    requires Conserved(s) && Staged(c, s) && |s.written| == |c.lines| && DistinctIds(s.written)
    requires forall k :: 0 <= k < |s.written| ==> s.written[k].id < s.read
    ensures multiset(Values(s.written)) == multiset(Expected(c))
    ensures s.read == |c.lines| && forall id: nat :: Copies(s, id) == Count(s.written, id)
  {
    assert forall k :: 0 <= k < |s.written| ==> Finished(c, s.written[k]);
    AllOnce(s.written, Expected(c));
    var ids := IdSetSize(s.written);
    SubsetOfBelow(ids, s.read);
    forall id: nat ensures Copies(s, id) == Count(s.written, id) {
      assert Copies(s, id) == if id < s.read then 1 else 0;
      if id < s.read {
        assert id in ids;
        var k :| 0 <= k < |s.written| && s.written[k].id == id;
        CountPositive(s.written, id, k);
      }
    }
  }
}

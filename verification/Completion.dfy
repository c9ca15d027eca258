/** When a run of the pipeline can end with all lines written: exactly when the file can fill the worker queue past
    the high threshold, and then from every state that can be reached. */
module Completion {
  import opened Semaphores
  import opened Pipelines

  /** What a caller can check before starting: there are producers and room in each queue, and the file is long enough
      for the worker queue to pass the threshold at which the controller starts a consumer. */
  predicate CanFinish<T>(c: Config<T>) {
    && c.producers > 0 && c.inputSize > 0 && c.workerSize > 0 && c.outputSize > 0
    && c.high < 100 && |c.lines| * 100 > c.high * c.workerSize
  }

  function InHandsOf<T>(places: seq<Place<T>>): nat {
    if places == [] then 0 else (if places[0].Holding? then 1 else 0) + InHandsOf(places[1..])
  }

  lemma {:induction false} HandOf<T>(places: seq<Place<T>>, i: nat, p: Place<T>)
    requires i < |places|
    ensures InHandsOf(places[i := p]) ==
      InHandsOf(places) + (if p.Holding? then 1 else 0) - if places[i].Holding? then 1 else 0
  {
    if i == 0 {
      assert places[i := p][1..] == places[1..];
    } else {
      assert places[i := p][1..] == places[1..][i - 1 := p];
      HandOf(places[1..], i - 1, p);
    }
  }

  lemma {:induction false} OneMorePlace<T>(places: seq<Place<T>>)
    ensures InHandsOf(places + [Top]) == InHandsOf(places)
  {
    if places != [] {
      assert (places + [Top])[1..] == places[1..] + [Top];
      OneMorePlace(places[1..]);
    } else {
      assert (places + [Top])[1..] == [];
    }
  }

  lemma {:induction false} SomeHand<T>(places: seq<Place<T>>) returns (i: nat)
    requires InHandsOf(places) > 0
    ensures i < |places| && places[i].Holding?
  {
    if places[0].Holding? {
      i := 0;
    } else {
      i := SomeHand(places[1..]);
      i := i + 1;
    }
  }

  lemma {:induction false} NoHand<T>(places: seq<Place<T>>)
    requires forall i :: 0 <= i < |places| ==> !places[i].Holding?
    ensures InHandsOf(places) == 0
  {
    if places != [] {
      NoHand(places[1..]);
    }
  }

  /** Everything read is in the reader's hand, in a queue, in another hand, or written. */
  ghost predicate AddsUp<T>(c: Config<T>, s: State<T>) {
    && s.read <= |c.lines|
    && s.read == (if s.reader.Some? then 1 else 0) + |s.input| + InHandsOf(s.producers) + |s.worker|
                 + InHandsOf(s.consumers) + |s.output| + |s.written|
  }

  lemma StepAddsUp<T>(c: Config<T>, s: State<T>, a: Action)
    requires Enabled(c, s, a) && AddsUp(c, s)
    ensures AddsUp(c, Do(c, s, a))
  {
    hide InHandsOf;
    match a
    case ReadLine =>
    case ReaderPut =>
    case ProducerLook(i) => HandOf(s.producers, i, Waiting);
    case ProducerTake(i) => HandOf(s.producers, i, Holding(s.input[0]));
    case ProducerPut(i) => HandOf(s.producers, i, Top);
    case ConsumerBegin(i) => HandOf(s.consumers, i, Looking);
    case ConsumerLook(i) => HandOf(s.consumers, i, if s.worker == [] then Top else Waiting);
    case ConsumerTake(i) => HandOf(s.consumers, i, Holding(s.worker[0]));
    case ConsumerPut(i) => HandOf(s.consumers, i, Top);
    case ConsumerLeave(i) => HandOf(s.consumers, i, Gone);
    case ScaleUp => OneMorePlace(s.consumers);
    case ScaleDown =>
    case Write =>
  }

  /** No queue is over its size; producers are where producers can be; and whatever has got as far as the worker queue
      or a consumer tells that there was room on the way. */
  ghost predicate Passable<T>(c: Config<T>, s: State<T>) {
    && |s.input| <= c.inputSize && |s.worker| <= c.workerSize && |s.output| <= c.outputSize
    && |s.producers| == c.producers
    && (forall i :: 0 <= i < |s.producers| ==> !s.producers[i].Looking? && !s.producers[i].Gone?)
    && (forall i :: 0 <= i < |s.producers| && s.producers[i].Holding? ==> c.inputSize > 0)
    && (s.worker != [] ==> c.producers > 0 && c.inputSize > 0)
    && (s.consumers != [] ==>
          c.producers > 0 && c.inputSize > 0 && c.workerSize > 0 &&
          c.high < 100 && |c.lines| * 100 > c.high * c.workerSize)
    && (s.output != [] || s.written != [] ==> s.consumers != [] && c.outputSize > 0)
  }

  lemma StepStaysPassable<T>(c: Config<T>, s: State<T>, a: Action)
    requires Enabled(c, s, a) && AddsUp(c, s) && Passable(c, s)
    ensures Passable(c, Do(c, s, a))
  {
    if a == ScaleUp {
      Threshold(|s.worker|, |c.lines|, c.high, c.workerSize);
    }
  }

  lemma Threshold(n: nat, lines: nat, high: nat, size: nat)
    requires n * 100 > high * size && n <= size && n <= lines
    ensures high < 100 && lines * 100 > high * size && n > 0
  {
    if high >= 100 {
      LargePercentage(high, size);
    }
  }

  lemma LargePercentage(high: nat, size: nat)
    requires high >= 100
    ensures high * size >= 100 * size
  {
    assert high * size == 100 * size + (high - 100) * size;
  }

  ghost predicate Reached<T>(c: Config<T>, s: State<T>) {
    PipelineOk(c, s) && AddsUp(c, s) && Passable(c, s)
  }

  lemma InitiallyReached<T>(c: Config<T>)
    ensures Reached(c, Initial(c))
  {
    InitialOk(c);
    NoHand(Initial(c).producers);
    hide PipelineOk;
  }

  lemma StepReaches<T>(c: Config<T>, s: State<T>, a: Action)
    requires Enabled(c, s, a) && Reached(c, s)
    ensures Reached(c, Do(c, s, a))
  {
    hide PipelineOk, AddsUp, Passable, Do, Enabled;
    StepKeepsOk(c, s, a);
    StepAddsUp(c, s, a);
    StepStaysPassable(c, s, a);
  }

  lemma {:induction false} RunReaches<T(!new)>(c: Config<T>, run: seq<State<T>>, i: nat)
    requires PipelineRun(c, run) && i < |run|
    ensures Reached(c, run[i])
  {
    hide Reached, Enabled, Do;
    if i == 0 {
      InitiallyReached(c);
    } else {
      RunReaches(c, run, i - 1);
      var s, s' := run[i - 1], run[i - 1 + 1];
      var a :| Enabled(c, s, a) && s' == Do(c, s, a);
      StepReaches(c, s, a);
    }
  }

  /** Where the condition fails no line is ever written, by any run. */
  lemma NothingWritten<T(!new)>(c: Config<T>, run: seq<State<T>>, i: nat)
    requires PipelineRun(c, run) && i < |run| && !CanFinish(c)
    ensures run[i].written == []
  {
    RunReaches(c, run, i);
    hide PipelineOk, AddsUp, PipelineRun;
  }

  /** How many moves the items have still to make. */
  function Work<T>(c: Config<T>, s: State<T>): int {
    7 * (|c.lines| - s.read) + (if s.reader.Some? then 6 else 0) + 5 * |s.input| + 4 * InHandsOf(s.producers) +
    3 * |s.worker| + 2 * InHandsOf(s.consumers) + |s.output|
  }

  predicate Moves(a: Action) {
    a.ReadLine? || a.ReaderPut? || a.ProducerTake? || a.ProducerPut? || a.ConsumerTake? || a.ConsumerPut? || a.Write?
  }

  lemma StepWorks<T>(c: Config<T>, s: State<T>, a: Action)
    requires Enabled(c, s, a)
    ensures Work(c, Do(c, s, a)) == Work(c, s) - if Moves(a) then 1 else 0
  {
    hide InHandsOf;
    match a
    case ReadLine =>
    case ReaderPut =>
    case ProducerLook(i) => HandOf(s.producers, i, Waiting);
    case ProducerTake(i) => HandOf(s.producers, i, Holding(s.input[0]));
    case ProducerPut(i) => HandOf(s.producers, i, Top);
    case ConsumerBegin(i) => HandOf(s.consumers, i, Looking);
    case ConsumerLook(i) => HandOf(s.consumers, i, if s.worker == [] then Top else Waiting);
    case ConsumerTake(i) => HandOf(s.consumers, i, Holding(s.worker[0]));
    case ConsumerPut(i) => HandOf(s.consumers, i, Top);
    case ConsumerLeave(i) => HandOf(s.consumers, i, Gone);
    case ScaleUp => OneMorePlace(s.consumers);
    case ScaleDown =>
    case Write =>
  }

  function Last<T>(run: seq<State<T>>): State<T>
    requires run != []
  {
    run[|run| - 1]
  }

  /** The run with one more step. */
  lemma Extend<T(!new)>(c: Config<T>, run: seq<State<T>>, a: Action) returns (run': seq<State<T>>)
    requires PipelineRun(c, run) && Enabled(c, Last(run), a)
    ensures PipelineRun(c, run') && run <= run' && Last(run') == Do(c, Last(run), a)
    ensures Work(c, Last(run')) == Work(c, Last(run)) - if Moves(a) then 1 else 0
  {
    hide Enabled, Do, Work, Moves;
    StepWorks(c, Last(run), a);
    run' := run + [Do(c, Last(run), a)];
    assert Step(c, Last(run), Do(c, Last(run), a));
    forall i | 0 <= i < |run'| - 1 ensures Step(c, run'[i], run'[i + 1]) {
      if i < |run| - 1 {
        assert Step(c, run[i], run[i + 1]);
      }
    }
  }

  /** A consumer that is not cancelled takes an item from the worker queue. */
  lemma ConsumerServes<T(!new)>(c: Config<T>, run: seq<State<T>>, i: nat) returns (run': seq<State<T>>)
    requires run != [] && PipelineRun(c, run)
    requires var s := Last(run);
      && s.worker != [] && i < |s.consumers| && i !in s.cancelled
      && (s.consumers[i].Top? || s.consumers[i].Looking? || s.consumers[i].Waiting?)
    ensures PipelineRun(c, run') && run <= run' && Work(c, Last(run')) < Work(c, Last(run))
  {
    hide PipelineRun, Work;
    run' := run;
    if Last(run').consumers[i].Top? {
      run' := Extend(c, run', ConsumerBegin(i));
    }
    if Last(run').consumers[i].Looking? {
      run' := Extend(c, run', ConsumerLook(i));
    }
    run' := Extend(c, run', ConsumerTake(i));
  }

  lemma ProducerServes<T(!new)>(c: Config<T>, run: seq<State<T>>, i: nat) returns (run': seq<State<T>>)
    requires run != [] && PipelineRun(c, run)
    requires var s := Last(run); s.input != [] && i < |s.producers| && (s.producers[i].Top? || s.producers[i].Waiting?)
    ensures PipelineRun(c, run') && run <= run' && Work(c, Last(run')) < Work(c, Last(run))
  {
    hide PipelineRun, Work;
    run' := run;
    if Last(run').producers[i].Top? {
      run' := Extend(c, run', ProducerLook(i));
    }
    run' := Extend(c, run', ProducerTake(i));
  }

  lemma NotHolding<T>(places: seq<Place<T>>, i: nat)
    requires i < |places| && InHandsOf(places) == 0
    ensures !places[i].Holding?
  {
    HandOf(places, i, Top);
  }

  /** From the worker queue on an item moves, unless there is none to move or no consumer yet and none due. */
  lemma BackAdvances<T(!new)>(c: Config<T>, run: seq<State<T>>) returns (run': seq<State<T>>)
    requires run != [] && PipelineRun(c, run) && Reached(c, Last(run)) && CanFinish(c)
    requires var s := Last(run);
      s.output != [] || InHandsOf(s.consumers) > 0 ||
      (s.worker != [] && (s.consumers != [] || |s.worker| * 100 > c.high * c.workerSize))
    ensures PipelineRun(c, run') && run <= run' && Work(c, Last(run')) < Work(c, Last(run))
  {
    hide PipelineRun, Work, Conserved, Staged;
    var s := Last(run);
    if s.output != [] {
      run' := Extend(c, run, Write);
    } else if InHandsOf(s.consumers) > 0 {
      var i := SomeHand(s.consumers);
      run' := Extend(c, run, ConsumerPut(i));
    } else if s.consumers != [] {
      var i := s.pool[0];
      assert i in s.pool;
      NotHolding(s.consumers, i);
      run' := ConsumerServes(c, run, i);
    } else {
      run' := Extend(c, run, ScaleUp);
      run' := ConsumerServes(c, run', 0);
    }
  }

  /** With room in the worker queue and nothing for the consumers to do, an item moves on the way to it. */
  lemma FrontAdvances<T(!new)>(c: Config<T>, run: seq<State<T>>) returns (run': seq<State<T>>)
    requires run != [] && PipelineRun(c, run) && Reached(c, Last(run)) && CanFinish(c)
    requires |Last(run).worker| < c.workerSize
    requires var s := Last(run); InHandsOf(s.producers) > 0 || s.input != [] || s.reader.Some? || s.read < |c.lines|
    ensures PipelineRun(c, run') && run <= run' && Work(c, Last(run')) < Work(c, Last(run))
  {
    hide PipelineRun, Work, PipelineOk, AddsUp;
    var s := Last(run);
    if InHandsOf(s.producers) > 0 {
      var i := SomeHand(s.producers);
      run' := Extend(c, run, ProducerPut(i));
    } else if s.input != [] {
      NotHolding(s.producers, 0);
      run' := ProducerServes(c, run, 0);
    } else if s.reader.Some? {
      run' := Extend(c, run, ReaderPut);
    } else {
      run' := Extend(c, run, ReadLine);
    }
  }

  /** Below the threshold there is room. */
  lemma RoomBelow(n: nat, high: nat, size: nat)
    requires high < 100 && size > 0 && n * 100 <= high * size
    ensures n < size
  {
    assert high * size == 100 * size - (100 - high) * size;
    assert (100 - high) * size >= size by { LargeProduct(100 - high, size); }
  }

  lemma LargeProduct(k: nat, n: nat)
    requires k > 0
    ensures k * n >= n
  {
    assert k * n == n + (k - 1) * n;
  }

  /** While lines are missing in the output, some item can be moved. */
  lemma Advances<T(!new)>(c: Config<T>, run: seq<State<T>>) returns (run': seq<State<T>>)
    requires run != [] && PipelineRun(c, run) && CanFinish(c) && |Last(run).written| < |c.lines|
    ensures PipelineRun(c, run') && run <= run' && Work(c, Last(run')) < Work(c, Last(run))
  {
    hide PipelineRun, Work, PipelineOk, InHandsOf;
    RunReaches(c, run, |run| - 1);
    var s := Last(run);
    if s.output != [] || InHandsOf(s.consumers) > 0 ||
       (s.worker != [] && (s.consumers != [] || |s.worker| * 100 > c.high * c.workerSize)) {
      run' := BackAdvances(c, run);
    } else {
      if s.worker != [] {
        RoomBelow(|s.worker|, c.high, c.workerSize);
      }
      run' := FrontAdvances(c, run);
    }
  }

  /** No scaling, no order of steps and no full queue ever stops the pipeline for good: every run goes on to one that
      has written all lines. */
  lemma {:induction false} EveryRunCanEnd<T(!new)>(c: Config<T>, run: seq<State<T>>) returns (run': seq<State<T>>)
    requires PipelineRun(c, run) && CanFinish(c)
    ensures PipelineRun(c, run') && run <= run' && |Last(run').written| == |c.lines|
    decreases Work(c, Last(run))
  {
    assert run != [];
    hide PipelineRun, Work, PipelineOk, InHandsOf, Passable;
    RunReaches(c, run, |run| - 1);
    WorkIsNat(c, Last(run));
    if |Last(run).written| == |c.lines| {
      run' := run;
    } else {
      var longer := Advances(c, run);
      RunReaches(c, longer, |longer| - 1);
      WorkIsNat(c, Last(longer));
      run' := EveryRunCanEnd(c, longer);
    }
  }

  lemma WorkIsNat<T>(c: Config<T>, s: State<T>)
    requires AddsUp(c, s)
    ensures Work(c, s) >= 0
  {
  }

  /** A run that ends with all lines written exists exactly if there are none or the condition holds. */
  lemma FinishesExactly<T(!new)>(c: Config<T>)
    ensures (exists run :: PipelineRun(c, run) && |Last(run).written| == |c.lines|) <==> c.lines == [] || CanFinish(c)
  {
    hide Enabled, Do;
    var start := [Initial(c)];
    assert PipelineRun(c, start);
    if c.lines == [] {
      assert |Last(start).written| == |c.lines|;
    } else if CanFinish(c) {
      var run := EveryRunCanEnd(c, start);
    } else {
      forall run | PipelineRun(c, run) ensures Last(run).written == [] {
        NothingWritten(c, run, |run| - 1);
      }
    }
  }

  /** The numbers that main sets. */
  predicate MainSizes<T>(c: Config<T>) {
    c.inputSize == 200 && c.workerSize == 200 && c.outputSize == 4000 && c.low == 20 && c.high == 80 && c.producers == 4
  }

  /** With them a run can end exactly if the file has more than 160 lines, or none. */
  lemma MainFinishesExactly<T(!new)>(c: Config<T>)
    requires MainSizes(c)
    ensures (exists run :: PipelineRun(c, run) && |Last(run).written| == |c.lines|) <==>
      |c.lines| > 160 || c.lines == []
  {
    FinishesExactly(c);
    hide PipelineRun;
  }

  /** A file of one line, whatever the transforms: no run of the actual pipeline writes it. */
  lemma OneLineIsNeverWritten<T(!new)>(line: T, produce: T -> T, consume: T -> T, run: seq<State<T>>, i: nat)
    requires PipelineRun(Config([line], produce, consume, 200, 200, 4000, 20, 80, 4), run) && i < |run|
    ensures run[i].written == []
  {
    NothingWritten(Config([line], produce, consume, 200, 200, 4000, 20, 80, 4), run, i);
  }
}

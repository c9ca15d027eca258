/** The transforms of the pipeline's producers and consumers: an affine map modulo m, iterated. */
module Transforms {
  import opened Semaphores
  import opened Remainders
  import Completion
  import Pipelines

  /** An `unsigned long long`; its arithmetic wraps around. */
  type Word64 = w: nat | w < 0x1_0000_0000_0000_0000

  datatype TransformSpec = TransformSpec(a: Word64, b: Word64, m: Word64, iterations: nat)

  function ProducerSpec(opcode: char): Option<TransformSpec> {
    match opcode
    case 'A' => Some(TransformSpec(11, 1111, 1_000_000_007, 10_000_000))
    case 'B' => Some(TransformSpec(13, 1313, 1_000_000_007, 10_000_000))
    case 'C' => Some(TransformSpec(17, 1717, 1_000_000_007, 10_000_000))
    case _ => None
  }

  predicate KnownOpcode(opcode: char) { opcode == 'A' || opcode == 'B' || opcode == 'C' }

  function ConsumerSpec(opcode: char): Option<TransformSpec> {
    match opcode
    case 'A' => Some(TransformSpec(19, 1919, 1_000_000_007, 10_000_000))
    case 'B' => Some(TransformSpec(23, 2323, 1_000_000_007, 10_000_000))
    case 'C' => Some(TransformSpec(29, 2929, 1_000_000_007, 10_000_000))
    case _ => None
  }

  /** One pass of the loop, with the wrap-around of the multiplication and the addition. */
  function Pass(a: Word64, b: Word64, m: Word64, val: Word64): (r: Word64)
    requires m > 0
    ensures r < m
  {
    (val * a % 0x1_0000_0000_0000_0000 + b) % 0x1_0000_0000_0000_0000 % m
  }

  function Pow(a: nat, n: nat): nat { if n == 0 then 1 else a * Pow(a, n - 1) }

  /** 1 + a + ... + a^(n-1). */
  function Geometric(a: nat, n: nat): nat { if n == 0 then 0 else a * Geometric(a, n - 1) + 1 }

  /** Once the value is below m, nothing wraps. So it is for all the specifications there are. */
  predicate NoWrap(spec: TransformSpec) {
    spec.m > 0 && spec.m * spec.a + spec.b < 0x1_0000_0000_0000_0000
  }

  lemma SpecsDoNotWrap(opcode: char)
    ensures ProducerSpec(opcode).Some? ==> NoWrap(ProducerSpec(opcode).value)
    ensures ConsumerSpec(opcode).Some? ==> NoWrap(ConsumerSpec(opcode).value)
    ensures ProducerSpec(opcode).Some? <==> KnownOpcode(opcode)
    ensures ConsumerSpec(opcode).Some? <==> KnownOpcode(opcode)
  {
  }

  /** What n more iterations make of a value below m, modulo m. */
  function ClosedForm(spec: TransformSpec, val: nat, n: nat): nat {
    Pow(spec.a, n) * val + spec.b * Geometric(spec.a, n)
  }

  /** The value of a transform: one pass, which may wrap around, and the rest in closed form. */
  function Transformed(spec: TransformSpec, val: Word64): Word64
    requires NoWrap(spec)
  {
    if spec.iterations == 0 then val
    else ClosedForm(spec, Pass(spec.a, spec.b, spec.m, val), spec.iterations - 1) % spec.m
  }

  /** One pass more is one iteration more in the closed form. */
  lemma ClosedFormStep(spec: TransformSpec, val: nat, n: nat, r: Word64)
    requires NoWrap(spec) && r < spec.m && r == ClosedForm(spec, val, n) % spec.m
    ensures Pass(spec.a, spec.b, spec.m, r) == ClosedForm(spec, val, n + 1) % spec.m
  {
    hide ClosedForm, Pass, NoWrap;
    NoWrapBelow(spec, r);
    PassWithoutWrap(spec.a, spec.b, spec.m, r);
    AffineRest(ClosedForm(spec, val, n), spec.a, spec.b, spec.m);
    NextClosedForm(spec, val, n);
  }

  lemma NoWrapBelow(spec: TransformSpec, val: Word64)
    requires NoWrap(spec) && val < spec.m
    ensures 0 <= val * spec.a + spec.b < 0x1_0000_0000_0000_0000
  {
    ProductGrows(val, spec.a, spec.m, spec.a);
  }

  lemma PassWithoutWrap(a: Word64, b: Word64, m: Word64, val: Word64)
    requires m > 0 && 0 <= val * a + b < 0x1_0000_0000_0000_0000
    ensures Pass(a, b, m, val) == (val * a + b) % m
  {
    NatProduct(val, a);
    PassOfProduct(a, b, m, val, val * a);
  }

  lemma NextClosedForm(spec: TransformSpec, val: nat, n: nat)
    ensures ClosedForm(spec, val, n) * spec.a + spec.b == ClosedForm(spec, val, n + 1)
  {
    var a, b, p, g := spec.a, spec.b, Pow(spec.a, n), Geometric(spec.a, n);
    assert Pow(a, n + 1) == a * p && Geometric(a, n + 1) == a * g + 1;
    hide Pow, Geometric;
    assert (p * val + b * g) * a + b == (a * p) * val + b * (a * g + 1);
  }

  lemma FirstPass(spec: TransformSpec, first: Word64)
    requires NoWrap(spec)
    ensures first < spec.m ==> first == ClosedForm(spec, first, 0) % spec.m
  {
    assert ClosedForm(spec, first, 0) == first;
    if first < spec.m {
      UniqueRest(first, spec.m, 0);
    }
  }

  /** The loop, for every 64-bit value. */
  method Transform(spec: TransformSpec, val: Word64) returns (r: Word64)
    requires NoWrap(spec)
    ensures r == Transformed(spec, val)
  {
    r := val;
    var iterations := spec.iterations;
    ghost var first, n := Pass(spec.a, spec.b, spec.m, val), 0;
    FirstPass(spec, first);
    hide Pass, ClosedForm;
    while iterations > 0
      invariant iterations + n == spec.iterations
      invariant n == 0 ==> r == val
      invariant n > 0 ==> r < spec.m && r == ClosedForm(spec, first, n - 1) % spec.m
    {
      if n > 0 {
        ClosedFormStep(spec, first, n - 1, r);
      }
      r := Pass(spec.a, spec.b, spec.m, r);
      iterations, n := iterations - 1, n + 1;
    }
  }

  /** A transform of n iterations is the loop's pass done n times. */
  lemma OneIterationMore(spec: TransformSpec, val: Word64, n: nat)
    requires NoWrap(spec)
    ensures Transformed(spec.(iterations := 0), val) == val
    ensures Transformed(spec.(iterations := n + 1), val) ==
      Pass(spec.a, spec.b, spec.m, Transformed(spec.(iterations := n), val))
  {
    var first := Pass(spec.a, spec.b, spec.m, val);
    var spec0, spec1 := spec.(iterations := n), spec.(iterations := n + 1);
    FirstPass(spec, first);
    assert ClosedForm(spec1, first, n) == ClosedForm(spec, first, n);
    assert n > 0 ==> ClosedForm(spec0, first, n - 1) == ClosedForm(spec, first, n - 1);
    hide ClosedForm, Pass;
    if n > 0 {
      ClosedFormStep(spec, first, n - 1, ClosedForm(spec, first, n - 1) % spec.m);
    }
  }

  lemma TimesSum(a: nat, g: nat, p: nat)
    ensures a * (g + p) == a * g + a * p
  {
  }

  lemma {:induction false} GeometricFromBelow(a: nat, n: nat)
    ensures Geometric(a, n + 1) == Geometric(a, n) + Pow(a, n)
  {
    if n > 0 {
      GeometricFromBelow(a, n - 1);
      assert Geometric(a, n + 1) == a * Geometric(a, n) + 1 && Geometric(a, n) == a * Geometric(a, n - 1) + 1;
      assert Pow(a, n) == a * Pow(a, n - 1);
      hide Pow, Geometric;
      TimesSum(a, Geometric(a, n - 1), Pow(a, n - 1));
    }
  }

  lemma ClosedFormOfPass(spec: TransformSpec, val: nat, n: nat)
    ensures ClosedForm(spec, val * spec.a + spec.b, n) == ClosedForm(spec, val, n + 1)
  {
    var a, b, p, g := spec.a, spec.b, Pow(spec.a, n), Geometric(spec.a, n);
    GeometricFromBelow(a, n);
    assert Pow(a, n + 1) == a * p;
    hide Pow, Geometric;
    assert p * (val * a + b) + b * g == (a * p) * val + b * (g + p);
  }

  /** n iterations of x -> a x + b modulo m amount to one affine map, a^n x + b (1 + a + ... + a^(n-1)), for the
      values for which the first product does not wrap around. */
  lemma TransformedIsAffine(spec: TransformSpec, val: Word64)
    requires NoWrap(spec) && spec.iterations > 0 && val * spec.a + spec.b < 0x1_0000_0000_0000_0000
    ensures Transformed(spec, val) == ClosedForm(spec, val, spec.iterations) % spec.m
  {
    hide Pow, Geometric, Pass, ClosedForm;
    NatProduct(val, spec.a);
    PassWithoutWrap(spec.a, spec.b, spec.m, val);
    ClosedFormOfRest(spec, val * spec.a + spec.b, spec.iterations - 1);
    ClosedFormOfPass(spec, val, spec.iterations - 1);
  }

  /** The closed form may be applied to the rest alone. */
  lemma ClosedFormOfRest(spec: TransformSpec, x: nat, n: nat)
    requires spec.m > 0
    ensures ClosedForm(spec, x % spec.m, n) % spec.m == ClosedForm(spec, x, n) % spec.m
  {
    hide Pow, Geometric;
    var p, c := Pow(spec.a, n), spec.b * Geometric(spec.a, n);
    NatProduct(spec.b, Geometric(spec.a, n));
    AffineRest(x, p, c, spec.m);
    assert (x % spec.m) * p == p * (x % spec.m) && x * p == p * x;
  }

  lemma {:induction false} CancelPower(a: nat, inverse: nat, n: nat, x: nat, y: nat, m: nat)
    requires m > 0 && a * inverse % m == 1 && Pow(a, n) * x % m == Pow(a, n) * y % m
    ensures x % m == y % m
  {
    if n > 0 {
      var p := Pow(a, n - 1);
      assert Pow(a, n) * x == a * (p * x) && Pow(a, n) * y == a * (p * y);
      hide Pow;
      NatProduct(p, x);
      NatProduct(p, y);
      CancelFactor(a, inverse, p * x, p * y, m);
      CancelPower(a, inverse, n - 1, x, y, m);
    }
  }

  lemma RestOfWrap(k: nat)
    requires 0 < k <= 29
    ensures k * 582344008 % 1_000_000_007 != 0
  {
    var q := k * 582344008 / 1_000_000_007;
    assert q <= 16;
    assert k * 582344008 - q * 1_000_000_007 != 0;
  }

  /** The first value after wrapping around is another one modulo m, for the m and the sizes there are. */
  lemma WrappedDiffers(x: nat, w: nat, k: nat)
    requires x == w + k * 0x1_0000_0000_0000_0000 && 0 < k <= 29
    ensures w % 1_000_000_007 != x % 1_000_000_007
  {
    var m, rest := 1_000_000_007, k * 582344008;
    assert x == w + rest + (k * 18446743944) * m;
    AddMultiple(w + rest, m, k * 18446743944);
    if w % m == x % m {
      CancelSum(0, rest, w, m);
      RestOfWrap(k);
    }
  }

  /** For the actual modulus and factors, the transform is the affine map exactly if the first product does not
      wrap around. */
  lemma AffineExactly(spec: TransformSpec, inverse: nat, val: Word64)
    requires NoWrap(spec) && spec.m == 1_000_000_007 && spec.a <= 29 && spec.b <= 2929 && spec.iterations > 0
    requires spec.a * inverse % spec.m == 1
    ensures Transformed(spec, val) == ClosedForm(spec, val, spec.iterations) % spec.m <==>
      val * spec.a + spec.b < 0x1_0000_0000_0000_0000
  {
    NatProduct(val, spec.a);
    FirstPassWraps(spec, val);
    hide ClosedForm, Pass, Pow, Geometric;
    if val * spec.a + spec.b < 0x1_0000_0000_0000_0000 {
      TransformedIsAffine(spec, val);
    } else if Transformed(spec, val) == ClosedForm(spec, val, spec.iterations) % spec.m {
      ClosedFormOfPass(spec, val, spec.iterations - 1);
      SameFirst(spec, inverse, Pass(spec.a, spec.b, spec.m, val), val * spec.a + spec.b, spec.iterations - 1);
    }
  }

  /** The inverses modulo 1_000_000_007 of the factors there are. */
  function InverseOf(a: nat): nat {
    match a
    case 11 => 818181824
    case 13 => 153846155
    case 17 => 352941179
    case 19 => 157894738
    case 23 => 739130440
    case 29 => 758620695
    case _ => 0
  }

  predicate Actual(spec: TransformSpec) {
    && NoWrap(spec) && spec.m == 1_000_000_007 && spec.a <= 29 && spec.b <= 2929 && spec.iterations > 0
    && spec.a * InverseOf(spec.a) % spec.m == 1
  }

  lemma Inverses()
    ensures 11 * InverseOf(11) % 1_000_000_007 == 13 * InverseOf(13) % 1_000_000_007 == 17 * InverseOf(17) % 1_000_000_007 == 1
    ensures 19 * InverseOf(19) % 1_000_000_007 == 23 * InverseOf(23) % 1_000_000_007 == 29 * InverseOf(29) % 1_000_000_007 == 1
  {
  }

  lemma SpecsAreActual(opcode: char)
    ensures ProducerSpec(opcode).Some? ==> Actual(ProducerSpec(opcode).value)
    ensures ConsumerSpec(opcode).Some? ==> Actual(ConsumerSpec(opcode).value)
  {
    hide InverseOf;
    Inverses();
  }

  /** Exactly when a producer's or consumer's whole transform is one affine map modulo m. */
  lemma AffineExactlyIfNoWrap(opcode: char, val: Word64, producing: bool)
    requires KnownOpcode(opcode)
    ensures var spec := (if producing then ProducerSpec(opcode) else ConsumerSpec(opcode)).value;
      && NoWrap(spec)
      && (Transformed(spec, val) == ClosedForm(spec, val, spec.iterations) % spec.m <==>
          val * spec.a + spec.b < 0x1_0000_0000_0000_0000)
  {
    SpecsDoNotWrap(opcode);
    SpecsAreActual(opcode);
    hide ProducerSpec, ConsumerSpec, Transformed, ClosedForm, InverseOf;
    var spec := (if producing then ProducerSpec(opcode) else ConsumerSpec(opcode)).value;
    AffineExactly(spec, InverseOf(spec.a), val);
  }

  /** The largest value is one for which the first product wraps around, and the claim fails. */
  lemma WrappingIsNotAffine()
    ensures var spec := ProducerSpec('A').value;
      && NoWrap(spec)
      && Transformed(spec, 0xFFFF_FFFF_FFFF_FFFF) != ClosedForm(spec, 0xFFFF_FFFF_FFFF_FFFF, spec.iterations) % spec.m
  {
    assert ProducerSpec('A').value.a == 11;
    hide ProducerSpec, ConsumerSpec, Transformed, ClosedForm;
    AffineExactlyIfNoWrap('A', 0xFFFF_FFFF_FFFF_FFFF, true);
  }

  lemma SameFirst(spec: TransformSpec, inverse: nat, r: nat, x: nat, n: nat)
    requires spec.m > 0 && spec.a * inverse % spec.m == 1
    requires ClosedForm(spec, r, n) % spec.m == ClosedForm(spec, x, n) % spec.m
    ensures r % spec.m == x % spec.m
  {
    var p, c := Pow(spec.a, n), spec.b * Geometric(spec.a, n);
    NatProduct(p, r);
    NatProduct(p, x);
    NatProduct(spec.b, Geometric(spec.a, n));
    CancelSum(p * r, p * x, c, spec.m);
    CancelPower(spec.a, inverse, n, r, x, spec.m);
  }

  lemma FirstPassWraps(spec: TransformSpec, val: Word64)
    requires spec.m == 1_000_000_007 && spec.a <= 29 && spec.b <= 2929
    ensures var x := val * spec.a + spec.b;
      x >= 0x1_0000_0000_0000_0000 ==> Pass(spec.a, spec.b, spec.m, val) % spec.m != x % spec.m
  {
    var p := val * spec.a;
    ProductBound(val, spec.a);
    PassOfProduct(spec.a, spec.b, spec.m, val, p);
    WrappedFirst(p, spec.b);
  }

  lemma ProductBound(val: Word64, a: nat)
    requires a <= 29
    ensures 0 <= val * a <= 0xFFFF_FFFF_FFFF_FFFF * 29
  {
    ProductGrows(val, a, 0xFFFF_FFFF_FFFF_FFFF, 29);
  }

  lemma PassOfProduct(a: Word64, b: Word64, m: Word64, val: Word64, p: nat)
    requires m > 0 && p == val * a
    ensures Pass(a, b, m, val) == (p + b) % 0x1_0000_0000_0000_0000 % m
  {
    AffineRest(p, 1, b, 0x1_0000_0000_0000_0000);
  }

  lemma WrappedFirst(p: nat, b: nat)
    requires p <= 0xFFFF_FFFF_FFFF_FFFF * 29 && b <= 2929
    ensures p + b >= 0x1_0000_0000_0000_0000 ==>
      (p + b) % 0x1_0000_0000_0000_0000 % 1_000_000_007 % 1_000_000_007 != (p + b) % 1_000_000_007
  {
    var x := p + b;
    var w, k := x % 0x1_0000_0000_0000_0000, x / 0x1_0000_0000_0000_0000;
    if x >= 0x1_0000_0000_0000_0000 {
      WrappedDiffers(x, w, k);
    }
  }

  /** The producer's and the consumer's work on an item; no value stands for the failing assertion on an opcode
      that is not known. */
  method ProducerTransform(opcode: char, val: Word64) returns (r: Option<Word64>)
    ensures r.Some? <==> KnownOpcode(opcode)
    ensures r.Some? ==> NoWrap(ProducerSpec(opcode).value) && r.value == Transformed(ProducerSpec(opcode).value, val)
  {
    SpecsDoNotWrap(opcode);
    hide ProducerSpec, ConsumerSpec, Transformed;
    var spec := ProducerSpec(opcode);
    if spec == None {
      return None;
    }
    var v := Transform(spec.value, val);
    r := Some(v);
  }

  method ConsumerTransform(opcode: char, val: Word64) returns (r: Option<Word64>)
    ensures r.Some? <==> KnownOpcode(opcode)
    ensures r.Some? ==> NoWrap(ConsumerSpec(opcode).value) && r.value == Transformed(ConsumerSpec(opcode).value, val)
  {
    SpecsDoNotWrap(opcode);
    hide ProducerSpec, ConsumerSpec, Transformed;
    var spec := ConsumerSpec(opcode);
    if spec == None {
      return None;
    }
    var v := Transform(spec.value, val);
    r := Some(v);
  }

  /** One line of the input or the output file. */
  datatype Item = Item(key: int, val: Word64, opcode: char)

  function Produce(item: Item): Item {
    SpecsDoNotWrap(item.opcode);
    if KnownOpcode(item.opcode) then item.(val := Transformed(ProducerSpec(item.opcode).value, item.val)) else item
  }

  function Consume(item: Item): Item {
    SpecsDoNotWrap(item.opcode);
    if KnownOpcode(item.opcode) then item.(val := Transformed(ConsumerSpec(item.opcode).value, item.val)) else item
  }

  /** The numbers of each opcode's transforms. */
  predicate ProducerFactors(opcode: char, a: nat, b: nat) {
    || (opcode == 'A' && a == 11 && b == 1111)
    || (opcode == 'B' && a == 13 && b == 1313)
    || (opcode == 'C' && a == 17 && b == 1717)
  }

  predicate ConsumerFactors(opcode: char, a: nat, b: nat) {
    || (opcode == 'A' && a == 19 && b == 1919)
    || (opcode == 'B' && a == 23 && b == 2323)
    || (opcode == 'C' && a == 29 && b == 2929)
  }

  /** `x` after n iterations of x -> a x + b modulo 1_000_000_007. */
  function Iterated(a: nat, b: nat, n: nat, x: nat): nat {
    NatProduct(Pow(a, n), x);
    NatProduct(b, Geometric(a, n));
    (Pow(a, n) * x + b * Geometric(a, n)) % 1_000_000_007
  }

  /** What a producer makes of an item of each opcode, in the opcode's own numbers, unless the first product wraps around. */
  lemma ProducedValue(item: Item, a: nat, b: nat, n: nat)
    requires ProducerFactors(item.opcode, a, b) && n == 10_000_000
    ensures Produce(item).key == item.key && Produce(item).opcode == item.opcode
    ensures Produce(item).val < 1_000_000_007
    ensures item.val * a + b < 0x1_0000_0000_0000_0000 ==> Produce(item).val == Iterated(a, b, n, item.val)
  {
    hide Pow, Geometric, Pass, ConsumerSpec;
    SpecsDoNotWrap(item.opcode);
    var spec := ProducerSpec(item.opcode).value;
    assert spec.a == a && spec.b == b && spec.iterations == n && spec.m == 1_000_000_007;
    hide ProducerSpec;
    if item.val * a + b < 0x1_0000_0000_0000_0000 {
      TransformedIsAffine(spec, item.val);
    }
  }

  /** What a consumer makes of an item, such as a producer's result, that is below the modulus: nothing wraps around. */
  lemma ConsumedValue(item: Item, a: nat, b: nat, n: nat)
    requires ConsumerFactors(item.opcode, a, b) && n == 10_000_000 && item.val < 1_000_000_007
    ensures Consume(item).key == item.key && Consume(item).opcode == item.opcode
    ensures Consume(item).val == Iterated(a, b, n, item.val)
  {
    hide Pow, Geometric, Pass, ProducerSpec;
    SpecsDoNotWrap(item.opcode);
    var spec := ConsumerSpec(item.opcode).value;
    assert spec.a == a && spec.b == b && spec.iterations == n && spec.m == 1_000_000_007;
    hide ConsumerSpec;
    NoWrapBelow(spec, item.val);
    TransformedIsAffine(spec, item.val);
  }

  predicate IsResult(line: Item, item: Item) {
    item.key == line.key && item.opcode == line.opcode && item == Consume(Produce(line))
  }

  /** Exactly one of the items written comes from line `k`, and it has the line's key and opcode and the value that the
      producer's and then the consumer's transform make of it. */
  ghost predicate AnsweredOnce(written: seq<Pipelines.Tracked<Item>>, k: nat, line: Item) {
    exists n ::
      && 0 <= n < |written| && written[n].id == k && IsResult(line, written[n].item)
      && forall m :: 0 <= m < |written| && written[m].id == k ==> m == n
  }

  /** The finished output of the actual pipeline: every line comes out exactly once, transformed. */
  lemma OutputOfLines(c: Pipelines.Config<Item>, run: seq<Pipelines.State<Item>>, i: nat, k: nat)
    requires c.produce == Produce && c.consume == Consume && Pipelines.PipelineRun(c, run) && i < |run|
    requires forall j :: 0 <= j < |c.lines| ==> KnownOpcode(c.lines[j].opcode)
    requires |run[i].written| == |c.lines| && k < |c.lines|
    ensures AnsweredOnce(run[i].written, k, c.lines[k])
  {
    Pipelines.OutputIsPermutation(c, run, i);
    Pipelines.PipelineRuns(c, run, i);
    hide Transformed, ProducerSpec, ConsumerSpec, Pipelines.PipelineRun, Pipelines.PoolOk;
    var s := run[i];
    assert Pipelines.Copies(s, k) == 1;
    Pipelines.CountWithin(s.written, k);
    var n :| 0 <= n < |s.written| && s.written[n].id == k;
    assert Pipelines.Finished(c, s.written[n]);
    assert IsResult(c.lines[k], s.written[n].item);
    forall m | 0 <= m < |s.written| && s.written[m].id == k ensures m == n {
      if m != n {
        Pipelines.CountTwice(s.written, if m < n then m else n, if m < n then n else m);
      }
    }
  }

  /** The actual pipeline on a file of more than 160 lines: wherever a run has got to, it can go on to the whole output. */
  lemma WholeOutputFollows(c: Pipelines.Config<Item>, run: seq<Pipelines.State<Item>>)
      returns (run': seq<Pipelines.State<Item>>)
    requires c.produce == Produce && c.consume == Consume && Completion.MainSizes(c) && |c.lines| > 160
    requires forall j :: 0 <= j < |c.lines| ==> KnownOpcode(c.lines[j].opcode)
    requires Pipelines.PipelineRun(c, run)
    ensures Pipelines.PipelineRun(c, run') && run <= run'
    ensures forall k :: 0 <= k < |c.lines| ==> AnsweredOnce(Completion.Last(run').written, k, c.lines[k])
  {
    run' := Completion.EveryRunCanEnd(c, run);
    hide AnsweredOnce;
    forall k | 0 <= k < |c.lines| ensures AnsweredOnce(Completion.Last(run').written, k, c.lines[k]) {
      OutputOfLines(c, run', |run'| - 1, k);
    }
  }
}

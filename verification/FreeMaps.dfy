/** A free map as a sequence of bits: which bit is handed out next, and how many are left. */
module FreeMaps {

  /** Index of the first bit that is off, or -1. */
  function FirstClear(bits: seq<bool>): (r: int)
    ensures -1 <= r < |bits|
    ensures r == -1 ==> forall i :: 0 <= i < |bits| ==> bits[i]
    ensures r != -1 ==> !bits[r] && forall i :: 0 <= i < r ==> bits[i]
  {
    FirstClearFrom(bits, 0)
  }

  function FirstClearFrom(bits: seq<bool>, i: nat): (r: int)
    requires i <= |bits|
    ensures -1 <= r < |bits|
    ensures r == -1 ==> forall j :: i <= j < |bits| ==> bits[j]
    ensures r != -1 ==> i <= r && !bits[r] && forall j :: i <= j < r ==> bits[j]
    decreases |bits| - i
  {
    if i == |bits| then -1 else if !bits[i] then i else FirstClearFrom(bits, i + 1)
  }

  /** How many bits are off. */
  function CountClear(bits: seq<bool>): nat {
    if bits == [] then 0 else (if bits[|bits| - 1] then 0 else 1) + CountClear(bits[..|bits| - 1])
  }

  lemma {:induction false} CountPrefix(bits: seq<bool>, i: nat)
    requires i < |bits|
    ensures CountClear(bits[..i + 1]) == CountClear(bits[..i]) + if bits[i] then 0 else 1
  {
    assert bits[..i + 1][..i] == bits[..i];
  }

  lemma {:induction false} CountUpdate(bits: seq<bool>, i: nat, v: bool)
    requires i < |bits| && bits[i] != v
    ensures CountClear(bits[i := v]) == CountClear(bits) + if v then -1 else 1
  {
    var n := |bits| - 1;
    if i == n {
      assert bits[i := v][..n] == bits[..n];
    } else {
      assert bits[i := v][..n] == bits[..n][i := v];
      CountUpdate(bits[..n], i, v);
    }
  }

  lemma {:induction false} ClearBitExists(bits: seq<bool>)
    requires CountClear(bits) > 0
    ensures FirstClear(bits) != -1
  {
    if bits[|bits| - 1] {
      ClearBitExists(bits[..|bits| - 1]);
      assert !bits[..|bits| - 1][FirstClear(bits[..|bits| - 1])];
    }
  }

  predicate Distinct(xs: seq<int>) {
    forall i, j :: 0 <= i < j < |xs| ==> xs[i] != xs[j]
  }

  /** Every element of `xs` is the number of a bit that has value `v`. */
  predicate AllAre(bits: seq<bool>, xs: seq<int>, v: bool) {
    forall i :: 0 <= i < |xs| ==> 0 <= xs[i] < |bits| && bits[xs[i]] == v
  }

  function SetAll(bits: seq<bool>, xs: seq<int>, v: bool): (r: seq<bool>)
    ensures |r| == |bits|
    ensures forall i :: 0 <= i < |bits| ==> r[i] == if i in xs then v else bits[i]
  {
    seq(|bits|, i requires 0 <= i < |bits| => if i in xs then v else bits[i])
  }

  lemma SetOneMore(bits: seq<bool>, xs: seq<int>, x: int, v: bool)
    requires 0 <= x < |bits|
    ensures SetAll(bits, xs + [x], v) == SetAll(bits, xs, v)[x := v]
  {
    assert forall i :: i in xs + [x] <==> i in xs || i == x;
  }

  /** Setting n distinct clear bits leaves exactly n fewer clear bits, and the other way round. */
  lemma {:induction false} CountSetAll(bits: seq<bool>, xs: seq<int>, v: bool)
    requires Distinct(xs) && AllAre(bits, xs, !v)
    ensures CountClear(SetAll(bits, xs, v)) == CountClear(bits) + if v then -|xs| else |xs|
  {
    if xs == [] {
      assert SetAll(bits, xs, v) == bits;
    } else {
      var n := |xs| - 1;
      assert xs == xs[..n] + [xs[n]];
      assert xs[n] !in xs[..n];
      SetOneMore(bits, xs[..n], xs[n], v);
      CountSetAll(bits, xs[..n], v);
      CountUpdate(SetAll(bits, xs[..n], v), xs[n], v);
    }
  }

  /** Marking clear bits and then clearing them gives back the same map. */
  lemma SetThenClear(bits: seq<bool>, xs: seq<int>, ys: seq<int>)
    requires AllAre(bits, xs, false)
    requires forall x :: x in xs <==> x in ys
    ensures SetAll(SetAll(bits, xs, true), ys, false) == bits
  {
  }
}

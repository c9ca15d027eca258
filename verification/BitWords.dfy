/** Bits of a bitmap kept in 32-bit words, and the free map they stand for. */
module BitWords {

  /** The word with only bit `k` on: 1 shifted left `k` times. */
  function Mask(k: nat): bv32 {
    if k == 0 then 1 else Mask(k - 1) << 1
  }

  predicate SingleBit(m: bv32) {
    m != 0 && m & (m - 1) == 0
  }

  lemma ShiftedBit(m: bv32)
    requires SingleBit(m) && m << 1 != 0
    ensures SingleBit(m << 1) && m < m << 1
  {
  }

  lemma LastMasks()
    ensures Mask(31) == 0x8000_0000 && Mask(32) == 0
  {
    assert Mask(4) == 0x10 && Mask(8) == 0x100;
    assert Mask(12) == 0x1000 && Mask(16) == 0x1_0000;
    assert Mask(20) == 0x10_0000 && Mask(24) == 0x100_0000;
    assert Mask(28) == 0x1000_0000;
  }

  /** The bit is not shifted out before the word ends. */
  lemma {:induction false} MaskNotZero(k: nat)
    requires k < 32
    ensures Mask(k) != 0
    decreases 32 - k
  {
    if k == 31 {
      LastMasks();
    } else {
      MaskNotZero(k + 1);
    }
  }

  lemma {:induction false} MaskIsSingleBit(k: nat)
    requires k < 32
    ensures Mask(k) != 0 && SingleBit(Mask(k))
  {
    MaskNotZero(k);
    if k > 0 {
      MaskIsSingleBit(k - 1);
      hide SingleBit;
      ShiftedBit(Mask(k - 1));
    }
  }

  lemma {:induction false} MasksGrow(j: nat, k: nat)
    requires j < k < 32
    ensures Mask(j) < Mask(k)
  {
    hide SingleBit;
    MaskIsSingleBit(k - 1);
    MaskNotZero(k);
    ShiftedBit(Mask(k - 1));
    if j < k - 1 {
      MasksGrow(j, k - 1);
    }
  }

  lemma MasksDiffer(j: nat, k: nat)
    requires j < 32 && k < 32 && j != k
    ensures Mask(j) != Mask(k)
  {
    hide Mask;
    if j < k {
      MasksGrow(j, k);
    } else {
      MasksGrow(k, j);
    }
  }

  function Masked(w: bv32, m: bv32): bv32 {
    w & m
  }

  function WithBit(w: bv32, m: bv32): bv32 {
    w | m
  }

  function WithoutBit(w: bv32, m: bv32): bv32 {
    w & !m
  }

  predicate On(w: bv32, m: bv32) {
    Masked(w, m) != 0
  }

  predicate Disjoint(m: bv32, n: bv32) {
    m & n == 0
  }

  lemma SingleBitsDisjoint(m: bv32, n: bv32)
    requires SingleBit(m) && SingleBit(n) && m != n
    ensures Disjoint(m, n)
  {
  }

  lemma OrAnd(w: bv32, m: bv32, n: bv32)
    requires m & n == 0
    ensures (w | m) & n == w & n
  {
  }

  lemma AndNotAnd(w: bv32, m: bv32, n: bv32)
    requires m & n == 0
    ensures (w & !m) & n == w & n
  {
  }

  lemma OrSelf(w: bv32, m: bv32)
    ensures (w | m) & m == m
  {
  }

  lemma AndNotSelf(w: bv32, m: bv32)
    ensures (w & !m) & m == 0
  {
  }

  lemma SameMasked(w: bv32, m: bv32)
    ensures Masked(WithBit(w, m), m) == m
    ensures Masked(WithoutBit(w, m), m) == 0
  {
    OrSelf(w, m);
    AndNotSelf(w, m);
  }

  lemma MasksDisjoint(j: nat, k: nat)
    requires j < 32 && k < 32 && j != k
    ensures Disjoint(Mask(j), Mask(k))
  {
    hide Mask, SingleBit, Disjoint;
    MaskIsSingleBit(j);
    MaskIsSingleBit(k);
    MasksDiffer(j, k);
    SingleBitsDisjoint(Mask(j), Mask(k));
  }

  lemma OtherAfterSet(w: bv32, m: bv32, n: bv32)
    requires Disjoint(m, n)
    ensures Masked(WithBit(w, m), n) == Masked(w, n)
  {
    OrAnd(w, m, n);
  }

  lemma OtherAfterClear(w: bv32, m: bv32, n: bv32)
    requires Disjoint(m, n)
    ensures Masked(WithoutBit(w, m), n) == Masked(w, n)
  {
    AndNotAnd(w, m, n);
  }

  /** Setting or clearing bit `k` of a word changes bit `k` and no other. */
  lemma {:induction false} WordUpdate(w: bv32, k: nat, j: nat, m: bv32, n: bv32)
    requires k < 32 && j < 32 && m == Mask(k) && n == Mask(j)
    ensures On(WithBit(w, m), n) <==> j == k || On(w, n)
    ensures On(WithoutBit(w, m), n) <==> j != k && On(w, n)
  {
    hide Mask, Masked, WithBit, WithoutBit, Disjoint;
    if j == k {
      MaskNotZero(k);
      SameMasked(w, m);
    } else {
      MasksDisjoint(k, j);
      OtherAfterSet(w, m, n);
      OtherAfterClear(w, m, n);
    }
  }

  /** The bits below `m`. */
  function Below(w: bv32, m: bv32): bv32 {
    w & (m - 1)
  }

  lemma OneMoreBit(v: bv32, w: bv32, m: bv32)
    requires SingleBit(m) && Below(v, m) == Below(w, m) && On(v, m) == On(w, m)
    ensures Below(v, m << 1) == Below(w, m << 1)
  {
  }

  lemma {:induction false} SameLowBits(v: bv32, w: bv32, n: nat)
    requires n <= 32 && forall k: nat :: k < n ==> On(v, Mask(k)) == On(w, Mask(k))
    ensures Below(v, Mask(n)) == Below(w, Mask(n))
  {
    if n > 0 {
      SameLowBits(v, w, n - 1);
      MaskIsSingleBit(n - 1);
      hide SingleBit, Below, On;
      OneMoreBit(v, w, Mask(n - 1));
    }
  }

  lemma WholeWord(w: bv32)
    ensures Below(w, 0) == w
  {
  }

  /** A word is determined by its bits. */
  lemma {:induction false} SameBitsSameWord(v: bv32, w: bv32)
    requires forall k: nat :: k < 32 ==> On(v, Mask(k)) == On(w, Mask(k))
    ensures v == w
  {
    SameLowBits(v, w, 32);
    LastMasks();
    hide Mask, Below;
    WholeWord(v);
    WholeWord(w);
  }

  /** The bits of an array of words, in order. */
  function Bits(words: seq<bv32>): (bits: seq<bool>)
    ensures |bits| == 32 * |words|
  {
    seq(32 * |words|, i requires 0 <= i < 32 * |words| => On(words[i / 32], Mask(i % 32)))
  }

  /** A word array whose word `i / 32` was replaced so that only bit `i % 32` changed, to `v`. */
  lemma {:induction false} ReplaceWord(words: seq<bv32>, i: nat, u: bv32, v: bool)
    requires i < 32 * |words|
    requires forall k: nat :: k < 32 ==> On(u, Mask(k)) == if k == i % 32 then v else On(words[i / 32], Mask(k))
    ensures Bits(words[i / 32 := u]) == Bits(words)[i := v]
  {
    hide Masked, Mask;
  }

  lemma {:induction false} MarkWord(words: seq<bv32>, i: nat, u: bv32)
    requires i < 32 * |words| && u == WithBit(words[i / 32], Mask(i % 32))
    ensures Bits(words[i / 32 := u]) == Bits(words)[i := true]
  {
    hide Masked, Mask, WithBit, WithoutBit;
    forall k: nat | k < 32
      ensures On(u, Mask(k)) == if k == i % 32 then true else On(words[i / 32], Mask(k))
    {
      WordUpdate(words[i / 32], i % 32, k, Mask(i % 32), Mask(k));
    }
    ReplaceWord(words, i, u, true);
  }

  lemma {:induction false} ClearWord(words: seq<bv32>, i: nat, u: bv32)
    requires i < 32 * |words| && u == WithoutBit(words[i / 32], Mask(i % 32))
    ensures Bits(words[i / 32 := u]) == Bits(words)[i := false]
  {
    hide Masked, Mask, WithBit, WithoutBit;
    forall k: nat | k < 32
      ensures On(u, Mask(k)) == if k == i % 32 then false else On(words[i / 32], Mask(k))
    {
      WordUpdate(words[i / 32], i % 32, k, Mask(i % 32), Mask(k));
    }
    ReplaceWord(words, i, u, false);
  }

  /** Two word arrays with the same bits are the same array, bit for bit. */
  lemma {:induction false} SameBitsSameWords(v: seq<bv32>, w: seq<bv32>)
    requires |v| == |w| && Bits(v) == Bits(w)
    ensures v == w
  {
    hide Masked, Mask;
    forall i | 0 <= i < |v|
      ensures v[i] == w[i]
    {
      forall k: nat | k < 32
        ensures On(v[i], Mask(k)) == On(w[i], Mask(k))
      {
        assert Bits(v)[32 * i + k] == Bits(w)[32 * i + k];
      }
      SameBitsSameWord(v[i], w[i]);
    }
  }
}

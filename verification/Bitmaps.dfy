/** The bitmap kept as an array of words and changed in place. */
module Bitmaps {
  import opened BitWords
  import opened FreeMaps

  function DivRoundUp(n: nat, s: nat): nat
    requires s > 0
  {
    n / s + if n % s > 0 then 1 else 0
  }

  /** The least number of units of size `s` that hold `n`. */
  lemma JustEnough(n: nat, s: nat, units: nat)
    requires s > 0
    ensures n <= units * s <==> DivRoundUp(n, s) <= units
  {
    var q, r := n / s, n % s;
    assert n == q * s + r;
    if units <= q {
      assert units * s <= q * s;
      assert units < q ==> (units + 1) * s <= q * s;
    } else {
      assert (q + 1) * s <= units * s;
    }
  }

  class Bitmap {
    const numBits: nat
    const numWords: nat
    const words: array<bv32>

    ghost predicate Valid() {
      0 < numBits && numWords == DivRoundUp(numBits, 32) && words.Length == numWords
    }

    /** The bitmap as a sequence of bits. */
    ghost function View(): (bits: seq<bool>)
      requires Valid()
      reads words
      ensures |bits| == numBits
    {
      Bits(words[..])[..numBits]
    }

    /** No bits are left over when the words are all in use. */
    lemma WholeWords()
      requires Valid() && numBits == 32 * numWords
      ensures View() == Bits(words[..])
    {
      hide Bits;
    }

    constructor (numItems: nat)
      requires numItems > 0
      ensures Valid() && fresh(words) && numBits == numItems
      ensures forall i :: 0 <= i < numBits ==> !View()[i]
    {
      numBits := numItems;
      numWords := DivRoundUp(numItems, 32);
      words := new bv32[DivRoundUp(numItems, 32)];
      new;
      for i := 0 to numWords
        invariant forall j :: 0 <= j < i ==> words[j] == 0
      {
        words[i] := 0;
      }
      for i := 0 to numBits
        invariant forall j :: 0 <= j < i ==> !View()[j]
      {
        Clear(i);
      }
    }

    method Mark(which: int)
      requires Valid() && 0 <= which < numBits
      modifies words
      ensures View() == old(View())[which := true]
    {
      hide Masked, Mask, WithBit, Bits;
      MarkWord(words[..], which, WithBit(words[which / 32], Mask(which % 32)));
      ghost var was := words[..];
      words[which / 32] := WithBit(words[which / 32], Mask(which % 32));
      assert words[..] == was[which / 32 := words[which / 32]];
    }

    method Clear(which: int)
      requires Valid() && 0 <= which < numBits
      modifies words
      ensures View() == old(View())[which := false]
    {
      hide Masked, Mask, WithoutBit, Bits;
      ClearWord(words[..], which, WithoutBit(words[which / 32], Mask(which % 32)));
      ghost var was := words[..];
      words[which / 32] := WithoutBit(words[which / 32], Mask(which % 32));
      assert words[..] == was[which / 32 := words[which / 32]];
    }

    function Test(which: int): (on: bool)
      requires Valid() && 0 <= which < numBits
      reads words
      ensures on == View()[which]
    {
      On(words[which / 32], Mask(which % 32))
    }

    /** Takes the first clear bit, or answers -1 and changes nothing. */
    method FindAndSet() returns (r: int)
      requires Valid()
      modifies words
      ensures r == FirstClear(old(View()))
      ensures View() == if r == -1 then old(View()) else old(View())[r := true]
    {
      for i := 0 to numBits
        invariant forall j :: 0 <= j < i ==> View()[j]
        invariant words[..] == old(words[..])
      {
        if !Test(i) {
          Mark(i);
          return i;
        }
      }
      return -1;
    }

    method NumClear() returns (count: nat)
      requires Valid()
      ensures count == CountClear(View())
    {
      count := 0;
      for i := 0 to numBits
        invariant count == CountClear(View()[..i])
      {
        CountPrefix(View(), i);
        if !Test(i) {
          count := count + 1;
        }
      }
      assert View()[..numBits] == View();
    }
  }
}

/** The R2000's multiplication: 32 by 32 to 64 bits, by shifting and adding in two 32-bit words. */
module Multiply {
  import Bytes
  import opened Remainders

  type Int32 = Bytes.Int32

  /** A 32-bit word read as an unsigned number. */
  type Word32 = w: nat | w < 0x1_0000_0000

  /** The same 32 bits, read as unsigned and as signed. */
  function ToWord(x: Int32): Word32 { if x < 0 then x + 0x1_0000_0000 else x }
  function ToInt(w: Word32): Int32 { if w < 0x8000_0000 then w else w - 0x1_0000_0000 }

  /** Negation in 32 bits: the smallest number is its own negative. */
  function Negated(x: Int32): Int32 { if x == -0x8000_0000 then x else -x }

  /** `>>=` on a negative int shifts in copies of the sign, that is, divides rounding down. */
  function ShiftRight(x: Int32): Int32 { x / 2 }

  function Double(hi: Word32, lo: Word32): nat { hi * 0x1_0000_0000 + lo }

  function Pow2(n: nat): nat { if n == 0 then 1 else 2 * Pow2(n - 1) }

  /** The addition of one two-word number to another, with the carry found by comparing the low words. */
  method AddWords(hi: Word32, lo: Word32, bHi: Word32, bLo: Word32) returns (hi': Word32, lo': Word32)
    ensures Double(hi, lo) + Double(bHi, bLo) < 0x1_0000_0000_0000_0000 ==>
      Double(hi', lo') == Double(hi, lo) + Double(bHi, bLo)
  {
    hi', lo' := hi, (lo + bLo) % 0x1_0000_0000;
    ghost var carry := if lo + bLo >= 0x1_0000_0000 then 1 else 0;
    if lo' < bLo {
      hi' := (hi' + 1) % 0x1_0000_0000;
    }
    hi' := (hi' + bHi) % 0x1_0000_0000;
    assert hi' == (hi + bHi + carry) % 0x1_0000_0000 && lo' == lo + bLo - carry * 0x1_0000_0000;
    CarriedSum(hi, lo, bHi, bLo, carry);
  }

  lemma CarriedSum(hi: Word32, lo: Word32, bHi: Word32, bLo: Word32, carry: nat)
    requires lo + bLo >= carry * 0x1_0000_0000 && lo + bLo - carry * 0x1_0000_0000 < 0x1_0000_0000
    ensures Double(hi, lo) + Double(bHi, bLo) < 0x1_0000_0000_0000_0000 ==>
      Double((hi + bHi + carry) % 0x1_0000_0000, lo + bLo - carry * 0x1_0000_0000) == Double(hi, lo) + Double(bHi, bLo)
  {
    var over := (hi + bHi + carry) / 0x1_0000_0000;
    assert Double(hi, lo) + Double(bHi, bLo) ==
      Double((hi + bHi + carry) % 0x1_0000_0000, lo + bLo - carry * 0x1_0000_0000) + over * 0x1_0000_0000_0000_0000;
  }

  /** The doubling of a two-word number. */
  method DoubleWords(bHi: Word32, bLo: Word32) returns (bHi': Word32, bLo': Word32)
    ensures 2 * Double(bHi, bLo) < 0x1_0000_0000_0000_0000 ==> Double(bHi', bLo') == 2 * Double(bHi, bLo)
  {
    bHi' := bHi * 2 % 0x1_0000_0000;
    if bLo >= 0x8000_0000 {
      bHi' := bHi' + 1;
    }
    bLo' := bLo * 2 % 0x1_0000_0000;
    var over := bHi * 2 / 0x1_0000_0000;
    assert 2 * Double(bHi, bLo) == Double(bHi', bLo') + over * 0x1_0000_0000_0000_0000;
  }

  /** The two's complement of a two-word number. */
  method NegateWords(hi: Word32, lo: Word32) returns (hi': Word32, lo': Word32)
    ensures Double(hi', lo') == (0x1_0000_0000_0000_0000 - Double(hi, lo)) % 0x1_0000_0000_0000_0000
  {
    hi', lo' := 0xFFFF_FFFF - hi, 0xFFFF_FFFF - lo;
    lo' := (lo' + 1) % 0x1_0000_0000;
    if lo' == 0 {
      hi' := (hi' + 1) % 0x1_0000_0000;
    }
    if hi == 0 && lo == 0 {
      assert Double(hi', lo') == 0;
    } else {
      assert Double(hi', lo') == 0x1_0000_0000_0000_0000 - Double(hi, lo);
    }
  }

  function Times(x: nat, y: nat): nat { x * y }

  lemma Distributes(q: nat, c: nat, each: nat)
    ensures Times(2 * q + c, each) == Times(q, 2 * each) + Times(c, each)
    ensures Times(0, each) == 0 && Times(1, each) == each
    ensures q > 0 ==> 2 * each <= Times(q, 2 * each)
  {
    if q > 0 {
      ProductGrows(1, 2 * each, q, 2 * each);
    }
  }

  /** The `n` bits of `a` still to come are the unsigned number `r`; `rest` is what the signed shifts left of it. */
  ghost predicate BitsLeft(a: Int32, rest: Int32, r: nat, n: nat) {
    r < Pow2(n) && rest == if a < 0 then r - Pow2(n) else r
  }

  lemma AllBitsLeft(a: Int32)
    ensures BitsLeft(a, a, ToWord(a), 32)
  {
    assert Pow2(8) == 0x100;
    assert Pow2(16) == 0x1_0000;
    assert Pow2(24) == 0x100_0000;
  }

  /** The loop sees the unsigned bits one after the other, and stops early only after the last one that is set. */
  lemma NextBit(a: Int32, rest: Int32, r: nat, n: nat) returns (q: nat)
    requires BitsLeft(a, rest, r, n) && n > 0
    ensures r == 2 * q + rest % 2 && BitsLeft(a, ShiftRight(rest), q, n - 1)
    ensures rest == 1 ==> q == 0
  {
    assert Pow2(n) == 2 * Pow2(n - 1);
    q := r / 2;
  }

  /** What has been added and what is still to be added make up the product, and the words hold what comes next. */
  ghost predicate Adds(hi: Word32, lo: Word32, bHi: Word32, bLo: Word32, r: nat, each: nat, product: nat) {
    && Double(hi, lo) + Times(r, each) == product < 0x1_0000_0000_0000_0000
    && (r > 0 ==> Double(bHi, bLo) == each)
  }

  method AddBit(hi: Word32, lo: Word32, bHi: Word32, bLo: Word32, ghost q: nat, ghost each: nat, ghost product: nat)
      returns (hi': Word32, lo': Word32)
    requires Adds(hi, lo, bHi, bLo, 2 * q + 1, each, product)
    ensures Adds(hi', lo', bHi, bLo, 2 * q, each, product)
  {
    hide Double, Times;
    Distributes(q, 1, each);
    Distributes(q, 0, each);
    hi', lo' := AddWords(hi, lo, bHi, bLo);
  }

  method ShiftBit(hi: Word32, lo: Word32, bHi: Word32, bLo: Word32, ghost q: nat, ghost each: nat, ghost product: nat)
      returns (bHi': Word32, bLo': Word32)
    requires Adds(hi, lo, bHi, bLo, 2 * q, each, product)
    ensures Adds(hi, lo, bHi', bLo', q, 2 * each, product)
  {
    hide Double, Times;
    Distributes(q, 0, each);
    bHi', bLo' := DoubleWords(bHi, bLo);
  }

  lemma AddsAll(hi: Word32, lo: Word32, bHi: Word32, bLo: Word32, each: nat, product: nat)
    ensures Adds(hi, lo, bHi, bLo, 0, each, product) ==> Double(hi, lo) == product
  {
    Distributes(0, 0, each);
  }

  lemma AddsNothing(x: Word32, y: Word32)
    ensures Adds(0, 0, 0, y, x, y, Times(x, y))
  {
    ProductGrows(x, y, 0xFFFF_FFFF, 0xFFFF_FFFF);
  }

  /** The bit loop: `a` is read bit by bit as an unsigned number, though its shifts copy the sign. */
  method MultiplyWords(a: Int32, b: Int32) returns (hi: Word32, lo: Word32)
    ensures Double(hi, lo) == Times(ToWord(a), ToWord(b))
  {
    var rest := a;
    var bHi: Word32, bLo: Word32 := 0, ToWord(b);
    hi, lo := 0, 0;
    // the bits of `a` still to come, what has to be added for the next one, and the whole product
    ghost var r: nat, each: nat, product := ToWord(a), ToWord(b), Times(ToWord(a), ToWord(b));
    AllBitsLeft(a);
    AddsNothing(r, each);
    hide *;
    for i := 0 to 32
      invariant BitsLeft(a, rest, r, 32 - i)
      invariant Adds(hi, lo, bHi, bLo, r, each, product)
    {
      ghost var q := NextBit(a, rest, r, 32 - i);
      if rest % 2 == 1 {
        hi, lo := AddBit(hi, lo, bHi, bLo, q, each, product);
        if rest == 0 || rest == 1 {
          AddsAll(hi, lo, bHi, bLo, each, product);
          return;
        }
      }
      bHi, bLo := ShiftBit(hi, lo, bHi, bLo, q, each, product);
      rest := ShiftRight(rest);
      r, each := q, 2 * each;
    }
    AddsAll(hi, lo, bHi, bLo, each, product);
  }

  /** A two-word number read as a signed one. */
  function SignedDouble(hi: Int32, lo: Int32): int { hi * 0x1_0000_0000 + ToWord(lo) }

  function Magnitude(x: Int32): nat { if x < 0 then 0 - (x as int) else x }

  function Product(a: int, b: int): int { a * b }

  lemma NegatedProduct(a: int, b: int)
    ensures (0 - a) * b == 0 - a * b && a * (0 - b) == 0 - a * b && (0 - a) * (0 - b) == a * b
  {
  }

  lemma SignedProduct(a: Int32, b: Int32)
    ensures Times(Magnitude(a), Magnitude(b)) == if (a < 0) == (b < 0) then Product(a, b) else 0 - Product(a, b)
    ensures Times(Magnitude(a), Magnitude(b)) <= 0x4000_0000_0000_0000
  {
    ProductGrows(Magnitude(a), Magnitude(b), 0x8000_0000, 0x8000_0000);
    NegatedProduct(a, b);
  }

  /** The two words of a product or of its negative, read as a signed number. */
  lemma ReadSigned(hi: Word32, lo: Word32, product: nat, negative: bool)
    requires product <= 0x4000_0000_0000_0000
    requires Double(hi, lo) ==
      if negative then (0x1_0000_0000_0000_0000 - product) % 0x1_0000_0000_0000_0000 else product
    ensures SignedDouble(ToInt(hi), ToInt(lo)) == if negative then 0 - product else product
  {
    if negative && product == 0 {
      assert hi == 0 && lo == 0;
    }
  }

  lemma ReadUnsigned(w: Word32)
    ensures ToWord(ToInt(w)) == w
  {
  }

  /** The negative of a negative operand has the operand's magnitude as its word, -2^31 included. */
  lemma NegatedMagnitude(x: Int32)
    ensures ToWord(if x < 0 then Negated(x) else x) == Magnitude(x)
  {
  }

  lemma ZeroProduct(a: Int32, b: Int32)
    requires a == 0 || b == 0
    ensures Product(a, b) == 0 && Times(ToWord(a), ToWord(b)) == 0
    ensures SignedDouble(0, 0) == 0 && Double(ToWord(0), ToWord(0)) == 0
  {
  }

  /** Multiplies magnitudes, or the operands as they are, and puts the sign back. */
  method MultiplySigns(a: Int32, b: Int32, signedArith: bool) returns (hi: Int32, lo: Int32)
    ensures signedArith ==> SignedDouble(hi, lo) == Product(a, b)
    ensures !signedArith ==> Double(ToWord(hi), ToWord(lo)) == Times(ToWord(a), ToWord(b))
  {
    hide *;
    if a == 0 || b == 0 {
      ZeroProduct(a, b);
      return 0, 0;
    }
    var negative := false;
    var x, y := a, b;
    if signedArith {
      if x < 0 {
        negative := !negative;
        x := Negated(x);
      }
      if y < 0 {
        negative := !negative;
        y := Negated(y);
      }
    }
    var hiWord, loWord := MultiplyWords(x, y);
    if negative {
      hiWord, loWord := NegateWords(hiWord, loWord);
    }
    hi, lo := ToInt(hiWord), ToInt(loWord);
    if signedArith {
      NegatedMagnitude(a);
      NegatedMagnitude(b);
      SignedProduct(a, b);
      ReadSigned(hiWord, loWord, Times(Magnitude(a), Magnitude(b)), negative);
    } else {
      ReadUnsigned(hiWord);
      ReadUnsigned(loWord);
    }
  }

  /** The full 64-bit product of any two operands, signed or unsigned: hi:lo holds it exactly. */
  method Mult(a: Int32, b: Int32, signedArith: bool) returns (hi: Int32, lo: Int32)
    ensures signedArith ==> SignedDouble(hi, lo) == a * b
    ensures !signedArith ==> Double(ToWord(hi), ToWord(lo)) == ToWord(a) * ToWord(b)
  {
    hide SignedDouble, Double, ToWord;
    hi, lo := MultiplySigns(a, b, signedArith);
  }
}

/** Bytes, 32-bit integers and their little-endian layout in memory and on disk. */
module Bytes {

  type Byte = bv8

  /** A machine word, as bits. */
  type Word = bv32

  /** The source's `int`. */
  type Int32 = x: int | -0x8000_0000 <= x < 0x8000_0000

  /** A block of memory of `n` bytes overwritten by `t` from offset `at` on. */
  function Splice<T>(s: seq<T>, at: nat, t: seq<T>): (r: seq<T>)
    requires at + |t| <= |s|
    ensures |r| == |s|
    ensures forall i :: 0 <= i < |s| ==> r[i] == if at <= i < at + |t| then t[i - at] else s[i]
  {
    s[..at] + t + s[at + |t|..]
  }

  function OfBits(b0: bool, b1: bool, b2: bool, b3: bool, b4: bool, b5: bool, b6: bool, b7: bool): Byte {
    (if b0 then 1 else 0) | (if b1 then 2 else 0) | (if b2 then 4 else 0) | (if b3 then 8 else 0) |
    (if b4 then 16 else 0) | (if b5 then 32 else 0) | (if b6 then 64 else 0) | (if b7 then 128 else 0)
  }

  lemma BitsOfByte(b0: bool, b1: bool, b2: bool, b3: bool, b4: bool, b5: bool, b6: bool, b7: bool)
    ensures OfBits(b0, b1, b2, b3, b4, b5, b6, b7) & 1 != 0 <==> b0
    ensures OfBits(b0, b1, b2, b3, b4, b5, b6, b7) & 2 != 0 <==> b1
    ensures OfBits(b0, b1, b2, b3, b4, b5, b6, b7) & 4 != 0 <==> b2
    ensures OfBits(b0, b1, b2, b3, b4, b5, b6, b7) & 8 != 0 <==> b3
    ensures OfBits(b0, b1, b2, b3, b4, b5, b6, b7) & 16 != 0 <==> b4
    ensures OfBits(b0, b1, b2, b3, b4, b5, b6, b7) & 32 != 0 <==> b5
    ensures OfBits(b0, b1, b2, b3, b4, b5, b6, b7) & 64 != 0 <==> b6
    ensures OfBits(b0, b1, b2, b3, b4, b5, b6, b7) & 128 != 0 <==> b7
  {
  }

  /** The binary digits of a number below 16, low digit first. */
  function Digits(q: int): (bool, bool, bool, bool)
    requires 0 <= q < 16
  {
    (q % 2 == 1, q / 2 % 2 == 1, q / 4 % 2 == 1, q / 8 == 1)
  }

  /** The byte whose bits are the binary digits of `v`. */
  function ToByte(v: int): Byte
    requires 0 <= v < 256
  {
    var (low, high) := (Digits(v % 16), Digits(v / 16));
    OfBits(low.0, low.1, low.2, low.3, high.0, high.1, high.2, high.3)
  }

  /** The number whose binary digits are the bits of `b`. */
  function FromByte(b: Byte): (v: int)
    ensures 0 <= v < 256
  {
    Number(b & 1 != 0, b & 2 != 0, b & 4 != 0, b & 8 != 0,
           b & 16 != 0, b & 32 != 0, b & 64 != 0, b & 128 != 0)
  }

  function Number(b0: bool, b1: bool, b2: bool, b3: bool, b4: bool, b5: bool, b6: bool, b7: bool): (v: int)
    ensures 0 <= v < 256
  {
    (if b0 then 1 else 0) + (if b1 then 2 else 0) + (if b2 then 4 else 0) + (if b3 then 8 else 0) +
    (if b4 then 16 else 0) + (if b5 then 32 else 0) + (if b6 then 64 else 0) + (if b7 then 128 else 0)
  }

  lemma NumberOfDigits(q: int)
    requires 0 <= q < 16
    ensures var t := Digits(q);
      q == (if t.0 then 1 else 0) + (if t.1 then 2 else 0) + (if t.2 then 4 else 0) + if t.3 then 8 else 0
  {
    assert q in {0, 1, 2, 3, 4, 5, 6, 7} || q in {8, 9, 10, 11, 12, 13, 14, 15};
  }

  lemma BitsRoundTrip(b0: bool, b1: bool, b2: bool, b3: bool, b4: bool, b5: bool, b6: bool, b7: bool)
    ensures FromByte(OfBits(b0, b1, b2, b3, b4, b5, b6, b7)) == Number(b0, b1, b2, b3, b4, b5, b6, b7)
  {
    hide OfBits, Number;
    BitsOfByte(b0, b1, b2, b3, b4, b5, b6, b7);
  }

  lemma ByteRoundTrip(v: int)
    requires 0 <= v < 256
    ensures FromByte(ToByte(v)) == v
  {
    hide OfBits, FromByte, Digits;
    var (low, high) := (Digits(v % 16), Digits(v / 16));
    BitsRoundTrip(low.0, low.1, low.2, low.3, high.0, high.1, high.2, high.3);
    NumberOfDigits(v % 16);
    NumberOfDigits(v / 16);
  }

  /** `n` little-endian bytes of the unsigned number `u`. */
  function EncodeNat(u: nat, n: nat): (s: seq<Byte>)
    ensures |s| == n
  {
    if n == 0 then [] else [ToByte(u % 256)] + EncodeNat(u / 256, n - 1)
  }

  function DecodeNat(s: seq<Byte>): nat {
    if s == [] then 0 else FromByte(s[0]) + 256 * DecodeNat(s[1..])
  }

  lemma DecodeBelow(s: seq<Byte>)
    requires |s| == 4
    ensures DecodeNat(s) < 0x1_0000_0000
  {
    hide FromByte;
    assert s[1..][1..] == s[2..] && s[2..][1..] == s[3..] && s[3..][1..] == [];
    assert DecodeNat(s[3..]) < 0x100;
    assert DecodeNat(s[2..]) < 0x1_0000;
    assert DecodeNat(s[1..]) < 0x100_0000;
  }

  lemma {:induction false} DecodeInjective(s: seq<Byte>, t: seq<Byte>)
    requires |s| == |t| && DecodeNat(s) == DecodeNat(t)
    ensures s == t
  {
    hide FromByte;
    if s != [] {
      LowDigit(FromByte(s[0]), FromByte(t[0]), DecodeNat(s[1..]), DecodeNat(t[1..]));
      FromByteInjective(s[0], t[0]);
      DecodeInjective(s[1..], t[1..]);
      assert s == [s[0]] + s[1..] && t == [t[0]] + t[1..];
    }
  }

  lemma LowDigit(p: int, q: int, x: nat, y: nat)
    requires 0 <= p < 256 && 0 <= q < 256 && p + 256 * x == q + 256 * y
    ensures p == q && x == y
  {
  }

  lemma FromByteInjective(a: Byte, b: Byte)
    ensures FromByte(a) == FromByte(b) ==> a == b
  {
    if FromByte(a) == FromByte(b) {
      SameDigits(a & 1 != 0, a & 2 != 0, a & 4 != 0, a & 8 != 0, a & 16 != 0, a & 32 != 0, a & 64 != 0, a & 128 != 0,
                 b & 1 != 0, b & 2 != 0, b & 4 != 0, b & 8 != 0, b & 16 != 0, b & 32 != 0, b & 64 != 0, b & 128 != 0);
      SameBits(a, b);
    }
  }

  lemma SameDigits(a0: bool, a1: bool, a2: bool, a3: bool, a4: bool, a5: bool, a6: bool, a7: bool,
                   b0: bool, b1: bool, b2: bool, b3: bool, b4: bool, b5: bool, b6: bool, b7: bool)
    requires Number(a0, a1, a2, a3, a4, a5, a6, a7) == Number(b0, b1, b2, b3, b4, b5, b6, b7)
    ensures a0 == b0 && a1 == b1 && a2 == b2 && a3 == b3 && a4 == b4 && a5 == b5 && a6 == b6 && a7 == b7
  {
  }

  lemma SameBits(a: Byte, b: Byte)
    requires (a & 1 != 0) == (b & 1 != 0) && (a & 2 != 0) == (b & 2 != 0)
    requires (a & 4 != 0) == (b & 4 != 0) && (a & 8 != 0) == (b & 8 != 0)
    requires (a & 16 != 0) == (b & 16 != 0) && (a & 32 != 0) == (b & 32 != 0)
    requires (a & 64 != 0) == (b & 64 != 0) && (a & 128 != 0) == (b & 128 != 0)
    ensures a == b
  {
  }

  function Pow256(n: nat): nat {
    if n == 0 then 1 else 256 * Pow256(n - 1)
  }

  lemma {:induction false} NatRoundTrip(u: nat, n: nat)
    requires u < Pow256(n)
    ensures DecodeNat(EncodeNat(u, n)) == u
  {
    hide ToByte, FromByte;
    if n == 0 {
    } else {
      ByteRoundTrip(u % 256);
      NatRoundTrip(u / 256, n - 1);
      assert EncodeNat(u, n)[1..] == EncodeNat(u / 256, n - 1);
    }
  }

  /** Two's complement, little-endian. */
  function EncodeInt(x: Int32): (s: seq<Byte>)
    ensures |s| == 4
  {
    EncodeNat(if x < 0 then x + 0x1_0000_0000 else x, 4)
  }

  function DecodeInt(s: seq<Byte>): Int32 {
    var u := DecodeNat(s);
    if u < 0x8000_0000 then u else if u < 0x1_0000_0000 then u - 0x1_0000_0000 else 0
  }

  /** An `int` written to memory and read back is the same `int`. */
  lemma IntRoundTrip(x: Int32)
    ensures DecodeInt(EncodeInt(x)) == x
  {
    assert Pow256(4) == 0x1_0000_0000;
    hide EncodeNat, DecodeNat, Pow256, ToByte, FromByte, OfBits, Number;
    var u: nat := if x < 0 then x + 0x1_0000_0000 else x;
    NatRoundTrip(u, 4);
  }

  /** The four bytes of an `int`, the lowest first, are its value modulo 2^32 in base 256. */
  lemma IntLayout(x: Int32)
    ensures var s := EncodeInt(x);
      FromByte(s[0]) + 0x100 * FromByte(s[1]) + 0x1_0000 * FromByte(s[2]) + 0x100_0000 * FromByte(s[3])
      == if x < 0 then x + 0x1_0000_0000 else x
  {
    hide ToByte, FromByte;
    assert Pow256(4) == 0x1_0000_0000;
    var u: nat := if x < 0 then x + 0x1_0000_0000 else x;
    NatRoundTrip(u, 4);
    var s := EncodeNat(u, 4);
    assert s[1..][1..] == s[2..] && s[2..][1..] == s[3..] && s[3..][1..] == [];
    assert DecodeNat(s[3..]) == FromByte(s[3]);
    assert DecodeNat(s[2..]) == FromByte(s[2]) + 256 * DecodeNat(s[3..]);
    assert DecodeNat(s[1..]) == FromByte(s[1]) + 256 * DecodeNat(s[2..]);
  }

  function EncodeWord(w: bv32): (s: seq<Byte>)
    ensures |s| == 4
  {
    [(w & 0xff) as bv8, ((w >> 8) & 0xff) as bv8, ((w >> 16) & 0xff) as bv8, (w >> 24) as bv8]
  }

  function DecodeWord(s: seq<Byte>): bv32 {
    if |s| != 4 then 0
    else s[0] as bv32 | (s[1] as bv32 << 8) | (s[2] as bv32 << 16) | (s[3] as bv32 << 24)
  }

  lemma WordRoundTrip(w: bv32)
    ensures DecodeWord(EncodeWord(w)) == w
  {
  }

  lemma BytesRoundTrip(s: seq<Byte>)
    requires |s| == 4
    ensures EncodeWord(DecodeWord(s)) == s
  {
  }

  /** The records of an array laid out one after the other. */
  function Pack<T>(encode: T -> seq<Byte>, xs: seq<T>): seq<Byte> {
    if xs == [] then [] else encode(xs[0]) + Pack(encode, xs[1..])
  }

  /** The first `count` records of `size` bytes found in `s`. */
  function Unpack<T>(decode: seq<Byte> -> T, size: nat, count: nat, s: seq<Byte>): (xs: seq<T>)
    ensures |xs| == count
  {
    if count == 0 then []
    else if size <= |s| then [decode(s[..size])] + Unpack(decode, size, count - 1, s[size..])
    else [decode(s)] + Unpack(decode, size, count - 1, [])
  }

  lemma {:induction false} PackLength<T(!new)>(encode: T -> seq<Byte>, size: nat, xs: seq<T>)
    requires forall x :: |encode(x)| == size
    ensures |Pack(encode, xs)| == size * |xs|
  {
    if xs == [] {
    } else {
      PackLength(encode, size, xs[1..]);
    }
  }

  /** Record `i` lies at offset `size * i`. */
  lemma {:induction false} PackAt<T(!new)>(encode: T -> seq<Byte>, size: nat, xs: seq<T>, i: nat)
    requires (forall x :: |encode(x)| == size) && i < |xs|
    ensures size * i + size <= |Pack(encode, xs)| && Pack(encode, xs)[size * i..size * i + size] == encode(xs[i])
  {
    var s := Pack(encode, xs);
    PackLength(encode, size, xs);
    PackLength(encode, size, xs[1..]);
    if i == 0 {
    } else {
      PackAt(encode, size, xs[1..], i - 1);
      assert size * i == size + size * (i - 1);
      assert s[size..] == Pack(encode, xs[1..]);
      assert s[size * i..size * i + size] == s[size..][size * (i - 1)..size * (i - 1) + size];
    }
  }

  /** An array of records written to memory and read back is the same array. */
  lemma {:induction false} PackRoundTrip<T(!new)>(encode: T -> seq<Byte>, decode: seq<Byte> -> T, size: nat, xs: seq<T>)
    requires forall x :: |encode(x)| == size && decode(encode(x)) == x
    ensures Unpack(decode, size, |xs|, Pack(encode, xs)) == xs
  {
    if xs == [] {
    } else {
      var s := Pack(encode, xs);
      assert s[..size] == encode(xs[0]);
      assert s[size..] == Pack(encode, xs[1..]);
      PackRoundTrip(encode, decode, size, xs[1..]);
      assert |xs| - 1 == |xs[1..]|;
    }
  }
}

/** The loads and stores of bytes, halfwords and words at aligned addresses, with sign and zero extension. */
module AlignedAccess {
  import opened Bytes
  import opened VirtualMemory
  import opened UnalignedAccess

  datatype LoadOp = LB | LBU | LH | LHU | LW
  datatype StoreOp = SB | SH | SW

  function LoadSize(op: LoadOp): (size: nat)
    ensures AccessSize(size)
  {
    match op
    case LB => 1
    case LBU => 1
    case LH => 2
    case LHU => 2
    case LW => 4
  }

  function StoreSize(op: StoreOp): (size: nat)
    ensures AccessSize(size)
  {
    match op
    case SB => 1
    case SH => 2
    case SW => 4
  }

  /** The masks: sign bits, low parts, and high parts filled with ones. */
  predicate ByteSign(b: Byte) { b & 0x80 != 0 }
  predicate Sign8(v: Word) { v & 0x80 != 0 }
  predicate Sign16(v: Word) { v & 0x8000 != 0 }
  function Low8(v: Word): Word { v & 0xff }
  function Low16(v: Word): Word { v & 0xffff }
  function Ones8(v: Word): Word { v | 0xffff_ff00 }
  function Ones16(v: Word): Word { v | 0xffff_0000 }

  /** A `char` is signed, an `unsigned short` is not. */
  function FromChar(b: Byte): Word { if ByteSign(b) then Ones8(b as bv32) else b as bv32 }
  function FromShort(b0: Byte, b1: Byte): Word { b0 as bv32 | (b1 as bv32 << 8) }

  /** The bytes read, as an `int`. */
  function Widened(s: seq<Byte>): Word
    requires AccessSize(|s|)
  {
    if |s| == 4 then DecodeWord(s) else if |s| == 2 then FromShort(s[0], s[1]) else FromChar(s[0])
  }

  function ReadValue(m: Memory, addr: Address, size: nat): Result<Word>
    requires MemoryOk(m) && AccessSize(size)
  {
    match ReadBytes(m, addr, size)
    case Raised(e) => Raised(e)
    case Ok(s) => Ok(Widened(s))
  }

  /** An access of four bytes is a word access. */
  lemma WordAccess(m: Memory, addr: Address)
    requires MemoryOk(m)
    ensures ReadValue(m, addr, 4) == ReadWord(m, addr)
    ensures m.(table := Touched(m, addr, 4, false)) == AfterRead(m, addr) && MemoryOk(AfterRead(m, addr))
    ensures forall w: Word :: AfterStore(m, addr, EncodeWord(w)[..4]) == AfterWrite(m, addr, w)
  {
    hide Translate, Touched, DecodeWord, EncodeWord;
    forall w: Word ensures AfterStore(m, addr, EncodeWord(w)[..4]) == AfterWrite(m, addr, w) {
      assert EncodeWord(w)[..4] == EncodeWord(w);
    }
  }

  /** What a load makes of the value read. */
  function Extended(op: LoadOp, value: Word): Word {
    match op
    case LB => if Sign8(value) then Ones8(value) else Low8(value)
    case LBU => Low8(value)
    case LH => if Sign16(value) then Ones16(value) else Low16(value)
    case LHU => Low16(value)
    case LW => value
  }

  /** The byte that fills the register above those read: copies of the sign, or zeros. */
  function Filler(op: LoadOp, s: seq<Byte>): Byte
    requires s != []
  {
    if (op == LB || op == LH) && ByteSign(s[|s| - 1]) then 0xff else 0
  }

  /** The register's bytes: those read, the lowest first, and the filler above. */
  function Filled(op: LoadOp, s: seq<Byte>): (t: seq<Byte>)
    requires 0 < |s| <= 4
    ensures |t| == 4
  {
    s + seq(4 - |s|, _ => Filler(op, s))
  }

  lemma CharSign(b: Byte)
    ensures Sign8(FromChar(b)) == ByteSign(b)
  {
  }

  lemma CharBytes(b: Byte)
    ensures EncodeWord(Low8(FromChar(b))) == [b, 0, 0, 0] && EncodeWord(Ones8(FromChar(b))) == [b, 0xff, 0xff, 0xff]
  {
  }

  lemma ShortSign(b0: Byte, b1: Byte)
    ensures Sign16(FromShort(b0, b1)) == ByteSign(b1)
  {
  }

  lemma ShortBytes(b0: Byte, b1: Byte)
    ensures EncodeWord(Low16(FromShort(b0, b1))) == [b0, b1, 0, 0]
    ensures EncodeWord(Ones16(FromShort(b0, b1))) == [b0, b1, 0xff, 0xff]
  {
  }

  /** Each load delivers the bytes read, extended by their sign or by zeros, though a `char` arrives
      extended already. */
  lemma LoadedValue(op: LoadOp, s: seq<Byte>)
    requires |s| == LoadSize(op)
    ensures EncodeWord(Extended(op, Widened(s))) == Filled(op, s)
  {
    hide EncodeWord, DecodeWord, ByteSign, Sign8, Sign16, Low8, Low16, Ones8, Ones16, FromChar, FromShort;
    if |s| == 4 {
      BytesRoundTrip(s);
      assert Filled(op, s) == s;
    } else if |s| == 2 {
      ShortSign(s[0], s[1]);
      ShortBytes(s[0], s[1]);
      assert Filled(op, s) == [s[0], s[1], Filler(op, s), Filler(op, s)];
    } else {
      CharSign(s[0]);
      CharBytes(s[0]);
      assert Filled(op, s) == [s[0], Filler(op, s), Filler(op, s), Filler(op, s)];
    }
  }

  function ExecuteLoad(c: Cpu, op: LoadOp, rt: Register, addr: Address): (r: (Cpu, bool))
    requires CpuOk(c)
    ensures CpuOk(r.0)
  {
    match ReadValue(c.mem, addr, LoadSize(op))
    case Raised(_) => (Raise(c, addr), false)
    case Ok(value) =>
      var m := c.mem.(table := Touched(c.mem, addr, LoadSize(op), false));
      (DelayedLoad(c.(mem := m), rt, Extended(op, value)), true)
  }

  function ExecuteStore(c: Cpu, op: StoreOp, rt: Register, addr: Address): (r: (Cpu, bool))
    requires CpuOk(c)
    ensures CpuOk(r.0)
  {
    var bytes := EncodeWord(c.registers[rt])[..StoreSize(op)];
    if Translate(c.mem, addr, StoreSize(op), true).Ok? then
      AfterStoreFacts(c.mem, addr, bytes);
      (DelayedLoad(c.(mem := AfterStore(c.mem, addr, bytes)), 0, 0), true)
    else (Raise(c, addr), false)
  }

  /** What was stored is there to be read. */
  lemma StoredIsRead(m: Memory, addr: Address, bytes: seq<Byte>)
    requires MemoryOk(m) && AccessSize(|bytes|) && Translate(m, addr, |bytes|, true).Ok?
    ensures var m' := AfterStore(m, addr, bytes); MemoryOk(m') && ReadBytes(m', addr, |bytes|) == Ok(bytes)
  {
    hide Translate, AfterStore, SameTranslation;
    AfterStoreFacts(m, addr, bytes);
    WritableIsReadable(m, addr, |bytes|);
    SameTranslationSame(m, AfterStore(m, addr, bytes), addr, |bytes|, false);
  }

  /** A load of what a store of the same size left at an address always goes through, and delivers the low bytes of
      the register stored, extended by their sign or by zeros. */
  lemma StoreThenLoadAligned(c: Cpu, store: StoreOp, load: LoadOp, rt: Register, rt': Register, addr: Address)
    requires CpuOk(c) && rt' != 0 && StoreSize(store) == LoadSize(load)
    ensures var (c1, ok1) := ExecuteStore(c, store, rt, addr);
      var (c2, ok2) := ExecuteLoad(c1, load, rt', addr);
      ok1 ==> ok2 && EncodeWord(Flush(c2).registers[rt']) == Filled(load, EncodeWord(c.registers[rt])[..StoreSize(store)])
  {
    hide Translate, AfterStore, Touched, EncodeWord, Extended, Widened, Filled, ReadBytes;
    var bytes := EncodeWord(c.registers[rt])[..StoreSize(store)];
    if ExecuteStore(c, store, rt, addr).1 {
      StoredIsRead(c.mem, addr, bytes);
      LoadedValue(load, bytes);
    }
  }

  /** An access that is not aligned to its size raises an address error, in whatever page. */
  lemma MisalignedFaults(c: Cpu, addr: Address, rt: Register)
    requires CpuOk(c)
    ensures addr % 2 != 0 ==>
      !ExecuteLoad(c, LH, rt, addr).1 && !ExecuteLoad(c, LHU, rt, addr).1 && !ExecuteStore(c, SH, rt, addr).1
    ensures addr % 4 != 0 ==> !ExecuteLoad(c, LW, rt, addr).1 && !ExecuteStore(c, SW, rt, addr).1
  {
  }
}

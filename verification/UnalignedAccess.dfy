/** The four instructions for words at any address, with the delayed-load slot between a load and its register. */
module UnalignedAccess {
  import opened Bytes
  import opened WordLanes
  import opened VirtualMemory
  import opened Remainders

  type Register = r: nat | r < 32

  /** The general registers, the load that has not reached its register yet, memory, and the last bad address. */
  datatype Cpu = Cpu(registers: seq<Word>, loadReg: Register, loadValue: Word, mem: Memory, badVAddr: Address)

  ghost predicate CpuOk(c: Cpu) {
    |c.registers| == 32 && c.registers[0] == 0 && MemoryOk(c.mem)
  }

  /** The pending load reaches its register, and another takes its place; register 0 stays zero. */
  function DelayedLoad(c: Cpu, nextReg: Register, nextValue: Word): Cpu
    requires |c.registers| == 32
  {
    c.(registers := c.registers[c.loadReg as nat := c.loadValue][0 := 0], loadReg := nextReg, loadValue := nextValue)
  }

  /** What an exception or an interrupt does to the processor before the kernel runs. */
  function Flush(c: Cpu): Cpu
    requires |c.registers| == 32
  {
    DelayedLoad(c, 0, 0)
  }

  function Raise(c: Cpu, badVAddr: Address): Cpu
    requires |c.registers| == 32
  {
    Flush(c.(badVAddr := badVAddr))
  }

  /** The value a load merges with: a load pending for the same register is seen at once. */
  function Forwarded(c: Cpu, rt: Register): Word
    requires |c.registers| == 32
  {
    if c.loadReg == rt then c.loadValue else c.registers[rt]
  }

  datatype Instruction = LWL | LWR | SWL | SWR

  /** One instruction at effective address `addr`, and the exception it raises, if any. */
  function Execute(c: Cpu, op: Instruction, rt: Register, addr: Address): (r: (Cpu, bool))
    requires CpuOk(c)
    ensures CpuOk(r.0)
  {
    var byte := addr % 4;
    var word := addr - byte;
    match ReadWord(c.mem, word)
    case Raised(_) => (Raise(c, word), false)
    case Ok(value) =>
      var c' := c.(mem := AfterRead(c.mem, word));
      match op
      case LWL => (DelayedLoad(c', rt, LoadLeft(Forwarded(c', rt), value, byte)), true)
      case LWR => (DelayedLoad(c', rt, LoadRight(Forwarded(c', rt), value, byte)), true)
      case SWL => Store(c', word, StoreLeft(value, c'.registers[rt], byte))
      case SWR => Store(c', word, StoreRight(value, c'.registers[rt], byte))
  }

  function Store(c: Cpu, word: Address, value: Word): (r: (Cpu, bool))
    requires CpuOk(c) && word % 4 == 0
    ensures CpuOk(r.0)
  {
    if Translate(c.mem, word, 4, true).Ok? then
      AfterStoreFacts(c.mem, word, EncodeWord(value));
      (DelayedLoad(c.(mem := AfterWrite(c.mem, word, value)), 0, 0), true)
    else (Raise(c, word), false)
  }

  /** `n` bytes further on, with the wrap-around of 32-bit addresses. */
  function Plus(addr: Address, n: nat): Address { (addr + n) % 0x1_0000_0000 }

  /** The little-endian word that starts at any address, if all of its bytes are mapped. */
  ghost predicate HoldsWord(m: Memory, addr: Address, w: Word)
    requires MemoryOk(m)
  {
    forall k :: 0 <= k < 4 ==> VirtualByte(m, Plus(addr, k)) == Ok(EncodeWord(w)[k])
  }

  /** The aligned word that an address lies in, and its place there. */
  function WordOf(addr: Address): Address { addr - addr % 4 }

  /** The word at `addr` begins in one aligned word, at place `byte`, and unless that is 0 it ends in the next. */
  lemma TwoWords(addr: Address) returns (byte: nat, first: Address, second: Address)
    ensures byte == addr % 4 < 4 && first == WordOf(addr) && second == WordOf(Plus(addr, 3))
    ensures first % 4 == 0 && second % 4 == 0
    ensures Plus(addr, 3) % 4 == if byte == 0 then 3 else byte - 1
    ensures second == if byte == 0 then first else Plus(first, 4)
    ensures ByteSplit(addr, byte, first, second)
  {
    hide Plus, WordOf;
    var q := addr / 4;
    byte, first, second := addr % 4, 4 * q, if addr % 4 == 0 then 4 * q else if q == 0x3FFF_FFFF then 0 else 4 * (q + 1);
    forall k: nat | k < 4 ensures Plus(addr, k) == if byte + k < 4 then first + (byte + k) else second + (byte + k - 4) {
      PlaceOf(q, byte, k);
    }
    PlaceOf(q, byte, 3);
    PlaceOf(q, 0, 4);
    WordOfPlace(first, byte);
    WordOfPlace(second, if byte == 0 then 3 else byte - 1);
  }

  lemma PlaceOf(q: nat, byte: nat, k: nat)
    requires q <= 0x3FFF_FFFF && byte < 4 && k <= 4
    ensures byte + k < 4 ==> Plus(4 * q + byte, k) == 4 * q + (byte + k)
    ensures byte + k >= 4 ==> Plus(4 * q + byte, k) == (if q == 0x3FFF_FFFF then 0 else 4 * (q + 1)) + (byte + k - 4)
  {
  }

  lemma WordOfPlace(word: nat, byte: nat)
    requires word % 4 == 0 && byte < 4 && word + byte < 0x1_0000_0000
    ensures WordOf(word + byte) == word && (word + byte) % 4 == byte
  {
  }

  /** Which of the two words each byte lies in. */
  ghost predicate ByteSplit(addr: Address, byte: nat, first: Address, second: Address) {
    forall k: nat :: k < 4 ==> Plus(addr, k) == if byte + k < 4 then first + (byte + k) else second + (byte + k - 4)
  }

  /** The bytes of a word of which the lowest come from one word, from place `byte` on, and the rest from another. */
  function Joined(v0: Word, v1: Word, byte: nat): seq<Byte>
    requires byte < 4
  {
    if byte == 0 then EncodeWord(v0) else EncodeWord(v0)[byte..] + EncodeWord(v1)[..byte]
  }

  lemma JoinedAt(v0: Word, v1: Word, byte: nat, k: nat)
    requires byte < 4 && k < 4
    ensures |Joined(v0, v1, byte)| == 4
    ensures Joined(v0, v1, byte)[k] == if byte + k < 4 then EncodeWord(v0)[byte + k] else EncodeWord(v1)[byte + k - 4]
  {
    hide EncodeWord;
  }

  /** The two halves of an unaligned word, put together. */
  lemma LoadedBytes(next: Word, v0: Word, v1: Word, byte: nat)
    requires byte < 4 && (byte == 0 ==> v1 == v0)
    ensures EncodeWord(LoadLeft(LoadRight(next, v0, byte), v1, if byte == 0 then 3 else byte - 1)) == Joined(v0, v1, byte)
  {
    var left := if byte == 0 then 3 else byte - 1;
    LoadRightBytes(next, v0, byte);
    LoadLeftBytes(LoadRight(next, v0, byte), v1, left);
    hide EncodeWord, LoadLeft, LoadRight;
  }

  /** What is read does not depend on the use and dirty bits. */
  lemma SameRead(m: Memory, m': Memory, word: Address)
    requires MemoryOk(m) && m'.bytes == m.bytes && SameTranslation(m, m')
    ensures ReadWord(m', word) == ReadWord(m, word)
  {
    SameTranslationSame(m, m', word, 4, false);
  }

  lemma AfterReadSame(m: Memory, word: Address)
    ensures SameTranslation(m, AfterRead(m, word)) && AfterRead(m, word).bytes == m.bytes
  {
    TouchKeepsTranslation(m, word, 4, false);
  }

  lemma SameTranslationTrans(a: Memory, b: Memory, c: Memory)
    requires SameTranslation(a, b) && SameTranslation(b, c)
    ensures SameTranslation(a, c)
  {
  }

  /** The bytes at an address come from the two words around it. */
  lemma HoldsTwoWords(m: Memory, addr: Address, byte: nat, first: Address, second: Address, w: Word)
    requires MemoryOk(m) && byte < 4 && first % 4 == 0 && second % 4 == 0 && ByteSplit(addr, byte, first, second)
    requires ReadWord(m, first).Ok? && ReadWord(m, second).Ok?
    requires EncodeWord(w) == Joined(ReadWord(m, first).value, ReadWord(m, second).value, byte)
    ensures HoldsWord(m, addr, w)
  {
    hide ReadWord, EncodeWord, VirtualByte, Plus, Joined;
    forall k: nat | k < 4 ensures VirtualByte(m, Plus(addr, k)) == Ok(EncodeWord(w)[k]) {
      JoinedAt(ReadWord(m, first).value, ReadWord(m, second).value, byte, k);
      if byte + k < 4 {
        ReadWordByte(m, first, byte + k);
      } else {
        ReadWordByte(m, second, byte + k - 4);
      }
    }
  }

  /** What one of the loads does if it does not fault. */
  lemma LoadStep(c: Cpu, op: Instruction, rt: Register, addr: Address)
    requires CpuOk(c) && (op == LWL || op == LWR)
    ensures var (c', ok) := Execute(c, op, rt, addr);
      && (ok <==> ReadWord(c.mem, WordOf(addr)).Ok?)
      && (ok ==>
        var value := ReadWord(c.mem, WordOf(addr)).value;
        && c'.loadReg == rt && c'.registers == Flush(c).registers
        && c'.loadValue == (if op == LWL then LoadLeft(Forwarded(c, rt), value, addr % 4)
              else LoadRight(Forwarded(c, rt), value, addr % 4)))
      && c'.mem.bytes == c.mem.bytes && SameTranslation(c.mem, c'.mem)
  {
    AfterReadSame(c.mem, WordOf(addr));
    hide ReadWord, LoadLeft, LoadRight, AfterRead;
  }

  /** LWR at A and then LWL at A+3 load the word at A, little-endian and for any alignment, whether or not an
      exception or interrupt comes between them; nothing else changes. */
  lemma LoadPair(c: Cpu, rt: Register, addr: Address, flush: bool)
    requires CpuOk(c) && rt != 0
    ensures var (c1, ok1) := Execute(c, LWR, rt, addr);
      var (c3, ok3) := Execute(if flush then Flush(c1) else c1, LWL, rt, Plus(addr, 3));
      ok1 && ok3 ==>
        && c3.loadReg == rt && HoldsWord(c.mem, addr, c3.loadValue)
        && Flush(c3).registers == Flush(c).registers[rt as nat := c3.loadValue]
        && c3.mem.bytes == c.mem.bytes && SameTranslation(c.mem, c3.mem)
  {
    hide Execute, Plus, WordOf, ReadWord, EncodeWord, LoadLeft, LoadRight, Joined, SameTranslation, HoldsWord,
         ByteSplit, MemoryOk;
    var (c1, ok1) := Execute(c, LWR, rt, addr);
    var c2 := if flush then Flush(c1) else c1;
    var (c3, ok3) := Execute(c2, LWL, rt, Plus(addr, 3));
    LoadStep(c, LWR, rt, addr);
    LoadStep(c2, LWL, rt, Plus(addr, 3));
    if ok1 && ok3 {
      assert Forwarded(c2, rt) == c1.loadValue;
      LoadedWord(c.mem, c2.mem, addr, Forwarded(c, rt), c3.loadValue);
      SameTranslationTrans(c.mem, c2.mem, c3.mem);
    }
  }

  /** LWR's result, merged with what LWL reads, is the word. */
  lemma LoadedWord(m: Memory, m': Memory, addr: Address, next: Word, w: Word)
    requires MemoryOk(m) && m'.bytes == m.bytes && SameTranslation(m, m')
    requires ReadWord(m, WordOf(addr)).Ok? && ReadWord(m', WordOf(Plus(addr, 3))).Ok?
    requires
      var v0, v1 := ReadWord(m, WordOf(addr)).value, ReadWord(m', WordOf(Plus(addr, 3))).value;
      w == LoadLeft(LoadRight(next, v0, addr % 4), v1, Plus(addr, 3) % 4)
    ensures HoldsWord(m, addr, w)
  {
    var byte, first, second := TwoWords(addr);
    SameRead(m, m', second);
    hide Plus, WordOf, ReadWord, EncodeWord, LoadLeft, LoadRight, Joined, SameTranslation, HoldsWord, ByteSplit;
    LoadedBytes(next, ReadWord(m, first).value, ReadWord(m, second).value, byte);
    HoldsTwoWords(m, addr, byte, first, second, w);
  }

  /** The pair runs through exactly if every byte of the word can be read. */
  lemma LoadPairRuns(c: Cpu, rt: Register, addr: Address, flush: bool)
    requires CpuOk(c)
    ensures var (c1, ok1) := Execute(c, LWR, rt, addr);
      ok1 && Execute(if flush then Flush(c1) else c1, LWL, rt, Plus(addr, 3)).1 <==>
      forall k: nat :: k < 4 ==> VirtualByte(c.mem, Plus(addr, k)).Ok?
  {
    var c1 := Execute(c, LWR, rt, addr).0;
    var c2 := if flush then Flush(c1) else c1;
    LoadStep(c, LWR, rt, addr);
    LoadStep(c2, LWL, rt, Plus(addr, 3));
    hide Execute, LoadLeft, LoadRight, MemoryOk;
    var byte, first, second := TwoWords(addr);
    SameRead(c.mem, c2.mem, second);
    BytesReadable(c.mem, addr, byte, first, second);
  }

  lemma BytesReadable(m: Memory, addr: Address, byte: nat, first: Address, second: Address)
    requires MemoryOk(m) && byte < 4 && first % 4 == 0 && second % 4 == 0 && ByteSplit(addr, byte, first, second)
    requires byte == 0 ==> second == first
    ensures ReadWord(m, first).Ok? && ReadWord(m, second).Ok? <==>
      forall k: nat :: k < 4 ==> VirtualByte(m, Plus(addr, k)).Ok?
  {
    hide Plus, EncodeWord, DecodeWord, Translate;
    forall k: nat | k < 4
      ensures VirtualByte(m, Plus(addr, k)).Ok? == if byte + k < 4 then ReadWord(m, first).Ok? else ReadWord(m, second).Ok?
    {
      if byte + k < 4 {
        WithinPage(m, first, 4, false, byte + k);
      } else {
        WithinPage(m, second, 4, false, byte + k - 4);
      }
    }
    assert VirtualByte(m, Plus(addr, 0)).Ok? == ReadWord(m, first).Ok?;
    assert byte > 0 ==> VirtualByte(m, Plus(addr, 3)).Ok? == ReadWord(m, second).Ok?;
  }

  function Merged(op: Instruction, value: Word, register: Word, byte: nat): Word
    requires byte < 4
  {
    if op == SWL then StoreLeft(value, register, byte) else StoreRight(value, register, byte)
  }

  /** What one of the stores does if it does not fault. */
  lemma StoreStep(c: Cpu, op: Instruction, rt: Register, addr: Address)
    requires CpuOk(c) && (op == SWL || op == SWR)
    ensures var (c', ok) := Execute(c, op, rt, addr);
      && (ok <==> Translate(c.mem, WordOf(addr), 4, true).Ok?)
      && (ok ==> c'.registers == Flush(c).registers && c'.loadReg == 0 && ReadWord(c.mem, WordOf(addr)).Ok?)
      && (ok ==> StoredTo(c.mem, c'.mem, WordOf(addr),
           Merged(op, ReadWord(c.mem, WordOf(addr)).value, c.registers[rt], addr % 4)))
  {
    var first := WordOf(addr);
    hide Execute, StoreLeft, StoreRight, AfterRead, AfterWrite, SameTranslation, StoredTo, DecodeWord, EncodeWord,
         Merged, WordOf;
    StoreCase(c, op, rt, addr);
    if Translate(c.mem, first, 4, true).Ok? {
      WritableIsReadable(c.mem, first, 4);
      StoredAfterRead(c.mem, first, Merged(op, ReadWord(c.mem, first).value, c.registers[rt], addr % 4));
    }
    hide Translate;
    AfterReadSame(c.mem, first);
    SameTranslationSame(c.mem, AfterRead(c.mem, first), first, 4, true);
  }

  lemma StoreCase(c: Cpu, op: Instruction, rt: Register, addr: Address)
    requires CpuOk(c) && (op == SWL || op == SWR)
    ensures WordOf(addr) % 4 == 0
    ensures ReadWord(c.mem, WordOf(addr)).Raised? ==> !Execute(c, op, rt, addr).1
    ensures ReadWord(c.mem, WordOf(addr)).Ok? ==>
      Execute(c, op, rt, addr) ==
      Store(c.(mem := AfterRead(c.mem, WordOf(addr))), WordOf(addr),
            Merged(op, ReadWord(c.mem, WordOf(addr)).value, c.registers[rt], addr % 4))
  {
    hide ReadWord, Store, StoreLeft, StoreRight, AfterRead;
  }

  /** A word was written, and no translation changed. */
  ghost predicate StoredTo(m: Memory, m': Memory, word: Address, w: Word)
    requires MemoryOk(m)
  {
    MemoryOk(m') && SameTranslation(m, m') && m'.bytes == AfterWrite(m, word, w).bytes
  }

  lemma StoredAfterRead(m: Memory, word: Address, w: Word)
    requires MemoryOk(m) && word % 4 == 0 && Translate(m, word, 4, true).Ok?
    ensures MemoryOk(AfterRead(m, word)) && StoredTo(m, AfterWrite(AfterRead(m, word), word, w), word, w)
  {
    var m1 := AfterRead(m, word);
    AfterReadSame(m, word);
    SameTranslationSame(m, m1, word, 4, true);
    AfterStoreFacts(m, word, EncodeWord(w));
    AfterStoreFacts(m1, word, EncodeWord(w));
    SameTranslationTrans(m, m1, AfterWrite(m1, word, w));
    hide AfterRead, AfterWrite, SameTranslation, Translate, EncodeWord;
  }

  /** The bytes of a word after a store into it, and all other bytes. */
  lemma StoredByte(m: Memory, m': Memory, word: Address, w: Word, b: Address)
    requires MemoryOk(m) && word % 4 == 0 && Translate(m, word, 4, true).Ok? && StoredTo(m, m', word, w)
    ensures word <= b < word + 4 ==> VirtualByte(m', b) == Ok(EncodeWord(w)[b - word])
    ensures !(word <= b < word + 4) && (Injective(m) || OtherPlace(word, b)) ==> VirtualByte(m', b) == VirtualByte(m, b)
  {
    StoreBytes(m, word, EncodeWord(w), b);
    SameTranslationSame(m, m', b, 1, false);
    SameTranslationSame(m, AfterWrite(m, word, w), b, 1, false);
    hide Translate, AfterWrite, SameTranslation, EncodeWord, Injective, OtherPlace;
  }

  lemma StoreRightAt(value: Word, register: Word, byte: nat, k: nat)
    requires byte < 4 && k < 4
    ensures EncodeWord(StoreRight(value, register, byte))[k] ==
      if k < byte then EncodeWord(value)[k] else EncodeWord(register)[k - byte]
  {
    hide *;
    StoreRightBytes(value, register, byte);
  }

  lemma StoreLeftAt(value: Word, register: Word, byte: nat, k: nat)
    requires byte < 4 && k < 4
    ensures EncodeWord(StoreLeft(value, register, byte))[k] ==
      if k <= byte then EncodeWord(register)[3 - byte + k] else EncodeWord(value)[k]
  {
    hide *;
    StoreLeftBytes(value, register, byte);
  }

  /** SWR changes the bytes of its word from its own place on. */
  lemma StoreRightEffect(m: Memory, m': Memory, word: Address, byte: nat, register: Word, b: Address)
    requires MemoryOk(m) && word % 4 == 0 && byte < 4 && Translate(m, word, 4, true).Ok? && ReadWord(m, word).Ok?
    requires StoredTo(m, m', word, StoreRight(ReadWord(m, word).value, register, byte))
    ensures word + byte <= b < word + 4 ==> VirtualByte(m', b) == Ok(EncodeWord(register)[b - (word + byte)])
    ensures word <= b < word + byte ==> VirtualByte(m', b) == VirtualByte(m, b)
    ensures !(word <= b < word + 4) && (Injective(m) || OtherPlace(word, b)) ==> VirtualByte(m', b) == VirtualByte(m, b)
  {
    hide Translate, StoreRight, EncodeWord, ReadWord, Injective, OtherPlace, VirtualByte, StoredTo;
    var value := ReadWord(m, word).value;
    StoredByte(m, m', word, StoreRight(value, register, byte), b);
    if word <= b < word + 4 {
      StoreRightAt(value, register, byte, b - word);
      ReadWordByte(m, word, b - word);
    }
  }

  /** SWL changes the bytes of its word up to its own place. */
  lemma StoreLeftEffect(m: Memory, m': Memory, word: Address, byte: nat, register: Word, b: Address)
    requires MemoryOk(m) && word % 4 == 0 && byte < 4 && Translate(m, word, 4, true).Ok? && ReadWord(m, word).Ok?
    requires StoredTo(m, m', word, StoreLeft(ReadWord(m, word).value, register, byte))
    ensures word <= b <= word + byte ==> VirtualByte(m', b) == Ok(EncodeWord(register)[3 - byte + (b - word)])
    ensures word + byte < b < word + 4 ==> VirtualByte(m', b) == VirtualByte(m, b)
    ensures !(word <= b < word + 4) && (Injective(m) || OtherPlace(word, b)) ==> VirtualByte(m', b) == VirtualByte(m, b)
  {
    hide Translate, StoreLeft, EncodeWord, ReadWord, Injective, OtherPlace, VirtualByte, StoredTo;
    var value := ReadWord(m, word).value;
    StoredByte(m, m', word, StoreLeft(value, register, byte), b);
    if word <= b < word + 4 {
      StoreLeftAt(value, register, byte, b - word);
      ReadWordByte(m, word, b - word);
    }
  }

  ghost predicate InWord(addr: Address, b: Address) { exists k: nat :: k < 4 && b == Plus(addr, k) }

  /** Byte `k` of what the pair stores: SWR, which comes first, reads the register as `low`, SWL as `high`. */
  function PairByte(low: Word, high: Word, byte: nat, k: nat): Byte
    requires byte < 4 && k < 4
  {
    if byte == 0 || byte + k >= 4 then EncodeWord(high)[k] else EncodeWord(low)[k]
  }

  /** A byte of the word after the pair of stores. */
  lemma StoredPairInside(m: Memory, m1: Memory, m2: Memory, addr: Address, byte: nat, first: Address, second: Address,
                         low: Word, high: Word, k: nat)
    requires MemoryOk(m) && byte < 4 && first % 4 == 0 && second % 4 == 0 && ByteSplit(addr, byte, first, second)
    requires second == (if byte == 0 then first else Plus(first, 4))
    requires Translate(m, first, 4, true).Ok? && ReadWord(m, first).Ok?
    requires StoredTo(m, m1, first, StoreRight(ReadWord(m, first).value, low, byte))
    requires Translate(m1, second, 4, true).Ok? && ReadWord(m1, second).Ok?
    requires StoredTo(m1, m2, second, StoreLeft(ReadWord(m1, second).value, high, if byte == 0 then 3 else byte - 1))
    requires k < 4
    ensures VirtualByte(m2, Plus(addr, k)) == Ok(PairByte(low, high, byte, k))
  {
    hide Plus, Translate, StoreLeft, StoreRight, EncodeWord, ReadWord, Injective, OtherPlace, VirtualByte, InWord,
         SameTranslation, AfterWrite;
    assert MemoryOk(m1) && SameTranslation(m, m1);
    hide StoredTo, MemoryOk;
    var b := Plus(addr, k);
    var left := if byte == 0 then 3 else byte - 1;
    if byte == 0 {
      StoreLeftEffect(m1, m2, second, left, high, b);
    } else if byte + k < 4 {
      StoreRightEffect(m, m1, first, byte, low, b);
      NextWordApart(first, b);
      OtherWord(second, b);
      StoreLeftEffect(m1, m2, second, left, high, b);
    } else {
      StoreLeftEffect(m1, m2, second, left, high, b);
    }
  }

  /** Any other byte. */
  lemma StoredPairOutside(m: Memory, m1: Memory, m2: Memory, addr: Address, byte: nat, first: Address, second: Address,
                          low: Word, high: Word, b: Address)
    requires MemoryOk(m) && byte < 4 && first % 4 == 0 && second % 4 == 0 && ByteSplit(addr, byte, first, second)
    requires second == (if byte == 0 then first else Plus(first, 4))
    requires Translate(m, first, 4, true).Ok? && ReadWord(m, first).Ok?
    requires StoredTo(m, m1, first, StoreRight(ReadWord(m, first).value, low, byte))
    requires Translate(m1, second, 4, true).Ok? && ReadWord(m1, second).Ok?
    requires StoredTo(m1, m2, second, StoreLeft(ReadWord(m1, second).value, high, if byte == 0 then 3 else byte - 1))
    requires !InWord(addr, b) && Injective(m)
    ensures VirtualByte(m2, b) == VirtualByte(m, b)
  {
    hide Plus, Translate, StoreLeft, StoreRight, EncodeWord, ReadWord, Injective, OtherPlace, VirtualByte, InWord,
         SameTranslation, AfterWrite;
    assert MemoryOk(m1) && SameTranslation(m, m1);
    hide StoredTo, MemoryOk;
    StoreRightEffect(m, m1, first, byte, low, b);
    StoreLeftEffect(m1, m2, second, if byte == 0 then 3 else byte - 1, high, b);
    SameTranslationInjective(m, m1);
    OutsideWord(addr, byte, first, second, b);
  }

  lemma OtherWord(word: Address, b: Address)
    requires word % 4 == 0 && OtherPlace(word, b)
    ensures !(word <= b < word + 4)
  {
    if word <= b < word + 4 {
      var page, place := word / PAGE_SIZE, word / 4 - 32 * (word / PAGE_SIZE);
      PlaceInPage(page, place, 0);
      PlaceInPage(page, place, b - word);
    }
  }

  lemma NextWordApart(first: Address, b: Address)
    requires first % 4 == 0
    ensures first <= b < first + 4 ==> OtherPlace(Plus(first, 4), b)
  {
    if first <= b < first + 4 {
      var page, place := first / PAGE_SIZE, first / 4 - 32 * (first / PAGE_SIZE);
      PlaceInPage(page, place, b - first);
      if place < 31 {
        PlaceInPage(page, place + 1, 0);
        assert Plus(first, 4) == PAGE_SIZE * page + 4 * (place + 1);
      } else if page == 0x1FF_FFFF {
        assert Plus(first, 4) == 0;
      } else {
        PlaceInPage(page + 1, 0, 0);
        assert Plus(first, 4) == PAGE_SIZE * (page + 1);
      }
    }
  }

  lemma PlaceInPage(page: nat, place: nat, byte: nat)
    requires place < 32 && byte < 4
    ensures (PAGE_SIZE * page + (4 * place + byte)) % PAGE_SIZE / 4 == place
  {
    assert (PAGE_SIZE * page + (4 * place + byte)) % PAGE_SIZE == 4 * place + byte;
  }

  lemma SameTranslationInjective(m: Memory, m1: Memory)
    requires MemoryOk(m) && SameTranslation(m, m1)
    ensures Injective(m) ==> Injective(m1)
  {
    forall a: Address ensures Translate(m1, a, 1, false) == Translate(m, a, 1, false) {
      SameTranslationSame(m, m1, a, 1, false);
    }
    hide Translate, SameTranslation;
  }

  /** A byte outside the unaligned word is outside both stores' ranges. */
  lemma OutsideWord(addr: Address, byte: nat, first: Address, second: Address, b: Address)
    requires byte < 4 && ByteSplit(addr, byte, first, second)
    ensures !InWord(addr, b) ==> !(first + byte <= b < first + 4) && !(byte > 0 && second <= b < second + byte)
  {
    hide Plus;
    if first + byte <= b < first + 4 {
      assert Plus(addr, b - (first + byte)) == b;
    }
    if byte > 0 && second <= b < second + byte {
      assert Plus(addr, b - second + (4 - byte)) == b;
    }
  }

  /** The bytes that SWL stores are the same in both values of the register. */
  ghost predicate SameStored(low: Word, high: Word, byte: nat)
    requires byte < 4
  {
    forall k: nat :: k < 4 ==> PairByte(low, high, byte, k) == EncodeWord(low)[k]
  }

  /** No load is on its way to the register that would change a byte which SWL stores: any byte if the address is
      aligned, otherwise those that lie in the second word. */
  ghost predicate Undisturbed(c: Cpu, rt: Register, byte: nat)
    requires |c.registers| == 32
  {
    rt == 0 || c.loadReg != rt ||
    forall k: nat :: k < 4 && (byte == 0 || byte + k >= 4) ==> EncodeWord(c.loadValue)[k] == EncodeWord(c.registers[rt])[k]
  }

  lemma UndisturbedStores(c: Cpu, rt: Register, byte: nat)
    requires CpuOk(c) && byte < 4
    ensures Undisturbed(c, rt, byte) <==> SameStored(c.registers[rt], Flush(c).registers[rt], byte)
  {
    hide EncodeWord;
    var high := Flush(c).registers[rt];
    assert high == if rt != 0 && c.loadReg == rt then c.loadValue else c.registers[rt];
    if SameStored(c.registers[rt], high, byte) {
      forall k: nat | k < 4 && (byte == 0 || byte + k >= 4) ensures EncodeWord(high)[k] == EncodeWord(c.registers[rt])[k] {
        assert PairByte(c.registers[rt], high, byte, k) == EncodeWord(c.registers[rt])[k];
      }
    }
  }

  /** SWR at A and then SWL at A+3 store the register at A, little-endian and for any alignment, whether or not an
      exception or interrupt comes in between; exactly if no load of other bytes was on its way to the register,
      since the stores do not look at the delayed load. If no two pages share a frame no other byte changes. */
  lemma StorePair(c: Cpu, rt: Register, addr: Address, flush: bool, b: Address)
    requires CpuOk(c)
    ensures var (c1, ok1) := Execute(c, SWR, rt, addr);
      var (c3, ok3) := Execute(if flush then Flush(c1) else c1, SWL, rt, Plus(addr, 3));
      ok1 && ok3 ==>
        && (HoldsWord(c3.mem, addr, c.registers[rt]) <==> Undisturbed(c, rt, addr % 4))
        && (!InWord(addr, b) && Injective(c.mem) ==> VirtualByte(c3.mem, b) == VirtualByte(c.mem, b))
        && Flush(c3).registers == Flush(c).registers && SameTranslation(c.mem, c3.mem)
  {
    hide Execute, Plus, WordOf, Translate, EncodeWord, ReadWord, Injective, VirtualByte, StoredTo, InWord,
         SameTranslation,
      HoldsWord, MemoryOk, Merged, SameStored, Undisturbed;
    UndisturbedStores(c, rt, addr % 4);
    var (c1, ok1) := Execute(c, SWR, rt, addr);
    var c2 := if flush then Flush(c1) else c1;
    var (c3, ok3) := Execute(c2, SWL, rt, Plus(addr, 3));
    StoreStep(c, SWR, rt, addr);
    StoreStep(c2, SWL, rt, Plus(addr, 3));
    if ok1 && ok3 {
      assert c2.registers == Flush(c).registers && c2.mem == c1.mem;
      StoredPair(c.mem, c1.mem, c3.mem, addr, c.registers[rt], c2.registers[rt], b);
    }
  }

  lemma StoredPair(m: Memory, m1: Memory, m2: Memory, addr: Address, low: Word, high: Word, b: Address)
    requires MemoryOk(m) && Translate(m, WordOf(addr), 4, true).Ok? && ReadWord(m, WordOf(addr)).Ok?
    requires StoredTo(m, m1, WordOf(addr), Merged(SWR, ReadWord(m, WordOf(addr)).value, low, addr % 4))
    requires MemoryOk(m1)
    requires var second := WordOf(Plus(addr, 3));
      && Translate(m1, second, 4, true).Ok? && ReadWord(m1, second).Ok?
      && StoredTo(m1, m2, second, Merged(SWL, ReadWord(m1, second).value, high, Plus(addr, 3) % 4))
    ensures MemoryOk(m2) && SameTranslation(m, m2)
    ensures HoldsWord(m2, addr, low) <==> SameStored(low, high, addr % 4)
    ensures !InWord(addr, b) && Injective(m) ==> VirtualByte(m2, b) == VirtualByte(m, b)
  {
    var byte, first, second := TwoWords(addr);
    hide Plus, WordOf, Translate, EncodeWord, ReadWord, Injective, VirtualByte, InWord, SameTranslation, ByteSplit,
      StoreLeft, StoreRight, AfterWrite, PairByte;
    SameTranslationTrans(m, m1, m2);
    hide StoredTo;
    forall k: nat | k < 4 ensures VirtualByte(m2, Plus(addr, k)) == Ok(PairByte(low, high, byte, k)) {
      StoredPairInside(m, m1, m2, addr, byte, first, second, low, high, k);
    }
    HoldsPair(m2, addr, low, high, byte);
    if !InWord(addr, b) && Injective(m) {
      StoredPairOutside(m, m1, m2, addr, byte, first, second, low, high, b);
    }
  }

  lemma HoldsPair(m: Memory, addr: Address, low: Word, high: Word, byte: nat)
    requires MemoryOk(m) && byte < 4
    requires forall k: nat :: k < 4 ==> VirtualByte(m, Plus(addr, k)) == Ok(PairByte(low, high, byte, k))
    ensures HoldsWord(m, addr, low) <==> SameStored(low, high, byte)
  {
    hide EncodeWord, PairByte, VirtualByte, Plus;
    if HoldsWord(m, addr, low) {
      forall k: nat | k < 4 ensures PairByte(low, high, byte, k) == EncodeWord(low)[k] {
        assert VirtualByte(m, Plus(addr, k)) == Ok(EncodeWord(low)[k]);
      }
    }
  }

  /** A word stored at any address and loaded from there is the same word, exactly if the store was undisturbed. */
  lemma StoreThenLoad(c: Cpu, rt: Register, rt': Register, addr: Address, flush: bool, flush': bool)
    requires CpuOk(c) && rt' != 0
    ensures var (c1, ok1) := Execute(c, SWR, rt, addr);
      var (c3, ok3) := Execute(if flush then Flush(c1) else c1, SWL, rt, Plus(addr, 3));
      var (c4, ok4) := Execute(c3, LWR, rt', addr);
      var (c6, ok6) := Execute(if flush' then Flush(c4) else c4, LWL, rt', Plus(addr, 3));
      ok1 && ok3 && ok4 && ok6 ==> (Flush(c6).registers[rt'] == c.registers[rt] <==> Undisturbed(c, rt, addr % 4))
  {
    hide Execute, Plus, HoldsWord, SameTranslation, Injective, VirtualByte, InWord, Undisturbed, MemoryOk;
    var c1 := Execute(c, SWR, rt, addr).0;
    var c3 := Execute(if flush then Flush(c1) else c1, SWL, rt, Plus(addr, 3)).0;
    var c4 := Execute(c3, LWR, rt', addr).0;
    var c6 := Execute(if flush' then Flush(c4) else c4, LWL, rt', Plus(addr, 3)).0;
    StorePair(c, rt, addr, flush, 0);
    LoadPair(c3, rt', addr, flush');
    OneWord(c3.mem, addr, c.registers[rt], c6.loadValue);
  }

  lemma OneWord(m: Memory, addr: Address, v: Word, w: Word)
    requires MemoryOk(m)
    ensures HoldsWord(m, addr, v) && HoldsWord(m, addr, w) ==> v == w
  {
    if HoldsWord(m, addr, v) && HoldsWord(m, addr, w) {
      forall k | 0 <= k < 4 ensures EncodeWord(v)[k] == EncodeWord(w)[k] {
        assert VirtualByte(m, Plus(addr, k)) == Ok(EncodeWord(v)[k]);
      }
      assert EncodeWord(v) == EncodeWord(w);
      WordRoundTrip(v);
      WordRoundTrip(w);
    }
  }

  /** The address an instruction names: the base register plus a constant. */
  function Effective(c: Cpu, rs: Register, extra: Address): Address
    requires |c.registers| == 32
  {
    (DecodeNat(EncodeWord(c.registers[rs])) + extra) % 0x1_0000_0000
  }

  /** The two instructions of a pair name the same base. It keeps its value, unless it is the loaded register itself
      and the load is flushed in between, exactly if no load of another value was on its way to it. */
  lemma BaseStays(c: Cpu, op: Instruction, rs: Register, rt: Register, extra: Address, flush: bool)
    requires CpuOk(c) && (rs == 0 || rt != rs || !flush || op == SWL || op == SWR)
    ensures var (c1, ok1) := Execute(c, op, rt, Effective(c, rs, extra));
      ok1 ==>
        (Effective(if flush then Flush(c1) else c1, rs, Plus(extra, 3)) == Plus(Effective(c, rs, extra), 3) <==>
         rs == 0 || c.loadReg != rs || c.loadValue == c.registers[rs])
  {
    hide Execute, Effective, Plus, Flush, MemoryOk;
    RegisterAfter(c, op, rs, rt, Effective(c, rs, extra), flush);
    var (c1, ok1) := Execute(c, op, rt, Effective(c, rs, extra));
    SameBase(c, if flush then Flush(c1) else c1, rs, extra);
  }

  /** What a register other than the loaded one holds after an instruction of a pair. */
  lemma RegisterAfter(c: Cpu, op: Instruction, rs: Register, rt: Register, addr: Address, flush: bool)
    requires CpuOk(c) && (rs == 0 || rt != rs || !flush || op == SWL || op == SWR)
    ensures var (c1, ok1) := Execute(c, op, rt, addr);
      var c2 := if flush then Flush(c1) else c1;
      && |c1.registers| == |c2.registers| == 32
      && (ok1 ==> c2.registers[rs] == if rs != 0 && c.loadReg == rs then c.loadValue else c.registers[rs])
  {
    hide Execute, EncodeWord, LoadLeft, LoadRight, Merged, StoredTo, ReadWord, Translate, SameTranslation, WordOf,
         MemoryOk;
    if op == LWL || op == LWR {
      LoadStep(c, op, rt, addr);
    } else {
      StoreStep(c, op, rt, addr);
    }
  }

  lemma SameBase(c: Cpu, c': Cpu, rs: Register, extra: Address)
    requires |c.registers| == |c'.registers| == 32
    ensures Effective(c', rs, Plus(extra, 3)) == Plus(Effective(c, rs, extra), 3) <==> c'.registers[rs] == c.registers[rs]
  {
    hide EncodeWord, DecodeNat, Plus;
    NumberOfWord(c.registers[rs], c'.registers[rs]);
    EffectiveIsSum(c, rs, extra);
    EffectiveIsSum(c', rs, Plus(extra, 3));
    hide Effective;
    SumsDiffer(DecodeNat(EncodeWord(c.registers[rs])), DecodeNat(EncodeWord(c'.registers[rs])), extra);
  }

  lemma EffectiveIsSum(c: Cpu, rs: Register, extra: Address)
    requires |c.registers| == 32 && DecodeNat(EncodeWord(c.registers[rs])) < 0x1_0000_0000
    ensures Effective(c, rs, extra) == Plus(DecodeNat(EncodeWord(c.registers[rs])), extra)
  {
    hide EncodeWord, DecodeNat;
  }

  /** A register's number tells its value. */
  lemma NumberOfWord(v: Word, w: Word)
    ensures DecodeNat(EncodeWord(v)) < 0x1_0000_0000 && DecodeNat(EncodeWord(w)) < 0x1_0000_0000
    ensures DecodeNat(EncodeWord(v)) == DecodeNat(EncodeWord(w)) <==> v == w
  {
    WordRoundTrip(v);
    WordRoundTrip(w);
    hide EncodeWord, DecodeWord, DecodeNat;
    DecodeBelow(EncodeWord(v));
    DecodeBelow(EncodeWord(w));
    if DecodeNat(EncodeWord(v)) == DecodeNat(EncodeWord(w)) {
      DecodeInjective(EncodeWord(v), EncodeWord(w));
    }
  }

  lemma SumsDiffer(x: Address, y: Address, e: Address)
    ensures Plus(y, Plus(e, 3)) == Plus(Plus(x, e), 3) <==> x == y
  {
    AddWraps(x, e, 3);
    SameSums(x, y, Plus(e, 3));
    hide Plus;
  }

  lemma SameSums(x: Address, y: Address, e: Address)
    ensures Plus(x, e) == Plus(y, e) <==> x == y
  {
  }

  lemma AddWraps(x: nat, y: nat, z: nat)
    ensures (x + (y + z) % 0x1_0000_0000) % 0x1_0000_0000 == ((x + y) % 0x1_0000_0000 + z) % 0x1_0000_0000
  {
    var p, q := (y + z) / 0x1_0000_0000, (x + y) / 0x1_0000_0000;
    var r, t := x + (y + z) % 0x1_0000_0000, (x + y) % 0x1_0000_0000 + z;
    assert x + y + z == r + p * 0x1_0000_0000 && x + y + z == t + q * 0x1_0000_0000;
    AddMultiple(r, 0x1_0000_0000, p);
    AddMultiple(t, 0x1_0000_0000, q);
  }

  /** A processor about to load 0x01010101 into register 1, with one page mapped. */
  function HazardousCpu(): Cpu {
    Cpu(seq(32, _ => 0), 1, 0x0101_0101,
        Memory(false, [TranslationEntry(0, 0, true, false, false, false)], seq(MEMORY_SIZE, _ => 0)), 0)
  }

  lemma HazardousCpuOk()
    ensures var c := HazardousCpu();
      && CpuOk(c) && c.loadReg == 1 && c.registers[1] == 0 && c.loadValue == 0x0101_0101
      && Translate(c.mem, 0, 4, true) == Translate(c.mem, 0, 4, false) == Ok(0)
  {
  }

  lemma StoreKeepsTranslation(m: Memory, m': Memory, word: Address, w: Word)
    requires MemoryOk(m) && StoredTo(m, m', word, w)
    ensures SameTranslation(m, m')
  {
  }

  lemma TranslatedIsRead(m: Memory, word: Address)
    requires MemoryOk(m) && Translate(m, word, 4, false).Ok?
    ensures ReadWord(m, word).Ok?
  {
  }

  lemma AddressesInFirstWord()
    ensures Plus(0, 3) == 3 && WordOf(0) == 0 && WordOf(3) == 0
  {
  }

  lemma ByteToCome(c: Cpu, rt: Register)
    requires |c.registers| == 32 && rt != 0 && c.loadReg == rt && c.loadValue != c.registers[rt]
    ensures !Undisturbed(c, rt, 0)
  {
    WordRoundTrip(c.loadValue);
    WordRoundTrip(c.registers[rt]);
    hide EncodeWord, DecodeWord;
    assert EncodeWord(c.loadValue) != EncodeWord(c.registers[rt]);
  }

  lemma ZeroBytes()
    ensures EncodeWord(0) == [0, 0, 0, 0]
  {
  }

  lemma NumberOfZeroBytes()
    ensures DecodeNat([0, 0, 0, 0]) == 0
  {
  }

  lemma ZeroBase(c: Cpu, rs: Register)
    requires |c.registers| == 32 && c.registers[rs] == 0
    ensures Effective(c, rs, 0) == 0
  {
    hide EncodeWord, DecodeNat;
    ZeroBytes();
    NumberOfZeroBytes();
  }

  /** The pair of stores completes, and what it stored is not the register. */
  lemma StoreHazard()
    ensures var c := HazardousCpu();
      && CpuOk(c)
      && var (c1, ok1) := Execute(c, SWR, 1, 0);
         var (c3, ok3) := Execute(c1, SWL, 1, 3);
         ok1 && ok3 && !HoldsWord(c3.mem, 0, c.registers[1])
  {
    hide *;
    var c := HazardousCpu();
    HazardousCpuOk();
    AddressesInFirstWord();
    ByteToCome(c, 1);
    var c1 := Execute(c, SWR, 1, 0).0;
    StoreStep(c, SWR, 1, 0);
    StoreKeepsTranslation(c.mem, c1.mem, 0, Merged(SWR, ReadWord(c.mem, 0).value, c.registers[1], 0));
    SameTranslationSame(c.mem, c1.mem, 0, 4, true);
    StoreStep(c1, SWL, 1, 3);
    StorePair(c, 1, 0, false, 0);
  }

  /** The second address of a pair of loads is not three bytes after the first. */
  lemma BaseHazard()
    ensures var c := HazardousCpu();
      && CpuOk(c)
      && var (c1, ok1) := Execute(c, LWR, 2, Effective(c, 1, 0));
         ok1 && Effective(c1, 1, 3) != Plus(Effective(c, 1, 0), 3)
  {
    hide *;
    var c := HazardousCpu();
    HazardousCpuOk();
    AddressesInFirstWord();
    ZeroBase(c, 1);
    TranslatedIsRead(c.mem, 0);
    LoadStep(c, LWR, 2, 0);
    BaseStays(c, LWR, 1, 2, 0, false);
  }
}

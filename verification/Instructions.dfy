/** All the loads and stores together: what a single one changes, when a loaded value arrives, and what no run of them
    can do. */
module Instructions {
  import opened Bytes
  import opened WordLanes
  import opened VirtualMemory
  import opened UnalignedAccess
  import opened AlignedAccess

  datatype AccessOp = Load(load: LoadOp) | Store(store: StoreOp) | Word(part: Instruction)

  predicate IsLoad(op: AccessOp) { op.Load? || (op.Word? && (op.part == LWL || op.part == LWR)) }

  /** One load or store at effective address `addr`, and whether it completes. */
  function Perform(c: Cpu, op: AccessOp, rt: Register, addr: Address): (r: (Cpu, bool))
    requires CpuOk(c)
    ensures CpuOk(r.0)
  {
    match op
    case Load(load) => ExecuteLoad(c, load, rt, addr)
    case Store(store) => ExecuteStore(c, store, rt, addr)
    case Word(part) => Execute(c, part, rt, addr)
  }

  /** The address and size of the access made to memory. */
  function AccessedAt(op: AccessOp, addr: Address): Address { if op.Word? then addr - addr % 4 else addr }

  function AccessedSize(op: AccessOp): nat {
    match op
    case Load(load) => LoadSize(load)
    case Store(store) => StoreSize(store)
    case Word(_) => 4
  }

  /** Register `r` holds its old value, or that of the load pending to it; register 0 holds zero. */
  ghost predicate PendingArrived(c: Cpu, c': Cpu, r: Register)
    requires CpuOk(c) && CpuOk(c')
  {
    c'.registers[r] == if r == 0 then 0 else if r == c.loadReg then c.loadValue else c.registers[r]
  }

  /** What every load and store does to the registers, completed or not: the pending load reaches its register and
      nothing else changes there. It completes exactly if its access translates; a load that completes is the one
      pending afterwards. If it does not complete, nothing is pending, and the address is recorded. Loads, and
      what does not complete, leave the bytes of memory as they were. */
  ghost predicate InStep(c: Cpu, c': Cpu, ok: bool, load: bool, rt: Register, addr: Address)
    requires CpuOk(c) && CpuOk(c')
  {
    && (forall r: Register :: PendingArrived(c, c', r))
    && c'.loadReg == (if ok && load then rt else 0)
    && c'.badVAddr == (if ok then c.badVAddr else addr)
    && (!ok || load ==> c'.mem.bytes == c.mem.bytes)
  }

  lemma LoadEffect(c: Cpu, op: LoadOp, rt: Register, addr: Address)
    requires CpuOk(c)
    ensures var (c', ok) := ExecuteLoad(c, op, rt, addr);
      && InStep(c, c', ok, true, rt, addr) && (ok <==> Translate(c.mem, addr, LoadSize(op), false).Ok?)
      && (ok ==> c'.loadValue == Extended(op, Widened(ReadBytes(c.mem, addr, LoadSize(op)).value)))
  {
    hide Translate, Extended, Widened, Touched;
  }

  lemma StoreEffect(c: Cpu, op: StoreOp, rt: Register, addr: Address)
    requires CpuOk(c)
    ensures var (c', ok) := ExecuteStore(c, op, rt, addr);
      && InStep(c, c', ok, false, rt, addr) && (ok <==> Translate(c.mem, addr, StoreSize(op), true).Ok?)
      && c'.mem == AfterStore(c.mem, addr, EncodeWord(c.registers[rt])[..StoreSize(op)])
  {
    hide EncodeWord, Touched;
  }

  lemma WordLoadEffect(c: Cpu, op: Instruction, rt: Register, addr: Address)
    requires CpuOk(c) && (op == LWL || op == LWR)
    ensures var (c', ok) := Execute(c, op, rt, addr);
      && InStep(c, c', ok, true, rt, WordOf(addr)) && (ok <==> Translate(c.mem, WordOf(addr), 4, false).Ok?)
  {
    hide Translate, LoadLeft, LoadRight, Touched, DecodeWord;
  }

  /** The read that comes first cannot fail where the write would not. */
  lemma WordStoreEffect(c: Cpu, op: Instruction, rt: Register, addr: Address)
    requires CpuOk(c) && (op == SWL || op == SWR)
    ensures var (c', ok) := Execute(c, op, rt, addr);
      && InStep(c, c', ok, false, rt, WordOf(addr)) && (ok <==> Translate(c.mem, WordOf(addr), 4, true).Ok?)
  {
    StoreStep(c, op, rt, addr);
    hide Translate, ReadWord, StoreLeft, StoreRight, AfterRead, AfterWrite, EncodeWord, StoredTo;
  }

  lemma EveryEffect(c: Cpu, op: AccessOp, rt: Register, addr: Address)
    requires CpuOk(c)
    ensures var (c', ok) := Perform(c, op, rt, addr);
      && InStep(c, c', ok, IsLoad(op), rt, AccessedAt(op, addr))
      && (ok <==> Translate(c.mem, AccessedAt(op, addr), AccessedSize(op), !IsLoad(op)).Ok?)
  {
    match op
    case Load(load) => LoadEffect(c, load, rt, addr);
    case Store(store) => StoreEffect(c, store, rt, addr);
    case Word(part) => if IsLoad(op) { WordLoadEffect(c, part, rt, addr); } else { WordStoreEffect(c, part, rt, addr); }
  }

  /** A loaded value is in its register after the next load or store, whatever that is, or after the next exception or
      interrupt; until then the register is the one from before, up to an earlier load to it. */
  lemma LoadArrives(c: Cpu, op: LoadOp, rt: Register, addr: Address, next: AccessOp, rt': Register, addr': Address)
    requires CpuOk(c) && rt != 0 && Translate(c.mem, addr, LoadSize(op), false).Ok?
    ensures var c1 := ExecuteLoad(c, op, rt, addr).0;
      && PendingArrived(c, c1, rt)
      && EncodeWord(Perform(c1, next, rt', addr').0.registers[rt])
         == Filled(op, ReadBytes(c.mem, addr, LoadSize(op)).value)
      && Flush(c1).registers[rt] == Perform(c1, next, rt', addr').0.registers[rt]
  {
    assert ReadBytes(c.mem, addr, LoadSize(op)).Ok?;
    hide Translate, Perform, ExecuteLoad, EncodeWord, Extended, Widened, Filled, ReadBytes;
    var c1 := ExecuteLoad(c, op, rt, addr).0;
    LoadEffect(c, op, rt, addr);
    EveryEffect(c1, next, rt', addr');
    assert PendingArrived(c1, Perform(c1, next, rt', addr').0, rt);
    LoadedValue(op, ReadBytes(c.mem, addr, LoadSize(op)).value);
  }

  /** A store that completes puts the low byte, the two low bytes or all bytes of its register at its address, and leaves
      every other byte alone that does not share its frame. */
  lemma StoreChanges(c: Cpu, op: StoreOp, rt: Register, addr: Address, b: Address)
    requires CpuOk(c) && ExecuteStore(c, op, rt, addr).1
    ensures var m, m', n := c.mem, ExecuteStore(c, op, rt, addr).0.mem, match op case SB => 1 case SH => 2 case SW => 4;
      && (addr <= b < addr + n ==> VirtualByte(m', b) == Ok(EncodeWord(c.registers[rt])[b - addr]))
      && (!(addr <= b < addr + n) && (Injective(m) || OtherPlace(addr, b)) ==> VirtualByte(m', b) == VirtualByte(m, b))
  {
    StoreEffect(c, op, rt, addr);
    hide EncodeWord, Translate, AfterStore, Injective, OtherPlace, ExecuteStore;
    StoreBytes(c.mem, addr, EncodeWord(c.registers[rt])[..StoreSize(op)], b);
  }

  /** The translations are the same, and the bytes are too, or are those after storing some bytes somewhere. */
  ghost predicate MemStep(m: Memory, m': Memory, addr: Address, bytes: seq<Byte>)
    requires MemoryOk(m)
  {
    AccessSize(|bytes|) && SameTranslation(m, m') && (m'.bytes == m.bytes || m'.bytes == AfterStore(m, addr, bytes).bytes)
  }

  lemma MemStepOfLoad(c: Cpu, op: LoadOp, rt: Register, addr: Address)
    requires CpuOk(c)
    ensures MemStep(c.mem, ExecuteLoad(c, op, rt, addr).0.mem, 0, [0])
  {
    TouchKeepsTranslation(c.mem, addr, LoadSize(op), false);
    hide Translate, ReadValue, Extended, Touched;
  }

  lemma StoringIsMemStep(m: Memory, addr: Address, bytes: seq<Byte>)
    requires MemoryOk(m) && AccessSize(|bytes|)
    ensures MemStep(m, AfterStore(m, addr, bytes), addr, bytes)
  {
    if Translate(m, addr, |bytes|, true).Ok? {
      AfterStoreFacts(m, addr, bytes);
      hide Translate, AfterStore;
    }
  }

  lemma MemStepOfStore(c: Cpu, op: StoreOp, rt: Register, addr: Address)
    requires CpuOk(c)
    ensures MemStep(c.mem, ExecuteStore(c, op, rt, addr).0.mem, addr, EncodeWord(c.registers[rt])[..StoreSize(op)])
  {
    hide EncodeWord, AfterStore, ExecuteStore;
    StoreEffect(c, op, rt, addr);
    var bytes := EncodeWord(c.registers[rt])[..StoreSize(op)];
    StoringIsMemStep(c.mem, addr, bytes);
    var m' := ExecuteStore(c, op, rt, addr).0.mem;
    assert AccessSize(|bytes|) && m' == AfterStore(c.mem, addr, bytes);
    assert MemStep(c.mem, m', addr, bytes);
  }

  lemma MemStepOfWord(c: Cpu, op: Instruction, rt: Register, addr: Address) returns (w: Word)
    requires CpuOk(c)
    ensures MemStep(c.mem, Execute(c, op, rt, addr).0.mem, WordOf(addr), EncodeWord(w))
  {
    hide Execute, Translate, EncodeWord, AfterRead, AfterStore, ReadWord, SameTranslation;
    var m' := Execute(c, op, rt, addr).0.mem;
    AfterReadSame(c.mem, WordOf(addr));
    w := 0;
    if op == LWL || op == LWR {
      LoadStep(c, op, rt, addr);
    } else if Execute(c, op, rt, addr).1 {
      StoreStep(c, op, rt, addr);
      w := Merged(op, ReadWord(c.mem, WordOf(addr)).value, c.registers[rt], addr % 4);
      assert m'.bytes == AfterStore(c.mem, WordOf(addr), EncodeWord(w)).bytes;
    } else {
      NotStored(c, op, rt, addr);
    }
    assert SameTranslation(c.mem, m') && AccessSize(|EncodeWord(w)|);
    assert MemStep(c.mem, m', WordOf(addr), EncodeWord(w));
  }

  lemma NotStored(c: Cpu, op: Instruction, rt: Register, addr: Address)
    requires CpuOk(c) && (op == SWL || op == SWR) && !Execute(c, op, rt, addr).1
    ensures var m' := Execute(c, op, rt, addr).0.mem; SameTranslation(c.mem, m') && m'.bytes == c.mem.bytes
  {
    AfterReadSame(c.mem, WordOf(addr));
    hide Translate, DecodeWord, EncodeWord, StoreLeft, StoreRight, AfterRead, AfterWrite, ReadWord;
  }

  lemma EveryMemStep(c: Cpu, op: AccessOp, rt: Register, addr: Address) returns (at: Address, bytes: seq<Byte>)
    requires CpuOk(c)
    ensures MemStep(c.mem, Perform(c, op, rt, addr).0.mem, at, bytes)
  {
    hide MemStep, EncodeWord, ExecuteLoad, ExecuteStore, Execute;
    match op
    case Load(load) =>
      MemStepOfLoad(c, load, rt, addr);
      at, bytes := 0, [0];
    case Store(store) =>
      MemStepOfStore(c, store, rt, addr);
      at, bytes := addr, EncodeWord(c.registers[rt])[..StoreSize(store)];
    case Word(part) =>
      var w := MemStepOfWord(c, part, rt, addr);
      at, bytes := WordOf(addr), EncodeWord(w);
  }

  /** No load or store changes a byte of a frame that is mapped only read-only. */
  lemma SparesReadOnly(c: Cpu, op: AccessOp, rt: Register, addr: Address, p: nat)
    requires CpuOk(c) && p < MEMORY_SIZE && OnlyReadOnly(c.mem, p / PAGE_SIZE)
    ensures var m' := Perform(c, op, rt, addr).0.mem; m'.bytes[p] == c.mem.bytes[p] && OnlyReadOnly(m', p / PAGE_SIZE)
  {
    hide Perform, SameTranslation, OnlyReadOnly, AfterStore;
    var at, bytes := EveryMemStep(c, op, rt, addr);
    StoreSparesReadOnly(c.mem, at, bytes, p);
    SameReadOnly(c.mem, Perform(c, op, rt, addr).0.mem, p / PAGE_SIZE);
  }

  /** A load or store, or an exception or interrupt that flushes the pending load. */
  ghost predicate CpuStep(c: Cpu, c': Cpu)
    requires CpuOk(c)
  {
    c' == Flush(c) || exists op, rt, addr :: c' == Perform(c, op, rt, addr).0
  }

  ghost predicate CpuRun(run: seq<Cpu>) {
    && run != [] && (forall i :: 0 <= i < |run| ==> CpuOk(run[i]))
    && forall i :: 0 <= i < |run| - 1 ==> CpuStep(run[i], run[i + 1])
  }

  /** However long a program runs with the same translation table, the bytes of a frame that is mapped only read-only
      stay what they were. */
  lemma {:induction false} ReadOnlyFramesStay(run: seq<Cpu>, i: nat, p: nat)
    requires CpuRun(run) && i < |run| && p < MEMORY_SIZE && OnlyReadOnly(run[0].mem, p / PAGE_SIZE)
    ensures run[i].mem.bytes[p] == run[0].mem.bytes[p] && OnlyReadOnly(run[i].mem, p / PAGE_SIZE)
  {
    hide Perform, OnlyReadOnly;
    if i > 0 {
      ReadOnlyFramesStay(run, i - 1, p);
      var c, c' := run[i - 1], run[i - 1 + 1];
      if c' != Flush(c) {
        var op, rt, addr :| c' == Perform(c, op, rt, addr).0;
        SparesReadOnly(c, op, rt, addr, p);
      }
    }
  }
}

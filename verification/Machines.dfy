/** The simulated machine's fields, and the loops and updates by which it translates, reads, writes and executes. */
module Machines {
  import opened Bytes
  import opened WordLanes
  import opened VirtualMemory
  import opened UnalignedAccess
  import opened AlignedAccess

  class Machine {
    const isTlb: bool
    const registers: array<Word>
    const mainMemory: array<Byte>
    const table: array<TranslationEntry>
    var loadReg: Register
    var loadValue: Word
    var badVAddr: Address

    ghost function Mem(): Memory
      reads table, mainMemory
    {
      Memory(isTlb, table[..], mainMemory[..])
    }

    ghost function State(): Cpu
      reads this, registers, table, mainMemory
    {
      Cpu(registers[..], loadReg, loadValue, Mem(), badVAddr)
    }

    ghost predicate Valid()
      reads this, registers, table, mainMemory
    {
      && CpuOk(State())
      && registers as object != mainMemory && registers as object != table && mainMemory as object != table
    }

    constructor (isTlb: bool, table: array<TranslationEntry>)
      ensures Valid() && fresh(registers) && fresh(mainMemory) && this.table == table && this.isTlb == isTlb
      ensures loadReg == 0 && forall r :: 0 <= r < 32 ==> registers[r] == 0
    {
      this.isTlb, this.table := isTlb, table;
      registers := new Word[32](i => 0);
      mainMemory := new Byte[MEMORY_SIZE](i => 0);
      loadReg, loadValue, badVAddr := 0, 0, 0;
    }

    /** The search through the TLB. */
    method FindInTlb(vpn: nat) returns (i: nat)
      ensures i == FirstMatch(table[..], vpn)
    {
      i := 0;
      while i < table.Length
        invariant i <= table.Length
        invariant forall j :: 0 <= j < i ==> !(table[j].valid && table[j].virtualPage == vpn)
      {
        if table[i].valid && table[i].virtualPage == vpn {
          break;
        }
        i := i + 1;
      }
      FirstMatchIs(table[..], vpn, i);
    }

    method TranslateAddress(virtAddr: Address, size: nat, writing: bool) returns (physAddr: Result<nat>)
      modifies table
      ensures physAddr == Translate(old(Mem()), virtAddr, size, writing)
      ensures table[..] == Touched(old(Mem()), virtAddr, size, writing)
    {
      if (size == 4 && virtAddr % 4 != 0) || (size == 2 && virtAddr % 2 != 0) {
        return Raised(AddressErrorException);
      }
      var vpn, offset := virtAddr / PAGE_SIZE, virtAddr % PAGE_SIZE;
      var i := vpn;
      if !isTlb {
        if vpn >= table.Length {
          return Raised(AddressErrorException);
        } else if !table[vpn].valid {
          return Raised(PageFaultException);
        }
      } else {
        i := FindInTlb(vpn);
        if i == table.Length {
          return Raised(PageFaultException);
        }
      }
      var entry := table[i];
      if entry.readOnly && writing {
        return Raised(ReadOnlyException);
      }
      if entry.physicalPage >= NUM_PHYS_PAGES {
        return Raised(BusErrorException);
      }
      table[i] := entry.(use := true, dirty := entry.dirty || writing);
      physAddr := Ok(entry.physicalPage * PAGE_SIZE + offset);
    }

    method DelayLoad(nextReg: Register, nextValue: Word)
      requires Valid()
      modifies this`loadReg, this`loadValue, registers
      ensures Valid() && State() == DelayedLoad(old(State()), nextReg, nextValue)
    {
      registers[loadReg] := loadValue;
      loadReg, loadValue := nextReg, nextValue;
      registers[0] := 0;
      assert registers[..] == old(registers[..])[old(loadReg) as nat := old(loadValue)][0 := 0];
    }

    /** The part of RaiseException that concerns the machine; the kernel's handler runs after it. */
    method RaiseException(badVAddr: Address)
      requires Valid()
      modifies this, registers
      ensures Valid() && State() == Raise(old(State()), badVAddr)
    {
      this.badVAddr := badVAddr;
      DelayLoad(0, 0);
    }

    method ReadMem(addr: Address, size: nat) returns (read: Result<Word>)
      requires Valid() && AccessSize(size)
      modifies this, registers, table
      ensures Valid() && read == ReadValue(old(Mem()), addr, size)
      ensures State() == if read.Ok? then old(State()).(mem := old(Mem()).(table := Touched(old(Mem()), addr, size, false)))
                         else Raise(old(State()), addr)
    {
      var physicalAddress := TranslateAddress(addr, size, false);
      if physicalAddress.Raised? {
        RaiseException(addr);
        return Raised(physicalAddress.exception);
      }
      InMemory(old(Mem()), addr, size, false);
      hide Translate, Touched, Widened;
      var p := physicalAddress.value;
      read := Ok(Widened(mainMemory[p..p + size]));
    }

    method WriteMem(addr: Address, size: nat, value: Word) returns (ok: bool)
      requires Valid() && AccessSize(size)
      modifies this, registers, table, mainMemory
      ensures Valid() && ok == Translate(old(Mem()), addr, size, true).Ok?
      ensures State() == if ok then old(State()).(mem := AfterStore(old(Mem()), addr, EncodeWord(value)[..size]))
                         else Raise(old(State()), addr)
    {
      var physicalAddress := TranslateAddress(addr, size, true);
      if physicalAddress.Raised? {
        RaiseException(addr);
        return false;
      }
      ok := true;
      InMemory(old(Mem()), addr, size, true);
      hide Translate, Touched, EncodeWord;
      var p, bytes := physicalAddress.value, EncodeWord(value)[..size];
      forall k | 0 <= k < size {
        mainMemory[p + k] := bytes[k];
      }
      assert mainMemory[..] == Splice(old(mainMemory[..]), p, bytes);
    }

    /** The cases LB, LBU, LH, LHU and LW of the instruction interpreter, up to the program counters. */
    method LoadAligned(op: LoadOp, rt: Register, tmp: Address) returns (completed: bool)
      requires Valid()
      modifies this, registers, table
      ensures Valid() && (State(), completed) == ExecuteLoad(old(State()), op, rt, tmp)
    {
      hide Touched, Widened, Extended, ReadBytes;
      if tmp % LoadSize(op) != 0 {
        MisalignedFaults(State(), tmp, rt);
        RaiseException(tmp);
        return false;
      }
      var value := ReadMem(tmp, LoadSize(op));
      if value.Raised? {
        return false;
      }
      DelayLoad(rt, Extended(op, value.value));
      completed := true;
    }

    /** The cases SB, SH and SW. */
    method StoreAligned(op: StoreOp, rt: Register, tmp: Address) returns (completed: bool)
      requires Valid()
      modifies this, registers, table, mainMemory
      ensures Valid() && (State(), completed) == ExecuteStore(old(State()), op, rt, tmp)
    {
      hide Translate, AfterStore, EncodeWord;
      completed := WriteMem(tmp, StoreSize(op), registers[rt]);
      if completed {
        DelayLoad(0, 0);
      }
    }

    /** The cases LWL, LWR, SWL and SWR of the instruction interpreter, up to the program counters. */
    method OneInstruction(op: Instruction, rt: Register, tmp: Address) returns (completed: bool)
      requires Valid()
      modifies this, registers, table, mainMemory
      ensures Valid() && (State(), completed) == Execute(old(State()), op, rt, tmp)
    {
      hide Translate, LoadLeft, LoadRight, StoreLeft, StoreRight, AfterRead, AfterWrite, AfterStore, ReadWord,
           ReadValue, EncodeWord;
      var byte := tmp % 4;
      WordAccess(Mem(), tmp - byte);
      WordAccess(AfterRead(Mem(), tmp - byte), tmp - byte);
      var value := ReadMem(tmp - byte, 4);
      if value.Raised? {
        return false;
      }
      var nextLoadReg: Register, nextLoadValue: Word := 0, 0;
      if op == LWL || op == LWR {
        nextLoadValue := if loadReg == rt then loadValue else registers[rt];
        nextLoadValue := if op == LWL then LoadLeft(nextLoadValue, value.value, byte)
          else LoadRight(nextLoadValue, value.value, byte);
        nextLoadReg := rt;
      } else {
        var word := if op == SWL then StoreLeft(value.value, registers[rt], byte)
          else StoreRight(value.value, registers[rt], byte);
        var written := WriteMem(tmp - byte, 4, word);
        if !written {
          return false;
        }
      }
      DelayLoad(nextLoadReg, nextLoadValue);
      completed := true;
    }
  }

  lemma {:induction false} FirstMatchIs(table: seq<TranslationEntry>, vpn: nat, i: nat)
    requires i <= |table| && forall j :: 0 <= j < i ==> !(table[j].valid && table[j].virtualPage == vpn)
    requires i < |table| ==> table[i].valid && table[i].virtualPage == vpn
    ensures FirstMatch(table, vpn) == i
  {
    if i > 0 {
      assert !(table[0].valid && table[0].virtualPage == vpn);
      FirstMatchIs(table[1..], vpn, i - 1);
    }
  }
}

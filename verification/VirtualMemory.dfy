/** Address translation through a page table or a TLB, and word access to memory. */
module VirtualMemory {
  import opened Bytes

  const PAGE_SIZE := 128
  const NUM_PHYS_PAGES := 128
  const MEMORY_SIZE := 16384

  type Address = a: nat | a < 0x1_0000_0000

  datatype Exception = PageFaultException | ReadOnlyException | BusErrorException | AddressErrorException

  datatype Result<T> = Ok(value: T) | Raised(exception: Exception)

  datatype TranslationEntry =
    TranslationEntry(virtualPage: int, physicalPage: nat, valid: bool, readOnly: bool, use: bool, dirty: bool)

  /** The translation table, either a TLB or a page table, and the bytes of main memory. */
  datatype Memory = Memory(isTlb: bool, table: seq<TranslationEntry>, bytes: seq<Byte>)

  /** The first valid TLB entry for a page, or the length of the table. */
  function FirstMatch(table: seq<TranslationEntry>, vpn: nat): (i: nat)
    ensures i <= |table|
    ensures i < |table| ==> table[i].valid && table[i].virtualPage == vpn
    ensures forall j :: 0 <= j < i ==> !(table[j].valid && table[j].virtualPage == vpn)
  {
    if table == [] || (table[0].valid && table[0].virtualPage == vpn) then 0 else 1 + FirstMatch(table[1..], vpn)
  }

  function FindEntry(m: Memory, vpn: nat): (r: Result<nat>)
    ensures r.Ok? ==> r.value < |m.table|
  {
    if m.isTlb then
      if FirstMatch(m.table, vpn) < |m.table| then Ok(FirstMatch(m.table, vpn)) else Raised(PageFaultException)
    else if vpn >= |m.table| then Raised(AddressErrorException)
    else if !m.table[vpn].valid then Raised(PageFaultException)
    else Ok(vpn)
  }

  /** The physical address of `size` bytes at a virtual one, or the exception raised. */
  function Translate(m: Memory, addr: Address, size: nat, writing: bool): Result<nat> {
    if (size == 4 && addr % 4 != 0) || (size == 2 && addr % 2 != 0) then Raised(AddressErrorException)
    else
      match FindEntry(m, addr / PAGE_SIZE)
      case Raised(e) => Raised(e)
      case Ok(i) =>
        if m.table[i].readOnly && writing then Raised(ReadOnlyException)
        else if m.table[i].physicalPage >= NUM_PHYS_PAGES then Raised(BusErrorException)
        else Ok(m.table[i].physicalPage * PAGE_SIZE + addr % PAGE_SIZE)
  }

  /** A successful translation marks the entry used, and dirty if it is for writing. */
  function Touched(m: Memory, addr: Address, size: nat, writing: bool): seq<TranslationEntry> {
    if Translate(m, addr, size, writing).Ok? then
      var i := FindEntry(m, addr / PAGE_SIZE).value;
      m.table[i := m.table[i].(use := true, dirty := m.table[i].dirty || writing)]
    else m.table
  }

  predicate Aligned(addr: Address, size: nat) {
    (size == 4 ==> addr % 4 == 0) && (size == 2 ==> addr % 2 == 0)
  }

  /** Entry `i` is the one for a page: in a page table the valid entry at the page's own index, in a TLB the first
      valid entry that names the page. */
  predicate IsEntryFor(m: Memory, vpn: nat, i: nat) {
    && i < |m.table| && m.table[i].valid
    && (if m.isTlb then
          && m.table[i].virtualPage == vpn
          && forall j :: 0 <= j < i ==> !(m.table[j].valid && m.table[j].virtualPage == vpn)
        else i == vpn)
  }

  /** The page has an entry. */
  ghost predicate HasEntry(m: Memory, vpn: nat) {
    exists i :: IsEntryFor(m, vpn, i)
  }

  lemma OneEntryFor(m: Memory, vpn: nat, i: nat)
    ensures IsEntryFor(m, vpn, i) <==> FindEntry(m, vpn) == Ok(i)
    ensures FindEntry(m, vpn).Raised? <==> !HasEntry(m, vpn)
  {
    if FindEntry(m, vpn).Ok? {
      assert IsEntryFor(m, vpn, FindEntry(m, vpn).value);
    }
  }

  /** An access translates exactly if it is aligned, its page has an entry, the entry is not read-only when writing,
      and its frame exists; the result is the place in the frame. Otherwise the first of these that fails says
      which exception is raised. */
  lemma TranslationOutcome(m: Memory, addr: Address, size: nat, writing: bool, i: nat)
    ensures var (r, vpn) := (Translate(m, addr, size, writing), addr / PAGE_SIZE);
      && (!Aligned(addr, size) ==> r == Raised(AddressErrorException))
      && (Aligned(addr, size) && !HasEntry(m, vpn) ==>
        r == Raised(if !m.isTlb && vpn >= |m.table| then AddressErrorException else PageFaultException))
      && (Aligned(addr, size) && IsEntryFor(m, vpn, i) ==>
        && (r == Raised(ReadOnlyException) <==> writing && m.table[i].readOnly)
        && (r == Raised(BusErrorException) <==> !(writing && m.table[i].readOnly) && m.table[i].physicalPage >= 128)
        && (r.Ok? <==> !(writing && m.table[i].readOnly) && m.table[i].physicalPage < 128)
        && (r.Ok? ==> r.value / 128 == m.table[i].physicalPage && r.value % 128 == addr % 128))
  {
    OneEntryFor(m, addr / PAGE_SIZE, i);
  }

  /** A successful translation marks its entry used, and dirty when writing; nothing else in the table changes, and
      after an exception nothing at all. */
  lemma TouchedExactly(m: Memory, addr: Address, size: nat, writing: bool, i: nat)
    ensures var (t, ok) := (Touched(m, addr, size, writing), Translate(m, addr, size, writing).Ok?);
      && |t| == |m.table|
      && (!ok || !IsEntryFor(m, addr / PAGE_SIZE, i) ==> i < |t| ==> t[i] == m.table[i])
      && (ok && IsEntryFor(m, addr / PAGE_SIZE, i) ==>
        && t[i].use && (t[i].dirty <==> writing || m.table[i].dirty)
        && t[i].(use := m.table[i].use, dirty := m.table[i].dirty) == m.table[i])
  {
    OneEntryFor(m, addr / PAGE_SIZE, i);
  }

  ghost predicate MemoryOk(m: Memory) { |m.bytes| == MEMORY_SIZE }

  /** An access is to a byte, a halfword or a word. */
  predicate AccessSize(size: nat) { size == 1 || size == 2 || size == 4 }

  /** A translated address lies in main memory, and so do the bytes after it. */
  lemma InMemory(m: Memory, addr: Address, size: nat, writing: bool)
    requires Translate(m, addr, size, writing).Ok? && AccessSize(size)
    ensures Translate(m, addr, size, writing).value + size <= MEMORY_SIZE
  {
    OffsetFits(addr, size);
    hide FindEntry;
  }

  lemma OffsetFits(addr: Address, size: nat)
    requires AccessSize(size) && Aligned(addr, size)
    ensures addr % PAGE_SIZE + size <= PAGE_SIZE
  {
    var page := addr / PAGE_SIZE;
    if size == 4 {
      assert addr % PAGE_SIZE == 4 * (addr / 4 - 32 * page);
    } else if size == 2 {
      assert addr % PAGE_SIZE == 2 * (addr / 2 - 64 * page);
    }
  }

  /** The bytes that an access of this size finds. */
  function ReadBytes(m: Memory, addr: Address, size: nat): (r: Result<seq<Byte>>)
    requires MemoryOk(m) && AccessSize(size)
    ensures r.Ok? ==> |r.value| == size
  {
    match Translate(m, addr, size, false)
    case Raised(e) => Raised(e)
    case Ok(p) =>
      InMemory(m, addr, size, false);
      Ok(m.bytes[p..p + size])
  }

  function ReadWord(m: Memory, addr: Address): Result<Word>
    requires MemoryOk(m)
  {
    match ReadBytes(m, addr, 4)
    case Raised(e) => Raised(e)
    case Ok(s) => Ok(DecodeWord(s))
  }

  function AfterRead(m: Memory, addr: Address): Memory {
    m.(table := Touched(m, addr, 4, false))
  }

  /** Memory after an access that stores these bytes, if it does not fault. */
  function AfterStore(m: Memory, addr: Address, bytes: seq<Byte>): Memory
    requires MemoryOk(m) && AccessSize(|bytes|)
  {
    match Translate(m, addr, |bytes|, true)
    case Raised(_) => m
    case Ok(p) =>
      InMemory(m, addr, |bytes|, true);
      m.(table := Touched(m, addr, |bytes|, true), bytes := Splice(m.bytes, p, bytes))
  }

  function AfterWrite(m: Memory, addr: Address, value: Word): Memory
    requires MemoryOk(m)
  {
    AfterStore(m, addr, EncodeWord(value))
  }

  /** Same translations, whatever the use and dirty bits say. */
  ghost predicate SameTranslation(m: Memory, m': Memory) {
    && m.isTlb == m'.isTlb && |m.table| == |m'.table|
    && forall i :: 0 <= i < |m.table| ==>
         m.table[i].(use := false, dirty := false) == m'.table[i].(use := false, dirty := false)
  }

  lemma TouchKeepsTranslation(m: Memory, addr: Address, size: nat, writing: bool)
    ensures SameTranslation(m, m.(table := Touched(m, addr, size, writing)))
  {
  }

  lemma {:induction false} FirstMatchSame(t: seq<TranslationEntry>, t': seq<TranslationEntry>, vpn: nat)
    requires |t| == |t'|
    requires forall i :: 0 <= i < |t| ==> t[i].valid == t'[i].valid && t[i].virtualPage == t'[i].virtualPage
    ensures FirstMatch(t, vpn) == FirstMatch(t', vpn)
  {
    if t != [] {
      FirstMatchSame(t[1..], t'[1..], vpn);
    }
  }

  lemma SameTranslationSame(m: Memory, m': Memory, addr: Address, size: nat, writing: bool)
    requires SameTranslation(m, m')
    ensures Translate(m, addr, size, writing) == Translate(m', addr, size, writing)
  {
    assert forall i :: 0 <= i < |m.table| ==>
      && m.table[i].valid == m'.table[i].valid && m.table[i].virtualPage == m'.table[i].virtualPage
      && m.table[i].physicalPage == m'.table[i].physicalPage && m.table[i].readOnly == m'.table[i].readOnly;
    FirstMatchSame(m.table, m'.table, addr / PAGE_SIZE);
  }

  /** The byte a program sees at a virtual address. */
  function VirtualByte(m: Memory, addr: Address): Result<Byte>
    requires MemoryOk(m)
  {
    match Translate(m, addr, 1, false)
    case Raised(e) => Raised(e)
    case Ok(p) =>
      InMemory(m, addr, 1, false);
      Ok(m.bytes[p])
  }

  /** No two pages share a frame. */
  ghost predicate Injective(m: Memory) {
    forall a: Address, b: Address ::
      Translate(m, a, 1, false).Ok? && Translate(m, a, 1, false) == Translate(m, b, 1, false) ==> a == b
  }

  /** An aligned access lies within a page: its bytes translate side by side. */
  lemma WithinPage(m: Memory, addr: Address, size: nat, writing: bool, k: nat)
    requires AccessSize(size) && Aligned(addr, size) && k < size
    ensures addr + k < 0x1_0000_0000
    ensures Translate(m, addr, size, writing).Ok? <==> Translate(m, addr + k, 1, writing).Ok?
    ensures Translate(m, addr, size, writing).Ok? ==>
      Translate(m, addr + k, 1, writing).value == Translate(m, addr, size, writing).value + k
  {
    OffsetFits(addr, size);
    assert (addr + k) / PAGE_SIZE == addr / PAGE_SIZE && (addr + k) % PAGE_SIZE == addr % PAGE_SIZE + k;
  }

  /** What can be written can be read. */
  lemma WritableIsReadable(m: Memory, addr: Address, size: nat)
    requires Translate(m, addr, size, true).Ok?
    ensures Translate(m, addr, size, false) == Translate(m, addr, size, true)
  {
  }

  /** An access reads the bytes of its addresses, the lowest first. */
  lemma ReadBytesAt(m: Memory, addr: Address, size: nat, k: nat)
    requires MemoryOk(m) && AccessSize(size) && ReadBytes(m, addr, size).Ok? && k < size
    ensures addr + k < 0x1_0000_0000
    ensures VirtualByte(m, addr + k) == Ok(ReadBytes(m, addr, size).value[k])
  {
    InMemory(m, addr, size, false);
    WithinPage(m, addr, size, false, k);
  }

  lemma ReadWordByte(m: Memory, addr: Address, k: nat)
    requires MemoryOk(m) && addr % 4 == 0 && ReadWord(m, addr).Ok? && k < 4
    ensures addr + k < 0x1_0000_0000
    ensures VirtualByte(m, addr + k) == Ok(EncodeWord(ReadWord(m, addr).value)[k])
  {
    hide DecodeWord, EncodeWord, VirtualByte, ReadBytes;
    BytesRoundTrip(ReadBytes(m, addr, 4).value);
    ReadBytesAt(m, addr, 4, k);
  }

  /** At another place within its page: never on top of the word in memory, whatever the pages. */
  predicate OtherPlace(addr: Address, b: Address) {
    b % PAGE_SIZE / 4 != addr % PAGE_SIZE / 4
  }

  /** Bytes outside an access are outside it in memory, too. */
  lemma OtherByteElsewhere(m: Memory, addr: Address, size: nat, b: Address)
    requires AccessSize(size) && Translate(m, addr, size, false).Ok? && Translate(m, b, 1, false).Ok?
    requires !(addr <= b < addr + size) && (Injective(m) || OtherPlace(addr, b))
    ensures var p, q := Translate(m, addr, size, false).value, Translate(m, b, 1, false).value;
      q < p || p + size <= q
  {
    var p, q := Translate(m, addr, size, false).value, Translate(m, b, 1, false).value;
    if Injective(m) {
      if p <= q < p + size {
        WithinPage(m, addr, size, false, q - p);
      }
    } else {
      var f := Frame(m, addr, size);
      var g := Frame(m, b, 1);
      OffsetInWord(addr, size);
      PlacesApart(f, g, addr % PAGE_SIZE, b % PAGE_SIZE, size);
    }
  }

  /** An aligned access does not go beyond its aligned word. */
  lemma OffsetInWord(addr: Address, size: nat)
    requires AccessSize(size) && Aligned(addr, size)
    ensures (addr % PAGE_SIZE + size - 1) / 4 == addr % PAGE_SIZE / 4
  {
    var word, place := addr / 4 - 32 * (addr / PAGE_SIZE), addr % 4;
    assert addr % PAGE_SIZE == 4 * word + place;
    if size == 2 {
      EvenPlace(addr);
    }
    PlaceInWord(word, place);
    PlaceInWord(word, place + size - 1);
  }

  lemma EvenPlace(addr: nat)
    requires addr % 2 == 0
    ensures addr % 4 <= 2
  {
  }

  lemma PlaceInWord(word: nat, place: nat)
    requires place < 4
    ensures (4 * word + place) / 4 == word
  {
  }

  lemma Frame(m: Memory, addr: Address, size: nat) returns (f: nat)
    requires Translate(m, addr, size, false).Ok?
    ensures Translate(m, addr, size, false).value == f * PAGE_SIZE + addr % PAGE_SIZE
  {
    f := m.table[FindEntry(m, addr / PAGE_SIZE).value].physicalPage;
  }

  lemma PlacesApart(f: nat, g: nat, at: nat, bt: nat, size: nat)
    requires at < PAGE_SIZE && bt < PAGE_SIZE && 0 < size && (at + size - 1) / 4 == at / 4 != bt / 4
    ensures var p, q := f * PAGE_SIZE + at, g * PAGE_SIZE + bt;
      q < p || p + size <= q
  {
    if g > f {
      assert g * PAGE_SIZE >= f * PAGE_SIZE + PAGE_SIZE;
    } else if g < f {
      assert f * PAGE_SIZE >= g * PAGE_SIZE + PAGE_SIZE;
    }
  }

  lemma AfterStoreFacts(m: Memory, addr: Address, bytes: seq<Byte>)
    requires MemoryOk(m) && AccessSize(|bytes|) && Translate(m, addr, |bytes|, true).Ok?
    ensures var m', p := AfterStore(m, addr, bytes), Translate(m, addr, |bytes|, true).value;
      MemoryOk(m') && SameTranslation(m, m') && p + |bytes| <= MEMORY_SIZE && m'.bytes == Splice(m.bytes, p, bytes)
  {
    InMemory(m, addr, |bytes|, true);
    TouchKeepsTranslation(m, addr, |bytes|, true);
  }

  /** Storing bytes changes those of the access's addresses, and, if no two pages share a frame, no other. */
  lemma StoreBytes(m: Memory, addr: Address, bytes: seq<Byte>, b: Address)
    requires MemoryOk(m) && AccessSize(|bytes|) && Translate(m, addr, |bytes|, true).Ok?
    ensures MemoryOk(AfterStore(m, addr, bytes)) && SameTranslation(m, AfterStore(m, addr, bytes))
    ensures addr <= b < addr + |bytes| ==> VirtualByte(AfterStore(m, addr, bytes), b) == Ok(bytes[b - addr])
    ensures !(addr <= b < addr + |bytes|) && (Injective(m) || OtherPlace(addr, b)) ==>
      VirtualByte(AfterStore(m, addr, bytes), b) == VirtualByte(m, b)
  {
    assert Aligned(addr, |bytes|);
    StoredBytesAt(m, addr, bytes, b);
  }

  lemma StoredBytesAt(m: Memory, addr: Address, bytes: seq<Byte>, b: Address)
    requires MemoryOk(m) && AccessSize(|bytes|) && Translate(m, addr, |bytes|, true).Ok?
    requires Aligned(addr, |bytes|)
    ensures MemoryOk(AfterStore(m, addr, bytes)) && SameTranslation(m, AfterStore(m, addr, bytes))
    ensures addr <= b < addr + |bytes| ==> VirtualByte(AfterStore(m, addr, bytes), b) == Ok(bytes[b - addr])
    ensures !(addr <= b < addr + |bytes|) && (Injective(m) || OtherPlace(addr, b)) ==>
      VirtualByte(AfterStore(m, addr, bytes), b) == VirtualByte(m, b)
  {
    hide Translate, Injective, OtherPlace, AfterStore, SameTranslation;
    var m', size := AfterStore(m, addr, bytes), |bytes|;
    AfterStoreFacts(m, addr, bytes);
    SameTranslationSame(m, m', b, 1, false);
    WritableIsReadable(m, addr, size);
    if addr <= b < addr + size {
      WithinPage(m, addr, size, false, b - addr);
    } else if Translate(m, b, 1, false).Ok? && (Injective(m) || OtherPlace(addr, b)) {
      OtherByteElsewhere(m, addr, size, b);
      InMemory(m, b, 1, false);
    }
  }

  /** Every valid entry for this frame is read-only. */
  predicate OnlyReadOnly(m: Memory, frame: nat) {
    forall i :: 0 <= i < |m.table| && m.table[i].valid && m.table[i].physicalPage == frame ==> m.table[i].readOnly
  }

  /** No store changes a byte of a frame that is mapped only read-only. */
  lemma StoreSparesReadOnly(m: Memory, addr: Address, bytes: seq<Byte>, p: nat)
    requires MemoryOk(m) && AccessSize(|bytes|) && p < MEMORY_SIZE && OnlyReadOnly(m, p / PAGE_SIZE)
    ensures var m' := AfterStore(m, addr, bytes);
      MemoryOk(m') && m'.bytes[p] == m.bytes[p] && OnlyReadOnly(m', p / PAGE_SIZE)
  {
    if Translate(m, addr, |bytes|, true).Ok? {
      AfterStoreFacts(m, addr, bytes);
      StoreWithinFrame(m, addr, |bytes|, p);
      SameReadOnly(m, AfterStore(m, addr, bytes), p / PAGE_SIZE);
    }
  }

  lemma SameReadOnly(m: Memory, m': Memory, frame: nat)
    requires SameTranslation(m, m') && OnlyReadOnly(m, frame)
    ensures OnlyReadOnly(m', frame)
  {
    forall i | 0 <= i < |m'.table| && m'.table[i].valid && m'.table[i].physicalPage == frame
      ensures m'.table[i].readOnly
    {
      assert m.table[i].(use := false, dirty := false) == m'.table[i].(use := false, dirty := false);
    }
  }

  lemma StoreWithinFrame(m: Memory, addr: Address, size: nat, p: nat)
    requires AccessSize(size) && Translate(m, addr, size, true).Ok? && OnlyReadOnly(m, p / PAGE_SIZE)
    ensures !(Translate(m, addr, size, true).value <= p < Translate(m, addr, size, true).value + size)
  {
    OffsetFits(addr, size);
    var i := FindEntry(m, addr / PAGE_SIZE).value;
    OneEntryFor(m, addr / PAGE_SIZE, i);
    var frame := m.table[i].physicalPage;
    hide FindEntry;
    assert m.table[i].valid && !m.table[i].readOnly;
    if frame * PAGE_SIZE + addr % PAGE_SIZE <= p < frame * PAGE_SIZE + addr % PAGE_SIZE + size {
      InFrame(frame, addr % PAGE_SIZE, size, p);
    }
  }

  lemma InFrame(frame: nat, offset: nat, size: nat, p: nat)
    requires offset + size <= PAGE_SIZE && frame * PAGE_SIZE + offset <= p < frame * PAGE_SIZE + offset + size
    ensures p / PAGE_SIZE == frame
  {
  }
}

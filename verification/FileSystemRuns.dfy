/** The file system as a map from names to bytes: what each operation does to it, over whole runs. */
module FileSystemRuns {
  import opened Bytes
  import opened BitWords
  import opened FreeMaps
  import opened FileChunks
  import opened Bitmaps
  import opened DiskGeometry
  import opened DiskLayout
  import opened OpenFiles
  import opened FileHeaders
  import opened Directories
  import opened Volumes
  import opened VolumeContents
  import opened VolumeUpdates
  import opened FileSystems

  /** Names to the sectors of their headers. */
  ghost function Listing(d: Disk): map<seq<Byte>, int> {
    map k | k in Names(Table(d)) :: var e := IndexOf(Table(d), k); if e == -1 then -1 else Table(d)[e].sector
  }

  lemma EntryInFiles(d: Disk, e: nat)
    requires Consistent(d) && e < NUM_DIR_ENTRIES && Table(d)[e].inUse
    ensures var k := Key(Table(d)[e].name);
      && k in Files(d) && Files(d)[k] == FileData(d, LayoutOf(d).headers[e])
      && k in Listing(d) && Listing(d)[k] == Table(d)[e].sector
      && IndexOf(Table(d), k) == e
  {
    hide Table, DecodeHeader, FileData;
    FoundByName(Table(d), e);
  }

  lemma FileHasEntry(d: Disk, k: seq<Byte>) returns (e: nat)
    requires Consistent(d) && k in Names(Table(d))
    ensures e < NUM_DIR_ENTRIES && Table(d)[e].inUse && Key(Table(d)[e].name) == k
  {
    hide Table;
    e :| 0 <= e < |Table(d)| && Table(d)[e].inUse && Key(Table(d)[e].name) == k;
  }

  lemma NamesOfFiles(d: Disk)
    requires Consistent(d)
    ensures Files(d).Keys == Names(Table(d)) == Listing(d).Keys
  {
    hide Table;
  }

  /** The header that opening a listed file brings into memory. */
  ghost function OpenedHeader(d: Disk, name: seq<Byte>): Header
    requires Consistent(d)
  {
    var e := IndexOf(Table(d), name);
    if e == -1 then BlankHeader() else LayoutOf(d).headers[e]
  }

  /** Files of `d` other than `except` are in `d'` with the same bytes, the same header and at the same sector. */
  ghost predicate OthersKept(d: Disk, d': Disk, except: seq<Byte>)
    requires Consistent(d) && Consistent(d')
  {
    forall k :: k in Files(d) && k != except ==>
                  && k in Files(d') && Files(d')[k] == Files(d)[k] && OpenedHeader(d', k) == OpenedHeader(d, k)
                  && k in Listing(d) && k in Listing(d') && Listing(d')[k] == Listing(d)[k]
  }

  /** Entries that are the same on both disks, with the same data, make the same files. */
  lemma KeepOthers(d: Disk, d': Disk, changed: nat, except: seq<Byte>)
    requires Consistent(d) && Consistent(d') && changed < NUM_DIR_ENTRIES
    requires Table(d)[changed].inUse ==> Key(Table(d)[changed].name) == except
    requires forall e :: 0 <= e < NUM_DIR_ENTRIES && e != changed ==>
                           Table(d')[e] == Table(d)[e] && LayoutOf(d').headers[e] == LayoutOf(d).headers[e]
    requires forall e :: 0 <= e < NUM_DIR_ENTRIES && e != changed && Table(d)[e].inUse ==>
                           FileData(d', LayoutOf(d).headers[e]) == FileData(d, LayoutOf(d).headers[e])
    ensures OthersKept(d, d', except)
  {
    hide Table, DecodeHeader, FileData, Files, Listing;
    NamesOfFiles(d);
    forall k | k in Files(d) && k != except
      ensures k in Files(d') && Files(d')[k] == Files(d)[k] && OpenedHeader(d', k) == OpenedHeader(d, k)
      ensures k in Listing(d) && k in Listing(d') && Listing(d')[k] == Listing(d)[k]
    {
      var e := FileHasEntry(d, k);
      EntryInFiles(d, e);
      EntryInFiles(d', e);
    }
  }

  lemma MapWith<K, V>(m: map<K, V>, m': map<K, V>, k: K)
    requires m'.Keys == m.Keys + {k} && forall x :: x in m && x != k ==> m'[x] == m[x]
    ensures m' == m[k := m'[k]]
  {
  }

  lemma MapWithout<K, V>(m: map<K, V>, m': map<K, V>, k: K)
    requires m'.Keys == m.Keys - {k} && forall x :: x in m && x != k ==> m'[x] == m[x]
    ensures m' == m - {k}
  {
  }

  lemma NamesWith(table: seq<DirEntry>, e: nat, entry: DirEntry)
    requires e < |table| && !table[e].inUse && entry.inUse
    ensures Names(table[e := entry]) == Names(table) + {Key(entry.name)}
  {
    forall k | k in Names(table) + {Key(entry.name)}
      ensures k in Names(table[e := entry])
    {
      if k == Key(entry.name) {
        assert table[e := entry][e] == entry;
      } else {
        var i :| 0 <= i < |table| && table[i].inUse && Key(table[i].name) == k;
        assert table[e := entry][i].inUse;
      }
    }
  }

  lemma NamesWithout(table: seq<DirEntry>, e: nat)
    requires DistinctNames(table) && e < |table| && table[e].inUse
    ensures Names(table[e := table[e].(inUse := false)]) == Names(table) - {Key(table[e].name)}
  {
    var table' := table[e := table[e].(inUse := false)];
    forall k | k in Names(table')
      ensures k in Names(table) && k != Key(table[e].name)
    {
      var i :| 0 <= i < |table| && table'[i].inUse && Key(table'[i].name) == k;
    }
    forall k | k in Names(table) - {Key(table[e].name)}
      ensures k in Names(table')
    {
      var i :| 0 <= i < |table| && table[i].inUse && Key(table[i].name) == k;
      assert table'[i].inUse;
    }
  }

  /** Creating a file adds one file of the asked length, under a name that was not there, leaves every other
      file as it was, and takes exactly one sector for the header and one for each 128 bytes of data. */
  lemma CreateAddsFile(d: Disk, d': Disk, name: seq<Byte>, size: Int32, entry: DirEntry, h: Header)
    requires Consistent(d) && Created(d, d', name, size, entry, h)
    ensures Consistent(d') && Key(name) !in Files(d) && Key(name) in Files(d') && |Files(d')[Key(name)]| == size
    ensures Files(d') == Files(d)[Key(name) := Files(d')[Key(name)]]
    ensures Listing(d') == Listing(d)[Key(name) := entry.sector] && OthersKept(d, d', Key(name))
    ensures CountClear(FreeMap(d')) == CountClear(FreeMap(d)) - (1 + DivRoundUp(size, SECTOR_SIZE))
  {
    hide Table, DecodeHeader, FileData, Files, Listing, FreeMap, IndexOf, FreeSlot, Shape, SingleOwners, MarksOwned,
         Names,
         Created;
    CreatedLayout(d, d', name, size, entry, h);
    var slot := FreeSlot(Table(d));
    FindingByKey(Table(d), entry.name);
    EntryInFiles(d', slot);
    CountSetAll(FreeMap(d), FileSectors(entry.sector, h), true);
    KeepOthers(d, d', slot, Key(name));
    NamesOfFiles(d);
    NamesOfFiles(d');
    NamesWith(Table(d), slot, entry);
    MapWith(Files(d), Files(d'), Key(name));
    MapWith(Listing(d), Listing(d'), Key(name));
  }

  /** Removing a file drops exactly that file and gives back its sectors. */
  lemma RemoveDropsFile(d: Disk, d': Disk, name: seq<Byte>)
    requires Consistent(d) && Removed(d, d', name)
    ensures Consistent(d') && Key(name) in Files(d) && Files(d') == Files(d) - {Key(name)}
    ensures Listing(d') == Listing(d) - {Key(name)} && OthersKept(d, d', Key(name))
    ensures CountClear(FreeMap(d')) == CountClear(FreeMap(d)) + 1 + DivRoundUp(|Files(d)[Key(name)]|, SECTOR_SIZE)
  {
    hide Table, DecodeHeader, FileData, Files, Listing, FreeMap, FreeSlot, Shape, SingleOwners, MarksOwned, Names,
         Removed;
    RemovedLayout(d, d', name);
    var e := IndexOf(Table(d), name);
    EntryInFiles(d, e);
    assert Key(Table(d)[e].name) == Key(name);
    ListedFile(d, e);
    FileSectorsMarked(LayoutOf(d), FreeMap(d), e);
    CountSetAll(FreeMap(d), FileSectors(Table(d)[e].sector, LayoutOf(d).headers[e]), false);
    KeepOthers(d, d', e, Key(name));
    NamesOfFiles(d);
    NamesOfFiles(d');
    NamesWithout(Table(d), e);
    MapWithout(Files(d), Files(d'), Key(name));
    MapWithout(Listing(d), Listing(d'), Key(name));
  }

  /** `d'` is `d` after bytes of the file called `name` were overwritten from `position` on. */
  ghost predicate Written(d: Disk, d': Disk, name: seq<Byte>, position: nat, bytes: seq<Byte>)
    requires Consistent(d)
  {
    var e := IndexOf(Table(d), name);
    && e != -1
    && var h := LayoutOf(d).headers[e];
    && position + |bytes| <= h.numBytes
    && OnlyBlocksChanged(d, d', h, 0, BlockCount(h))
    && FileData(d', h) == Splice(FileData(d, h), position, bytes)
  }

  /** Writing into an open file changes those bytes of that file and nothing else on the disk. */
  lemma WriteChangesFile(d: Disk, d': Disk, name: seq<Byte>, position: nat, bytes: seq<Byte>)
    requires Consistent(d) && Written(d, d', name, position, bytes)
    ensures Consistent(d') && FreeWords(d') == FreeWords(d) && LayoutOf(d') == LayoutOf(d)
    ensures Key(name) in Files(d) && position + |bytes| <= |Files(d)[Key(name)]|
    ensures Files(d') == Files(d)[Key(name) := Splice(Files(d)[Key(name)], position, bytes)]
    ensures Listing(d') == Listing(d)
  {
    hide Table, DecodeHeader, FileData, Files, Listing, Splice, FreeWords, FreeMap, SingleOwners, MarksOwned, Names,
         Shape;
    var e := IndexOf(Table(d), name);
    RewriteFile(d, d', e);
    assert Key(Table(d)[e].name) == Key(name);
    EntryInFiles(d, e);
    EntryInFiles(d', e);
    KeepOthers(d, d', e, Key(name));
    NamesOfFiles(d);
    NamesOfFiles(d');
    MapWith(Files(d), Files(d'), Key(name));
    MapWith(Listing(d), Listing(d'), Key(name));
  }

  /** A file that was opened by name can be read and written: its blocks lie on the disk, and no two are the same. */
  lemma OpenedFileIsUsable(d: Disk, name: seq<Byte>)
    requires Consistent(d) && IndexOf(Table(d), name) != -1
    ensures var h := OpenedHeader(d, name);
      && Readable(h) && Distinct(DataSectors(h)) && Key(name) in Files(d) && Files(d)[Key(name)] == FileData(d, h)
  {
    hide Table, DecodeHeader, FileData, Files, Listing, FreeWords, FreeMap, SingleOwners, MarksOwned, Names;
    var e := IndexOf(Table(d), name);
    assert Key(Table(d)[e].name) == Key(name);
    EntryInFiles(d, e);
    ListedFile(d, e);
    FileSectorsMarked(LayoutOf(d), FreeMap(d), e);
    var t := FileSectors(Table(d)[e].sector, LayoutOf(d).headers[e]);
    assert t[1..] == DataSectors(LayoutOf(d).headers[e]);
  }

  /** Opens a file by name and writes to it: exactly those bytes of exactly that file change. */
  method WriteFile(fs: FileSystem, name: seq<Byte>, from: array<Byte>, numBytes: Int32, position: Int32)
      returns (n: int)
    requires fs.Valid() && position >= 0 && position + numBytes < 0x8000_0000 && numBytes <= from.Length
    modifies fs.disk
    ensures fs.Valid()
    ensures n >= -1 && (n == -1 <==> Key(name) !in Files(old(fs.disk.sectors)))
    ensures n == -1 || n == 0 ==> fs.disk.sectors == old(fs.disk.sectors)
    ensures n >= 0 ==>
      var f := Files(old(fs.disk.sectors));
      && n == Clip(|f[Key(name)]|, numBytes, position)
      && (n > 0 ==> Written(old(fs.disk.sectors), fs.disk.sectors, name, position, from[..n]))
      && (n > 0 ==> Files(fs.disk.sectors) == f[Key(name) := Splice(f[Key(name)], position, from[..n])])
  {
    ghost var d := fs.disk.sectors;
    HeaderByKey(d, name);
    var file := fs.Open(name);
    if file == null {
      return -1;
    }
    OpenedFileIsUsable(d, name);
    hide Table, DecodeHeader, FileData, Files, Listing, FreeWords, FreeMap, LayoutOk, Splice, Names;
    n := file.WriteAt(from, numBytes, position);
    if n > 0 {
      WriteChangesFile(d, fs.disk.sectors, name, position, from[..n]);
    }
  }

  /** Creating a file and removing it again restores the free map bit for bit, the directory as a map from
      names to sectors, and every file's bytes. */
  lemma CreateThenRemove(d: Disk, d1: Disk, d2: Disk, name: seq<Byte>, size: Int32, entry: DirEntry, h: Header)
    requires Consistent(d) && Created(d, d1, name, size, entry, h) && Consistent(d1) && Removed(d1, d2, name)
    ensures Consistent(d2) && FreeWords(d2) == FreeWords(d)
    ensures Listing(d2) == Listing(d) && Files(d2) == Files(d)
  {
    hide Table, DecodeHeader, FileData, Files, Listing, FreeWords, IndexOf, FreeSlot, OthersKept, Created, Removed,
         CountClear, FreeMap,
         Consistent, Names, UpToNul;
    CreateAddsFile(d, d1, name, size, entry, h);
    RemoveDropsFile(d1, d2, name);
    NamesOfFiles(d);
    MapThereAndBack(d, d1, d2, name, size, entry, h);
    SameBitsSameWords(FreeWords(d2), FreeWords(d));
  }

  /** The same for the operations themselves: whether or not the file can be created, the disk ends up with the same
      free map, the same directory and the same files. */
  method CreateAndRemove(fs: FileSystem, name: seq<Byte>, initialSize: Int32)
      returns (created: bool, removed: bool, overrun: bool)
    requires fs.Valid() && 0 <= initialSize
    modifies fs.disk
    ensures fs.Valid() && removed == created
    ensures overrun <==> Overruns(old(fs.disk.sectors), name, initialSize)
    ensures FreeWords(fs.disk.sectors) == FreeWords(old(fs.disk.sectors))
    ensures Listing(fs.disk.sectors) == Listing(old(fs.disk.sectors)) && Files(fs.disk.sectors) == Files(old(fs.disk.sectors))
  {
    ghost var d := fs.disk.sectors;
    assert Consistent(d);
    hide *;
    removed := false;
    created, overrun := fs.Create(name, initialSize);
    if created {
      ghost var d1 := fs.disk.sectors;
      ghost var entry, h :| Created(d, d1, name, initialSize, entry, h);
      CreatedIsListed(d, d1, name, initialSize, entry, h);
      removed := fs.Remove(name);
      CreateThenRemove(d, d1, fs.disk.sectors, name, initialSize, entry, h);
    }
  }

  lemma CreatedIsListed(d: Disk, d1: Disk, name: seq<Byte>, size: Int32, entry: DirEntry, h: Header)
    requires Consistent(d) && Created(d, d1, name, size, entry, h)
    ensures IndexOf(Table(d1), name) != -1
  {
    CreateAddsFile(d, d1, name, size, entry, h);
    hide Table, Files, Consistent, Created;
    HeaderByKey(d1, name);
  }

  lemma MapThereAndBack(d: Disk, d1: Disk, d2: Disk, name: seq<Byte>, size: Int32, entry: DirEntry, h: Header)
    requires Consistent(d) && Created(d, d1, name, size, entry, h) && Consistent(d1) && Removed(d1, d2, name)
    ensures Bits(FreeWords(d2)) == Bits(FreeWords(d))
  {
    hide Table, DecodeHeader, FileData, Files, Listing, FreeWords, FreeSlot, SingleOwners, MarksOwned, Bits, UpToNul,
         DistinctNames,
         Created, Removed, Shape;
    CreatedLayout(d, d1, name, size, entry, h);
    RemovedLayout(d1, d2, name);
    var slot := FreeSlot(Table(d));
    SameKeySameIndex(Table(d1), name, entry.name);
    SlotOfNewFile(Table(d), slot, entry);
    assert IndexOf(Table(d1), name) == slot;
    SetThenClear(FreeMap(d), FileSectors(entry.sector, h), FileSectors(entry.sector, h));
  }

  lemma SlotOfNewFile(table: seq<DirEntry>, slot: nat, entry: DirEntry)
    requires slot < |table| && entry.inUse && IndexOf(table, entry.name) == -1
    ensures IndexOf(table[slot := entry], entry.name) == slot
  {
    hide UpToNul;
    assert Matches(table[slot := entry][slot], entry.name);
  }

  /** One step of a run, done to a consistent disk: a file created, a file removed, bytes of an existing file
      overwritten, or an operation refused. Nothing is said of the disk after it but which of its bytes changed,
      and to what. */
  ghost predicate Step(d: Disk, d': Disk) {
    Consistent(d) ==>
      || d' == d
      || (exists name, size, entry, h :: Created(d, d', name, size, entry, h))
      || (exists name :: Removed(d, d', name))
      || (exists name, position, bytes :: Written(d, d', name, position, bytes))
  }

  /** A run starts on a disk in order, such as a freshly formatted one. */
  ghost predicate Run(disks: seq<Disk>) {
    && disks != [] && Consistent(disks[0])
    && forall i :: 0 <= i < |disks| - 1 ==> Step(disks[i], disks[i + 1])
  }

  /** Through any run of creates, removes and writes: the stored free map marks exactly the sectors that have
      an owner, no sector has two, and no two files have the same name. */
  lemma {:induction false} RunsStayConsistent(disks: seq<Disk>, i: nat)
    requires Run(disks) && i < |disks|
    ensures Consistent(disks[i])
    ensures SingleOwners(LayoutOf(disks[i])) && MarksOwned(LayoutOf(disks[i]), FreeMap(disks[i])) &&
      DistinctNames(Table(disks[i]))
  {
    hide Table, FreeMap, SingleOwners, MarksOwned, Shape, Step;
    if i == 0 {
    } else {
      RunsStayConsistent(disks, i - 1);
      StepStaysConsistent(disks[i - 1], disks[i - 1 + 1]);
    }
  }

  /** Each kind of step keeps the disk consistent: the sectors taken were nobody's, those given back were the
      file's, and a write stays within the file. */
  lemma StepStaysConsistent(d: Disk, d': Disk)
    requires Consistent(d) && Step(d, d')
    ensures Consistent(d')
  {
    hide Consistent, Table, FileData, Created, Removed, Written;
    if name, size, entry, h :| Created(d, d', name, size, entry, h) {
      CreatedLayout(d, d', name, size, entry, h);
    } else if name :| Removed(d, d', name) {
      RemovedLayout(d, d', name);
    } else if d' != d {
      var name, position, bytes :| Written(d, d', name, position, bytes);
      WriteChangesFile(d, d', name, position, bytes);
    }
  }

  /** A request to the file system. */
  datatype Operation =
    | CreateFile(name: seq<Byte>, size: Int32)
    | RemoveFile(name: seq<Byte>)
    | Overwrite(name: seq<Byte>, position: Int32, bytes: seq<Byte>)

  /** What the source demands of its callers. */
  predicate Allowed(op: Operation) {
    match op
    case CreateFile(_, size) => 0 <= size
    case RemoveFile(_) => true
    case Overwrite(_, position, bytes) => position >= 0 && position + |bytes| < 0x8000_0000
  }

  /** What the request does: exactly when it takes effect, and with which effect. */
  ghost predicate Outcome(op: Operation, d: Disk, d': Disk)
    requires Consistent(d)
  {
    var listed := IndexOf(Table(d), op.name) != -1;
    match op
    case CreateFile(name, size) =>
      if 0 <= size && Creatable(d, name, size) then exists entry, h :: Created(d, d', name, size, entry, h) else d' == d
    case RemoveFile(name) => if listed then Removed(d, d', name) else d' == d
    case Overwrite(name, position, bytes) =>
      if listed && position >= 0 && Clip(OpenedHeader(d, name).numBytes, |bytes|, position) > 0
      then Written(d, d', name, position, bytes[..Clip(OpenedHeader(d, name).numBytes, |bytes|, position)])
      else d' == d
  }

  /** The request that writes past a file header in memory. */
  ghost predicate OverrunBy(op: Operation, d: Disk)
    requires Consistent(d)
  {
    op.CreateFile? && op.size >= 0 && Overruns(d, op.name, op.size)
  }

  /** One request, carried out. */
  method Perform(fs: FileSystem, op: Operation) returns (overrun: bool)
    requires fs.Valid() && Allowed(op)
    modifies fs.disk
    ensures fs.Valid() && Consistent(fs.disk.sectors) && Outcome(op, old(fs.disk.sectors), fs.disk.sectors)
    ensures overrun <==> OverrunBy(op, old(fs.disk.sectors))
  {
    overrun := false;
    hide LayoutOk, Table, DecodeHeader, FreeMap, LayoutOf, FileData;
    assert Consistent(fs.disk.sectors);
    match op
    case CreateFile(name, size) =>
      hide Consistent, FileSystem.Valid, Created, IndexOf, Creatable, Overruns;
      var created;
      created, overrun := fs.Create(name, size);
    case RemoveFile(name) =>
      hide Consistent, FileSystem.Valid, Removed, IndexOf;
      var _ := fs.Remove(name);
    case Overwrite(name, position, bytes) =>
      PerformOverwrite(fs, name, position, bytes);
  }

  method PerformOverwrite(fs: FileSystem, name: seq<Byte>, position: Int32, bytes: seq<Byte>)
    requires fs.Valid() && Allowed(Overwrite(name, position, bytes))
    modifies fs.disk
    ensures fs.Valid() && Consistent(fs.disk.sectors)
    ensures Outcome(Overwrite(name, position, bytes), old(fs.disk.sectors), fs.disk.sectors)
  {
    hide LayoutOk, Table, DecodeHeader, FreeMap, LayoutOf, FileData;
    ghost var d := fs.disk.sectors;
    assert Consistent(d);
    hide Consistent, FileSystem.Valid, Written, IndexOf, Creatable, OpenedHeader, Files, Splice, Created, Removed;
    HeaderByKey(d, name);
    OpenedLength(d, name);
    var from := ToBuffer(bytes);
    var n := WriteFile(fs, name, from, |bytes|, position);
    assert n > 0 ==> from[..n] == bytes[..n];
  }

  lemma OpenedLength(d: Disk, name: seq<Byte>)
    requires Consistent(d)
    ensures IndexOf(Table(d), name) != -1 ==> Key(name) in Files(d) && |Files(d)[Key(name)]| == OpenedHeader(d, name).numBytes
  {
    hide Table, DecodeHeader, Files, Listing, FreeWords, FreeMap, SingleOwners, MarksOwned, Names, IndexOf;
    if IndexOf(Table(d), name) != -1 {
      OpenedFileIsUsable(d, name);
      ListedFile(d, IndexOf(Table(d), name));
    }
  }

  /** The disks before, between and after requests, each request with its own outcome, none of them an overrun. */
  ghost predicate Answered(operations: seq<Operation>, disks: seq<Disk>) {
    && |disks| == |operations| + 1 && Run(disks)
    && forall i :: 0 <= i < |operations| ==>
         Consistent(disks[i]) && !OverrunBy(operations[i], disks[i]) && Outcome(operations[i], disks[i], disks[i + 1])
  }

  /** Any list of requests, from any consistent disk, makes a run: of all of them, or up to the first that overruns. */
  method PerformAll(fs: FileSystem, operations: seq<Operation>) returns (done: nat, ghost disks: seq<Disk>)
    requires fs.Valid() && forall op :: op in operations ==> Allowed(op)
    modifies fs.disk
    ensures fs.Valid() && done <= |operations| && Answered(operations[..done], disks)
    ensures disks[0] == old(fs.disk.sectors) && disks[done] == fs.disk.sectors
    ensures done < |operations| ==> Consistent(disks[done]) && OverrunBy(operations[done], disks[done])
  {
    hide LayoutOk, Table, DecodeHeader, FreeMap, LayoutOf, FileData, Outcome, Step, Allowed, OverrunBy;
    disks := [fs.disk.sectors];
    assert Consistent(disks[0]) && Answered(operations[..0], disks);
    hide Consistent, Run, FileSystem.Valid;
    done := 0;
    while done < |operations|
      invariant done <= |operations| && fs.Valid() && Consistent(fs.disk.sectors) && Answered(operations[..done], disks)
      invariant disks[0] == old(fs.disk.sectors) && disks[done] == fs.disk.sectors
    {
      assert operations[done] in operations && operations[..done + 1] == operations[..done] + [operations[done]];
      var overrun := AnswerOne(fs, operations[..done], operations[done], disks);
      if overrun {
        return;
      }
      disks := disks + [fs.disk.sectors];
      done := done + 1;
    }
  }

  method AnswerOne(fs: FileSystem, operations: seq<Operation>, op: Operation, ghost disks: seq<Disk>) returns (overrun: bool)
    requires fs.Valid() && Allowed(op) && Consistent(fs.disk.sectors)
    requires Answered(operations, disks) && disks[|operations|] == fs.disk.sectors
    modifies fs.disk
    ensures fs.Valid() && Consistent(fs.disk.sectors) && (overrun <==> OverrunBy(op, old(fs.disk.sectors)))
    ensures overrun ==> fs.disk.sectors == old(fs.disk.sectors)
    ensures !overrun ==> Answered(operations + [op], disks + [fs.disk.sectors])
  {
    hide Consistent, Outcome, Step, Answered, Allowed, OverrunBy, FileSystem.Valid;
    ghost var d := fs.disk.sectors;
    overrun := Perform(fs, op);
    if overrun {
      OverrunChangesNothing(op, d, fs.disk.sectors);
    } else {
      AnsweredGoesOn(operations, disks, op, fs.disk.sectors);
    }
  }

  lemma OverrunChangesNothing(op: Operation, d: Disk, d': Disk)
    requires Consistent(d) && OverrunBy(op, d) && Outcome(op, d, d')
    ensures d' == d
  {
    hide Consistent, Table, IndexOf, RoomFor, Created;
  }

  lemma AnsweredGoesOn(operations: seq<Operation>, disks: seq<Disk>, op: Operation, d': Disk)
    requires Answered(operations, disks) && Consistent(disks[|operations|]) && !OverrunBy(op, disks[|operations|])
    requires Outcome(op, disks[|operations|], d')
    ensures Answered(operations + [op], disks + [d'])
  {
    hide Consistent, Step, Outcome, OverrunBy;
    OutcomeIsStep(op, disks[|operations|], d');
    var ops', disks' := operations + [op], disks + [d'];
    assert forall i :: 0 <= i < |disks| ==> disks'[i] == disks[i];
    assert forall i :: 0 <= i < |operations| ==> ops'[i] == operations[i];
  }

  lemma OutcomeIsStep(op: Operation, d: Disk, d': Disk)
    requires Consistent(d) && Outcome(op, d, d')
    ensures Step(d, d')
  {
    hide Consistent, Table, Created, Removed, Written, IndexOf, Creatable, OpenedHeader;
  }

  lemma HeaderByKey(d: Disk, name: seq<Byte>)
    requires Consistent(d)
    ensures OpenedHeader(d, Key(name)) == OpenedHeader(d, name)
    ensures Key(name) in Files(d) <==> IndexOf(Table(d), name) != -1
  {
    hide Table, Consistent, LayoutOf, IndexOf, Names, Listing;
    FindingByKey(Table(d), name);
    NamesOfFiles(d);
  }

  lemma KeptHeader(d: Disk, d': Disk, except: seq<Byte>, name: seq<Byte>)
    requires Consistent(d) && Consistent(d') && OthersKept(d, d', except)
    requires IndexOf(Table(d), name) != -1 && Key(name) != except
    ensures IndexOf(Table(d'), name) != -1 && OpenedHeader(d', name) == OpenedHeader(d, name)
  {
    hide Table, Consistent, LayoutOf, IndexOf, Names, Listing, Files, OpenedHeader;
    HeaderByKey(d, name);
    HeaderByKey(d', name);
  }

  lemma StepKeepsHeader(d: Disk, d': Disk, name: seq<Byte>)
    requires Consistent(d) && Step(d, d') && Consistent(d') && IndexOf(Table(d), name) != -1 && !Removed(d, d', name)
    ensures IndexOf(Table(d'), name) != -1 && OpenedHeader(d', name) == OpenedHeader(d, name)
  {
    hide Consistent, Table, FileData, LayoutOf, IndexOf, Listing, Files, Removed, Written, Created, Names,
         OthersKept, FreeMap, CountClear;
    HeaderByKey(d, name);
    if n, size, entry, h :| Created(d, d', n, size, entry, h) {
      CreateAddsFile(d, d', n, size, entry, h);
      KeptHeader(d, d', Key(n), name);
    } else if n :| Removed(d, d', n) {
      RemoveDropsFile(d, d', n);
      if Key(n) == Key(name) {
        RemovedByKey(d, d', n, name);
      } else {
        KeptHeader(d, d', Key(n), name);
      }
    } else if d' != d {
      WrittenKeepsHeaders(d, d', name);
    }
  }

  lemma WrittenKeepsHeaders(d: Disk, d': Disk, name: seq<Byte>)
    requires Consistent(d) && Consistent(d') && exists n, position, bytes :: Written(d, d', n, position, bytes)
    ensures IndexOf(Table(d'), name) == IndexOf(Table(d), name) && OpenedHeader(d', name) == OpenedHeader(d, name)
  {
    hide Consistent, Table, FileData, IndexOf, Listing, Files, Written;
    var n, position, bytes :| Written(d, d', n, position, bytes);
    WriteChangesFile(d, d', n, position, bytes);
  }

  lemma RemovedByKey(d: Disk, d': Disk, a: seq<Byte>, b: seq<Byte>)
    requires Consistent(d) && Removed(d, d', a) && Key(a) == Key(b)
    ensures Removed(d, d', b)
  {
    hide Table, FileData;
    SameKeySameIndex(Table(d), a, b);
  }

  /** The header cached by an open file is the file's header for as long as the file is not removed, whatever
      else is created, removed or written. */
  lemma {:induction false} OpenFilesStayGood(disks: seq<Disk>, i: nat, name: seq<Byte>)
    requires Run(disks) && i < |disks| && IndexOf(Table(disks[0]), name) != -1
    requires forall j {:trigger disks[j]} :: 0 <= j < i && Consistent(disks[j]) ==> !Removed(disks[j], disks[j + 1], name)
    ensures Consistent(disks[i]) && IndexOf(Table(disks[i]), name) != -1
    ensures OpenedHeader(disks[i], name) == OpenedHeader(disks[0], name)
  {
    hide Consistent, Table, OpenedHeader, IndexOf, Removed;
    RunsStayConsistent(disks, i);
    if i == 0 {
    } else {
      RunsStayConsistent(disks, i - 1);
      OpenFilesStayGood(disks, i - 1, name);
      assert !Removed(disks[i - 1], disks[i - 1 + 1], name);
      StepKeepsHeader(disks[i - 1], disks[i], name);
    }
  }
}

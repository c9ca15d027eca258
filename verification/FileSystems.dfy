/** The file system: formatting a disk, creating, opening and removing files. */
module FileSystems {
  import opened Bytes
  import opened BitWords
  import opened FreeMaps
  import opened Bitmaps
  import opened DiskGeometry
  import opened DiskLayout
  import opened OpenFiles
  import opened FileHeaders
  import opened Directories
  import opened Volumes
  import opened VolumeContents
  import opened VolumeUpdates

  /** What creating a file does to the sectors: its header goes to a free one, and the directory file and the free
      map file are rewritten, with one entry more and the sectors of the file marked. */
  ghost predicate Created(d: Disk, d': Disk, name: seq<Byte>, size: Int32, entry: DirEntry, h: Header)
    requires Consistent(d)
  {
    var slot := FreeSlot(Table(d));
    && slot != -1 && Addable(d, slot, entry, h)
    && h.numBytes == size && Key(entry.name) == Key(name)
    && d'[entry.sector] == EncodeHeader(h)
    && RewroteMetadata(d, d', entry.sector, Table(d)[slot := entry], SetAll(FreeMap(d), FileSectors(entry.sector, h), true))
  }

  /** What removing a file does to the sectors: the directory file and the free map file are rewritten, with one
      entry out of use and the sectors of the file cleared. */
  ghost predicate Removed(d: Disk, d': Disk, name: seq<Byte>)
    requires Consistent(d)
  {
    var e := IndexOf(Table(d), name);
    && e != -1
    && RewroteMetadata(d, d', -1, Table(d)[e := Table(d)[e].(inUse := false)],
                       SetAll(FreeMap(d), FileSectors(Table(d)[e].sector, LayoutOf(d).headers[e]), false))
  }

  ghost predicate RewroteMetadata(d: Disk, d': Disk, head: int, table: seq<DirEntry>, bits: seq<bool>)
    requires Consistent(d)
  {
    exists words :: |words| == 32 && Bits(words) == bits && Committed(d, d', head, table, words)
  }

  /** Such a disk is consistent again: it holds the files of `d` and the new one. */
  lemma CreatedLayout(d: Disk, d': Disk, name: seq<Byte>, size: Int32, entry: DirEntry, h: Header)
    requires Consistent(d) && Created(d, d', name, size, entry, h)
    ensures FreeSlot(Table(d)) != -1 && Addable(d, FreeSlot(Table(d)), entry, h)
    ensures h.numBytes == size && Key(entry.name) == Key(name)
    ensures Consistent(d') && LayoutOf(d') == WithFile(LayoutOf(d), FreeSlot(Table(d)), entry, h)
    ensures FreeMap(d') == SetAll(FreeMap(d), FileSectors(entry.sector, h), true)
    ensures forall k :: 0 <= k < NUM_DIR_ENTRIES && Table(d)[k].inUse ==>
                          FileData(d', LayoutOf(d).headers[k]) == FileData(d, LayoutOf(d).headers[k])
  {
    hide EncodeHeader, FileData, Table, DecodeHeader, Consistent, Committed, FreeWords, Bits, SetAll, LayoutOf,
         FreeSlot;
    var slot, bits := FreeSlot(Table(d)), SetAll(FreeMap(d), FileSectors(entry.sector, h), true);
    var words :| |words| == 32 && Bits(words) == bits && Committed(d, d', entry.sector, Table(d)[slot := entry], words);
    CommitNewFile(d, d', slot, entry, h, words);
  }

  /** And so is this one: it holds the files of `d` but the one removed. */
  lemma RemovedLayout(d: Disk, d': Disk, name: seq<Byte>)
    requires Consistent(d) && Removed(d, d', name)
    ensures var e := IndexOf(Table(d), name);
      && e != -1 && Consistent(d') && LayoutOf(d') == WithoutFile(LayoutOf(d), e)
      && FreeMap(d') == SetAll(FreeMap(d), FileSectors(Table(d)[e].sector, LayoutOf(d).headers[e]), false)
      && forall k :: 0 <= k < NUM_DIR_ENTRIES && Table(d)[k].inUse ==>
           FileData(d', LayoutOf(d).headers[k]) == FileData(d, LayoutOf(d).headers[k])
  {
    hide FileData, DecodeHeader, Committed, FreeWords, Bits, SetAll;
    var e := IndexOf(Table(d), name);
    ListedFile(d, e);
    hide Consistent, LayoutOf, Table;
    var bits := SetAll(FreeMap(d), FileSectors(Table(d)[e].sector, LayoutOf(d).headers[e]), false);
    var words :| |words| == 32 && Bits(words) == bits
                 && Committed(d, d', -1, Table(d)[e := Table(d)[e].(inUse := false)], words);
    CommitDroppedFile(d, d', e, words);
  }

  /** There is a slot, and room for a header and the data. */
  ghost predicate RoomFor(d: Disk, size: nat)
    requires Consistent(d)
  {
    FreeSlot(Table(d)) != -1 && 1 + DivRoundUp(size, SECTOR_SIZE) <= CountClear(FreeMap(d))
  }

  /** A file is put on the disk exactly if its name is new, there is room for it, and it is not over the limit. */
  ghost predicate Creatable(d: Disk, name: seq<Byte>, size: nat)
    requires Consistent(d)
  {
    IndexOf(Table(d), name) == -1 && RoomFor(d, size) && size <= MAX_FILE_SIZE
  }

  /** Over the limit, a new name and room for the file are what lets the source write past the file's header. */
  ghost predicate Overruns(d: Disk, name: seq<Byte>, size: nat)
    requires Consistent(d)
  {
    IndexOf(Table(d), name) == -1 && RoomFor(d, size) && size > MAX_FILE_SIZE
  }

  /** The three writes that commit a new file: its header, the directory, the free map. */
  lemma CommitCreate(d: Disk, d1: Disk, d2: Disk, d3: Disk, entry: DirEntry, h: Header, name: seq<Byte>,
      words: seq<bv32>)
    requires Consistent(d) && FreeSlot(Table(d)) != -1
    requires Addable(d, FreeSlot(Table(d)), entry, h)
    requires Key(entry.name) == Key(name)
    requires d1 == d[entry.sector := EncodeHeader(h)]
    requires var dirHdr := LayoutOf(d).dirHdr;
      && FileData(d2, dirHdr) == EncodeTable(Table(d)[FreeSlot(Table(d)) := entry])
      && OnlyBlocksChanged(d1, d2, dirHdr, 0, BlockCount(dirHdr))
    requires var mapHdr := LayoutOf(d).mapHdr;
      FileData(d3, mapHdr) == EncodeWords(words) && OnlyBlocksChanged(d2, d3, mapHdr, 0, BlockCount(mapHdr))
    requires |words| == 32 && Bits(words) == SetAll(FreeMap(d), FileSectors(entry.sector, h), true)
    ensures Created(d, d3, name, h.numBytes, entry, h)
  {
    hide EncodeHeader, EncodeTable, EncodeWords, FileData, Table, DecodeHeader;
    var e := FreeSlot(Table(d));
    MetadataKept(d, d2, d3);
    assert FileSectors(entry.sector, h)[0] == entry.sector;
    FreeSectorApart(LayoutOf(d), FreeMap(d), entry.sector);
    assert Committed(d, d3, entry.sector, Table(d)[e := entry], words);
  }

  lemma CommitRemove(d: Disk, d1: Disk, d2: Disk, name: seq<Byte>, words: seq<bv32>)
    requires Consistent(d) && IndexOf(Table(d), name) != -1
    requires var mapHdr := LayoutOf(d).mapHdr;
      FileData(d1, mapHdr) == EncodeWords(words) && OnlyBlocksChanged(d, d1, mapHdr, 0, BlockCount(mapHdr))
    requires var dirHdr, e := LayoutOf(d).dirHdr, IndexOf(Table(d), name);
      && FileData(d2, dirHdr) == EncodeTable(Table(d)[e := Table(d)[e].(inUse := false)])
      && OnlyBlocksChanged(d1, d2, dirHdr, 0, BlockCount(dirHdr))
    requires var e := IndexOf(Table(d), name);
      |words| == 32 && Bits(words) == SetAll(FreeMap(d), FileSectors(Table(d)[e].sector, LayoutOf(d).headers[e]), false)
    ensures Removed(d, d2, name)
  {
    hide EncodeTable, EncodeWords, FileData, Table, DecodeHeader;
    MetadataKept(d, d1, d2);
    var e := IndexOf(Table(d), name);
    assert Committed(d, d2, -1, Table(d)[e := Table(d)[e].(inUse := false)], words);
  }

  /** Taking a sector for the header and then the sectors for the data takes the sectors of the file. */
  lemma TakeFile(bits: seq<bool>, sector: Int32, h: Header, now: seq<bool>)
    requires 0 <= sector < |bits| && !bits[sector] && HeaderOk(h)
    requires Taken(bits[sector := true], DataSectors(h), now)
    ensures Distinct(FileSectors(sector, h)) && AllAre(bits, FileSectors(sector, h), false)
    ensures now == SetAll(bits, FileSectors(sector, h), true)
  {
    var t := FileSectors(sector, h);
    forall i | 0 <= i < |DataSectors(h)|
      ensures t[1 + i] == DataSectors(h)[i] != sector
    {
    }
    assert forall s :: s in t <==> s == sector || s in DataSectors(h);
  }

  /** Clearing the data blocks and then the header clears the sectors of the file. */
  lemma ReleaseFile(d: Disk, e: nat)
    requires Consistent(d) && e < NUM_DIR_ENTRIES && Table(d)[e].inUse
    ensures var (sector, h, bits) := (Table(d)[e].sector, LayoutOf(d).headers[e], FreeMap(d));
      && 0 <= sector < NUM_SECTORS && h == DecodeHeader(d[sector]) && HeaderOk(h)
      && Distinct(DataSectors(h)) && AllAre(bits, DataSectors(h), true)
      && SetAll(bits, DataSectors(h), false)[sector := false] == SetAll(bits, FileSectors(sector, h), false)
  {
    hide Table, DecodeHeader, FreeMap;
    var (sector, h) := (Table(d)[e].sector, LayoutOf(d).headers[e]);
    var t := FileSectors(sector, h);
    FileSectorsMarked(LayoutOf(d), FreeMap(d), e);
    assert t[1..] == DataSectors(h);
    assert forall s :: s in t <==> s == sector || s in DataSectors(h);
  }

  lemma {:induction false} NoneClear(bits: seq<bool>)
    requires FirstClear(bits) == -1
    ensures CountClear(bits) == 0
  {
    if CountClear(bits) > 0 {
      ClearBitExists(bits);
    }
  }

  lemma SameKeySameIndex(table: seq<DirEntry>, a: seq<Byte>, b: seq<Byte>)
    requires Key(a) == Key(b)
    ensures IndexOf(table, a) == IndexOf(table, b)
  {
    FindingByKey(table, a);
    FindingByKey(table, b);
  }

  /** Looking a name up gives the sector of a file header on the disk, or -1. */
  lemma FoundSector(d: Disk, name: seq<Byte>)
    requires Consistent(d)
    ensures var e := IndexOf(Table(d), name);
      e != -1 ==> 0 <= Table(d)[e].sector < NUM_SECTORS && HeaderOf(d, Table(d)[e]) == LayoutOf(d).headers[e]
                  == DecodeHeader(d[Table(d)[e].sector])
  {
  }

  /** The sectors of the two fixed files. */
  ghost function FixedSectors(l: Layout): seq<int>
    requires Shape(l)
  {
    [FREE_MAP_SECTOR, DIRECTORY_SECTOR] + DataSectors(l.mapHdr) + DataSectors(l.dirHdr)
  }

  function FixedOwner(k: nat, mapBlocks: nat): Owner {
    if k == 0 then MapHeader else if k == 1 then DirHeader
    else if k < 2 + mapBlocks then MapBlock(k - 2) else DirBlock(k - 2 - mapBlocks)
  }

  lemma {:induction false} CountBlank(blank: seq<bool>)
    requires forall s :: 0 <= s < |blank| ==> !blank[s]
    ensures CountClear(blank) == |blank|
  {
    if blank != [] {
      CountBlank(blank[..|blank| - 1]);
    }
  }

  /** When exactly the sectors below `n` are marked, the sectors taken next are n, n + 1, ... */
  lemma {:induction false} FirstTaken(bits: seq<bool>, taken: seq<int>, now: seq<bool>, n: nat, i: nat)
    requires Taken(bits, taken, now) && (forall s :: 0 <= s < |bits| ==> (bits[s] <==> s < n)) && i <= |taken|
    ensures forall k :: 0 <= k < i ==> taken[k] == n + k
  {
    if i == 0 {
    } else {
      FirstTaken(bits, taken, now, n, i - 1);
      var q := n + i - 1;
      assert !bits[taken[i - 1]];
      assert i > 1 ==> taken[i - 2] < taken[i - 1];
      assert forall s :: n <= s < taken[i - 1] ==> s in taken;
      assert q in taken;
    }
  }

  lemma TakenIsNext(bits: seq<bool>, taken: seq<int>, now: seq<bool>, n: nat)
    requires Taken(bits, taken, now) && forall s :: 0 <= s < |bits| ==> (bits[s] <==> s < n)
    ensures taken == seq(|taken|, k => n + k)
    ensures forall s :: 0 <= s < |now| ==> (now[s] <==> s < n + |taken|)
  {
    FirstTaken(bits, taken, now, n, |taken|);
    assert |taken| > 0 ==> n + |taken| == taken[|taken| - 1] + 1 <= |bits|;
    forall s | n <= s < n + |taken|
      ensures s in taken
    {
      assert taken[s - n] == s;
    }
  }

  /** The disk after the two headers, the free map and the empty directory were written. */
  lemma FormatDone(blank: seq<bool>, d0: Disk, d1: Disk, d: Disk, m: Header, h: Header, table: seq<DirEntry>,
      words: seq<bv32>)
    requires d0[FREE_MAP_SECTOR] == EncodeHeader(m) && d0[DIRECTORY_SECTOR] == EncodeHeader(h)
    requires HeaderOk(m) && m.numBytes == FREE_MAP_FILE_SIZE && HeaderOk(h) && h.numBytes == DIRECTORY_FILE_SIZE
    requires DataSectors(m) == [2] && DataSectors(h) == [3, 4]
    requires |table| == NUM_DIR_ENTRIES && forall e :: 0 <= e < NUM_DIR_ENTRIES ==> !table[e].inUse
    requires |words| == 32 && forall s :: 0 <= s < NUM_SECTORS ==> (Bits(words)[s] <==> s < 5)
    requires |blank| == NUM_SECTORS && (forall s :: 0 <= s < NUM_SECTORS ==> !blank[s])
    requires FileData(d1, m) == EncodeWords(words) && OnlyBlocksChanged(d0, d1, m, 0, BlockCount(m))
    requires FileData(d, h) == EncodeTable(table) && OnlyBlocksChanged(d1, d, h, 0, BlockCount(h))
    ensures LayoutOf(d) == Layout(m, h, table, seq(NUM_DIR_ENTRIES, _ => BlankHeader())) && FreeWords(d) == words
    ensures Consistent(d)
  {
    hide EncodeTable, EncodeWords, FileData, EncodeHeader, DecodeHeader;
    var l := Layout(m, h, table, seq(NUM_DIR_ENTRIES, _ => BlankHeader()));
    HeaderRoundTrip(m);
    HeaderRoundTrip(h);
    assert m.dataSectors[0] == DataSectors(m)[0] == 2;
    SameData(d1, d, m);
    LayoutFrom(d, l, words);
    assert Bits(words) == SetAll(blank, FixedSectors(l), true);
    FormattedLayout(l, blank, Bits(words));
  }

  /** With no file listed the owners are those of the fixed sectors, each of its own. */
  lemma FixedOwners(l: Layout)
    requires Shape(l) && forall e :: 0 <= e < NUM_DIR_ENTRIES ==> !l.table[e].inUse
    ensures var t, m := FixedSectors(l), BlockCount(l.mapHdr);
      && (forall k :: 0 <= k < |t| ==> IsOwner(l, FixedOwner(k, m)) && Where(l, FixedOwner(k, m)) == t[k])
      && forall o :: IsOwner(l, o) ==> exists k :: 0 <= k < |t| && o == FixedOwner(k, m)
  {
    hide HeaderOk;
    var t := FixedSectors(l);
    var m := BlockCount(l.mapHdr);
    forall o | IsOwner(l, o)
      ensures exists k :: 0 <= k < |t| && o == FixedOwner(k, m)
    {
      var k := match o case MapHeader => 0 case DirHeader => 1 case MapBlock(i) => 2 + i
        case DirBlock(i) => 2 + m + i case _ => 0;
      assert o == FixedOwner(k, m);
    }
  }

  lemma FormattedLayout(l: Layout, blank: seq<bool>, bits: seq<bool>)
    requires Shape(l) && forall e :: 0 <= e < NUM_DIR_ENTRIES ==> !l.table[e].inUse
    requires |blank| == NUM_SECTORS && (forall s :: 0 <= s < NUM_SECTORS ==> !blank[s])
    requires Distinct(FixedSectors(l)) && bits == SetAll(blank, FixedSectors(l), true)
    ensures LayoutOk(l, bits)
  {
    hide HeaderOk, StrNEqual, SetAll, FixedSectors, FixedOwner;
    var t := FixedSectors(l);
    var m := BlockCount(l.mapHdr);
    FixedOwners(l);
    forall s | 0 <= s < NUM_SECTORS && bits[s]
      ensures Owned(l, s)
    {
      var k :| 0 <= k < |t| && t[k] == s;
      assert Where(l, FixedOwner(k, m)) == s;
    }
  }

  /** The free map and the headers of the two fixed files on an empty disk; neither allocation can fail. */
  method PlanFormat(mapHdr: FileHeader, dirHdr: FileHeader) returns (freeMap: Bitmap, ghost blank: seq<bool>)
    requires mapHdr.Valid() && dirHdr.Valid() && mapHdr != dirHdr && mapHdr.dataSectors != dirHdr.dataSectors
    modifies mapHdr, mapHdr.dataSectors, dirHdr, dirHdr.dataSectors
    ensures fresh(freeMap) && fresh(freeMap.words) && freeMap.Valid() && freeMap.numBits == NUM_SECTORS
    ensures HeaderOk(mapHdr.Value()) && mapHdr.numBytes == FREE_MAP_FILE_SIZE && DataSectors(mapHdr.Value()) == [2]
    ensures HeaderOk(dirHdr.Value()) && dirHdr.numBytes == DIRECTORY_FILE_SIZE && DataSectors(dirHdr.Value()) == [3, 4]
    ensures forall s :: 0 <= s < NUM_SECTORS ==> (freeMap.View()[s] <==> s < 5)
    ensures Distinct(DataSectors(mapHdr.Value())) && Distinct(DataSectors(dirHdr.Value()))
    ensures |blank| == NUM_SECTORS && forall s :: 0 <= s < NUM_SECTORS ==> !blank[s]
  {
    hide Bitmap.View, Taken, CountClear;
    freeMap := new Bitmap(NUM_SECTORS);
    blank := freeMap.View();
    freeMap.Mark(FREE_MAP_SECTOR);
    freeMap.Mark(DIRECTORY_SECTOR);
    CountBlank(blank);
    CountUpdate(blank, FREE_MAP_SECTOR, true);
    CountUpdate(blank[FREE_MAP_SECTOR := true], DIRECTORY_SECTOR, true);
    ghost var two := freeMap.View();
    var mapOk, _ := mapHdr.Allocate(freeMap, FREE_MAP_FILE_SIZE);
    assert mapOk;
    ghost var three := freeMap.View();
    TakenIsNext(two, DataSectors(mapHdr.Value()), three, 2);
    SectorsOfHeader(two, mapHdr.Value(), three);
    assert three == two[2 := true];
    CountUpdate(two, 2, true);
    var dirOk, _ := dirHdr.Allocate(freeMap, DIRECTORY_FILE_SIZE);
    assert dirOk;
    TakenIsNext(three, DataSectors(dirHdr.Value()), freeMap.View(), 3);
    SectorsOfHeader(three, dirHdr.Value(), freeMap.View());
  }

  lemma SectorsOfHeader(bits: seq<bool>, h: Header, now: seq<bool>)
    requires 0 <= h.numBytes <= MAX_FILE_SIZE && h.numSectors == BlockCount(h) && |bits| == NUM_SECTORS
    requires Taken(bits, DataSectors(h), now)
    ensures HeaderOk(h)
  {
    assert forall i :: 0 <= i < BlockCount(h) ==> DataSectors(h)[i] == h.dataSectors[i];
  }

  /** What Create has in memory, the new entry, the header and the map, is a file that can be added. `was` is the name
      that the entry's slot held before. */
  lemma NewEntry(d: Disk, name: seq<Byte>, entry: DirEntry, was: StoredName, h: Header, now: seq<bool>)
    requires Consistent(d) && IndexOf(Table(d), name) == -1 && FreeSlot(Table(d)) != -1
    requires entry.inUse && 0 <= entry.sector < NUM_SECTORS && !FreeMap(d)[entry.sector]
    requires entry.name == StrNCpy(was, name, FILE_NAME_MAX_LEN)
    requires HeaderOk(h) && Taken(FreeMap(d)[entry.sector := true], DataSectors(h), now)
    ensures Key(entry.name) == Key(name) && Addable(d, FreeSlot(Table(d)), entry, h)
    ensures now == SetAll(FreeMap(d), FileSectors(entry.sector, h), true)
  {
    hide Consistent, FreeMap, Table, IndexOf, FreeSlot, SetAll, AllAre, Distinct, StrNCpy, UpToNul, Taken;
    TakeFile(FreeMap(d), entry.sector, h, now);
    StoredNameMatches(was, name, name, FILE_NAME_MAX_LEN);
    SameKeySameIndex(Table(d), entry.name, name);
  }

  /** Puts an empty directory and a free map on a disk with any contents, and opens both. */
  method Format(disk: SynchDisk) returns (freeMapFile: OpenFile, directoryFile: OpenFile)
    modifies disk
    ensures freeMapFile.disk == disk && directoryFile.disk == disk
    ensures Consistent(disk.sectors)
    ensures freeMapFile.hdr == LayoutOf(disk.sectors).mapHdr && directoryFile.hdr == LayoutOf(disk.sectors).dirHdr
    ensures forall e :: 0 <= e < NUM_DIR_ENTRIES ==> !Table(disk.sectors)[e].inUse
    ensures forall s :: 0 <= s < NUM_SECTORS ==> (FreeMap(disk.sectors)[s] <==> s < 5)
  {
    hide EncodeHeader, EncodeTable, EncodeWords, FileData, Bitmap.View, FreeWords, Consistent, Table,
         DecodeHeader, OnlyBlocksChanged, Readable, DataSectors, Bits;
    var directory := new Directory(NUM_DIR_ENTRIES);
    var mapHdr := new FileHeader();
    var dirHdr := new FileHeader();
    var freeMap, blank := PlanFormat(mapHdr, dirHdr);
    freeMap.WholeWords();
    ghost var m, h := mapHdr.Value(), dirHdr.Value();
    mapHdr.WriteBack(disk, FREE_MAP_SECTOR);
    dirHdr.WriteBack(disk, DIRECTORY_SECTOR);
    freeMapFile := new OpenFile(disk, FREE_MAP_SECTOR);
    directoryFile := new OpenFile(disk, DIRECTORY_SECTOR);
    ghost var d0 := disk.sectors;
    HeaderRoundTrip(m);
    HeaderRoundTrip(h);
    WriteBitmap(freeMap, freeMapFile);
    ghost var d1 := disk.sectors;
    directory.WriteBack(directoryFile);
    FormatDone(blank, d0, d1, disk.sectors, m, h, directory.table[..], freeMap.words[..]);
  }

  lemma {:induction false} CountBehind(bits: seq<bool>, n: nat)
    requires n <= |bits| && forall s :: 0 <= s < |bits| ==> (bits[s] <==> s < n)
    ensures CountClear(bits) == |bits| - n
  {
    if n < |bits| {
      CountBehind(bits[..|bits| - 1], n);
    } else {
      NoneClear(bits);
    }
  }

  /** On a newly formatted disk a file is created exactly up to the limit, and from there on creating it overruns,
      exactly as long as its blocks fit on the disk. */
  lemma FreshDiskOverruns(d: Disk, name: seq<Byte>, size: nat)
    requires Consistent(d) && forall e :: 0 <= e < NUM_DIR_ENTRIES ==> !Table(d)[e].inUse
    requires forall s :: 0 <= s < NUM_SECTORS ==> (FreeMap(d)[s] <==> s < 5)
    ensures Creatable(d, name, size) <==> size <= 30 * 128
    ensures Overruns(d, name, size) <==> 30 * 128 < size <= 1018 * 128
  {
    hide Consistent, Table, FreeMap, CountClear, UpToNul;
    CountBehind(FreeMap(d), 5);
    assert IndexOf(Table(d), name) == -1 && FreeSlot(Table(d)) != -1;
  }

  class FileSystem {
    const disk: SynchDisk
    const freeMapFile: OpenFile
    const directoryFile: OpenFile

    ghost predicate Valid()
      reads disk
    {
      && freeMapFile.disk == disk && directoryFile.disk == disk
      && Consistent(disk.sectors)
      && freeMapFile.hdr == LayoutOf(disk.sectors).mapHdr
      && directoryFile.hdr == LayoutOf(disk.sectors).dirHdr
    }

    /** Formats the disk, or takes it as it is. */
    constructor (format: bool, disk: SynchDisk)
      requires !format ==> Consistent(disk.sectors)
      modifies disk
      ensures Valid() && this.disk == disk
      ensures !format ==> disk.sectors == old(disk.sectors)
      ensures format ==> forall e :: 0 <= e < NUM_DIR_ENTRIES ==> !Table(disk.sectors)[e].inUse
      ensures format ==> forall s :: 0 <= s < NUM_SECTORS ==> (FreeMap(disk.sectors)[s] <==> s < 5)
    {
      var mapFile, dirFile;
      if format {
        mapFile, dirFile := Format(disk);
      } else {
        mapFile := new OpenFile(disk, FREE_MAP_SECTOR);
        dirFile := new OpenFile(disk, DIRECTORY_SECTOR);
      }
      this.disk := disk;
      freeMapFile := mapFile;
      directoryFile := dirFile;
    }

    method FetchDirectory() returns (directory: Directory)
      requires Valid()
      ensures fresh(directory) && fresh(directory.table) && directory.Valid() && directory.tableSize == NUM_DIR_ENTRIES
      ensures directory.table[..] == Table(disk.sectors)
    {
      directory := new Directory(NUM_DIR_ENTRIES);
      directory.FetchFrom(directoryFile);
    }

    method FetchFreeMap() returns (freeMap: Bitmap)
      requires Valid()
      ensures fresh(freeMap) && fresh(freeMap.words) && freeMap.Valid() && freeMap.numBits == NUM_SECTORS
      ensures freeMap.words[..] == FreeWords(disk.sectors) && freeMap.View() == FreeMap(disk.sectors)
    {
      hide FileData, DecodeWords, EncodeWords, Overlaid, Table;
      freeMap := new Bitmap(NUM_SECTORS);
      FetchBitmap(freeMap, freeMapFile);
    }

    /** Creates a file, or refuses. `overrun` says that the allocation comes to a slot behind the header's last one; the
        source writes there, and here it ends, with nothing written to the disk. */
    method Create(name: seq<Byte>, initialSize: Int32) returns (success: bool, overrun: bool)
      requires Valid() && 0 <= initialSize
      modifies disk
      ensures Valid()
      ensures success <==> Creatable(old(disk.sectors), name, initialSize)
      ensures overrun <==> Overruns(old(disk.sectors), name, initialSize)
      ensures !success ==> disk.sectors == old(disk.sectors)
      ensures success ==> exists entry, h :: Created(old(disk.sectors), disk.sectors, name, initialSize, entry, h)
    {
      hide Consistent, FreeMap, Table, IndexOf, FreeSlot, CountClear, UpToNul, LayoutOf, Created, Key, RoomFor;
      var directory := FetchDirectory();
      var sector := directory.Find(name);
      FoundSector(disk.sectors, name);
      if sector != -1 {
        return false, false;
      }
      success, overrun := CreateNew(directory, name, initialSize);
    }

    /** The rest of Create, for a name that the directory does not list. */
    method CreateNew(directory: Directory, name: seq<Byte>, initialSize: Int32) returns (success: bool, overrun: bool)
      requires Valid() && 0 <= initialSize && IndexOf(Table(disk.sectors), name) == -1
      requires directory.Valid() && directory.tableSize == NUM_DIR_ENTRIES && directory.table[..] == Table(disk.sectors)
      modifies disk, directory.table
      ensures Valid()
      ensures success <==> RoomFor(old(disk.sectors), initialSize) && initialSize <= MAX_FILE_SIZE
      ensures overrun <==> RoomFor(old(disk.sectors), initialSize) && initialSize > MAX_FILE_SIZE
      ensures !success ==> disk.sectors == old(disk.sectors)
      ensures success ==> exists entry, h :: Created(old(disk.sectors), disk.sectors, name, initialSize, entry, h)
    {
      hide FileData, Bitmap.View, Taken, Consistent, FreeMap, Table, IndexOf, FreeSlot, CountClear, FirstClear, SetAll,
           AllAre, Distinct, StrNCpy, UpToNul, LayoutOf, Created, Addable, DataSectors, BlockCount, Key,
           DivRoundUp, FileSectors, HeaderOk;
      ghost var d := disk.sectors;
      ghost var bits := FreeMap(d);
      var freeMap := FetchFreeMap();
      var sector := freeMap.FindAndSet();
      if sector == -1 {
        NoneClear(bits);
        return false, false;
      }
      CountUpdate(bits, sector, true);
      var added := directory.Add(name, sector);
      if !added {
        return false, false;
      }
      var hdr := new FileHeader();
      var enough, past := hdr.Allocate(freeMap, initialSize);
      if !enough {
        return false, past;
      }
      SectorsOfHeader(bits[sector := true], hdr.Value(), freeMap.View());
      ghost var slot := FreeSlot(Table(d));
      ghost var entry := directory.table[slot];
      NewEntry(d, name, entry, Table(d)[slot].name, hdr.Value(), freeMap.View());
      CommitNew(hdr, sector, directory, freeMap, name, entry);
      return true, false;
    }

    /** Flushes a new file's header, the directory and the free map. */
    method CommitNew(hdr: FileHeader, sector: int, directory: Directory, freeMap: Bitmap, ghost name: seq<Byte>,
        ghost entry: DirEntry)
      requires Valid() && hdr.Valid() && directory.Valid() && freeMap.Valid()
      requires directory.tableSize == NUM_DIR_ENTRIES && freeMap.numBits == NUM_SECTORS
      requires FreeSlot(Table(disk.sectors)) != -1 && entry.sector == sector && Key(entry.name) == Key(name)
      requires Addable(disk.sectors, FreeSlot(Table(disk.sectors)), entry, hdr.Value())
      requires directory.table[..] == Table(disk.sectors)[FreeSlot(Table(disk.sectors)) := entry]
      requires freeMap.View() == SetAll(FreeMap(disk.sectors), FileSectors(sector, hdr.Value()), true)
      modifies disk
      ensures Valid()
      ensures Created(old(disk.sectors), disk.sectors, name, hdr.numBytes, entry, hdr.Value())
    {
      hide EncodeHeader, EncodeTable, EncodeWords, FileData, FreeMap, Consistent, Table, OnlyBlocksChanged,
           DecodeHeader,
           FreeSlot, SetAll, Distinct, AllAre, UpToNul;
      ghost var d := disk.sectors;
      MetadataFiles(d);
      hdr.WriteBack(disk, sector);
      ghost var d1 := disk.sectors;
      directory.WriteBack(directoryFile);
      ghost var d2 := disk.sectors;
      WriteBitmap(freeMap, freeMapFile);
      CommitCreate(d, d1, d2, disk.sectors, entry, hdr.Value(), name, freeMap.words[..]);
      CreatedLayout(d, disk.sectors, name, hdr.numBytes, entry, hdr.Value());
    }

    /** Opens a file by name; its header is the one of the directory entry for that name. */
    method Open(name: seq<Byte>) returns (file: OpenFile?)
      requires Valid()
      ensures file != null <==> IndexOf(Table(disk.sectors), name) != -1
      ensures file != null ==> fresh(file) && file.disk == disk && file.seekPosition == 0
      ensures file != null ==> file.hdr == LayoutOf(disk.sectors).headers[IndexOf(Table(disk.sectors), name)]
    {
      hide Consistent, Table, DecodeHeader, IndexOf;
      var directory := FetchDirectory();
      var sector := directory.Find(name);
      FoundSector(disk.sectors, name);
      file := null;
      if sector >= 0 {
        file := new OpenFile(disk, sector);
      }
    }

    method Remove(name: seq<Byte>) returns (success: bool)
      requires Valid()
      modifies disk
      ensures Valid()
      ensures success <==> IndexOf(Table(old(disk.sectors)), name) != -1
      ensures !success ==> disk.sectors == old(disk.sectors)
      ensures success ==> Removed(old(disk.sectors), disk.sectors, name)
    {
      hide FileData, Bitmap.View, Consistent, FreeMap, Table, IndexOf, SetAll, AllAre, Distinct, DecodeHeader,
           LayoutOf, Removed, FileSectors, HeaderOk;
      var directory := FetchDirectory();
      var sector := directory.Find(name);
      FoundSector(disk.sectors, name);
      if sector == -1 {
        return false;
      }
      var freeMap := ReleaseSectors(sector, IndexOf(Table(disk.sectors), name));
      var _ := directory.Remove(name);
      CommitGone(directory, freeMap, name);
      return true;
    }

    /** Gives back, in a copy of the free map, the data sectors and the header sector of the file in entry `e`. */
    method ReleaseSectors(sector: int, ghost e: nat) returns (freeMap: Bitmap)
      requires Valid() && e < NUM_DIR_ENTRIES && Table(disk.sectors)[e].inUse && sector == Table(disk.sectors)[e].sector
      ensures fresh(freeMap) && fresh(freeMap.words) && freeMap.Valid() && freeMap.numBits == NUM_SECTORS
      ensures HeaderOk(LayoutOf(disk.sectors).headers[e])
      ensures freeMap.View() ==
        SetAll(FreeMap(disk.sectors), FileSectors(sector, LayoutOf(disk.sectors).headers[e]), false)
    {
      hide FileData, Bitmap.View, Consistent, FreeMap, Table, SetAll, AllAre, Distinct, DecodeHeader, LayoutOf;
      ReleaseFile(disk.sectors, e);
      var fileHdr := new FileHeader();
      fileHdr.FetchFrom(disk, sector);
      freeMap := FetchFreeMap();
      fileHdr.Deallocate(freeMap);
      freeMap.Clear(sector);
    }

    /** Flushes the free map and the directory after a file was dropped. */
    method CommitGone(directory: Directory, freeMap: Bitmap, ghost name: seq<Byte>)
      requires Valid() && directory.Valid() && freeMap.Valid()
      requires directory.tableSize == NUM_DIR_ENTRIES && freeMap.numBits == NUM_SECTORS
      requires IndexOf(Table(disk.sectors), name) != -1
      requires var (d, e) := (disk.sectors, IndexOf(Table(disk.sectors), name));
        && directory.table[..] == Table(d)[e := Table(d)[e].(inUse := false)]
        && freeMap.View() == SetAll(FreeMap(d), FileSectors(Table(d)[e].sector, LayoutOf(d).headers[e]), false)
      modifies disk
      ensures Valid() && Removed(old(disk.sectors), disk.sectors, name)
    {
      hide EncodeTable, EncodeWords, FileData, FreeMap, Consistent, Table, OnlyBlocksChanged, DecodeHeader, IndexOf,
           SetAll, Distinct;
      ghost var d := disk.sectors;
      MetadataFiles(d);
      WriteBitmap(freeMap, freeMapFile);
      ghost var d1 := disk.sectors;
      directory.WriteBack(directoryFile);
      CommitRemove(d, d1, disk.sectors, name, freeMap.words[..]);
      RemovedLayout(d, disk.sectors, name);
    }
  }

  /** One byte over the limit: on any disk, newly formatted, creating such a file overruns its header. */
  method CreateTooLong(disk: SynchDisk, name: seq<Byte>) returns (overrun: bool)
    modifies disk
    ensures overrun
  {
    var fs := new FileSystem(true, disk);
    FreshDiskOverruns(disk.sectors, name, MAX_FILE_SIZE + 1);
    var success;
    success, overrun := fs.Create(name, MAX_FILE_SIZE + 1);
  }
}

/** Which names are different files: names that differ, before either ends, within the nine characters that are
    stored and compared. */
module NamedFiles {
  import opened Bytes
  import opened FreeMaps
  import opened Bitmaps
  import opened DiskGeometry
  import opened DiskLayout
  import opened OpenFiles
  import opened FileHeaders
  import opened Directories
  import opened VolumeContents
  import opened FileSystems
  import opened FileSystemRuns

  /** The names are of different files. */
  ghost predicate Differ(a: seq<Byte>, b: seq<Byte>) {
    exists k: nat :: k < 9 && DifferAt(a, b, k)
  }

  /** "chapter0" */
  const CHAPTER: seq<Byte> := [99, 104, 97, 112, 116, 101, 114, 48]

  /** The ninth character makes a difference, and the tenth does not: chapter01 and chapter02 are different files,
      chapter012 and chapter013 are not. */
  lemma NinthCharacterCounts()
    ensures Differ(CHAPTER + [49], CHAPTER + [50])
    ensures !Differ(CHAPTER + [49, 50], CHAPTER + [49, 51])
  {
    var a, b := CHAPTER + [49], CHAPTER + [50];
    assert a[..8] == b[..8] == CHAPTER;
    assert DifferAt(a, b, 8);
  }

  ghost predicate Listed(d: Disk, name: seq<Byte>) {
    IndexOf(Table(d), name) != -1
  }

  lemma DifferentKeys(a: seq<Byte>, b: seq<Byte>)
    ensures Key(a) != Key(b) <==> Differ(a, b)
  {
    UnequalIfDiffer(a, b, FILE_NAME_MAX_LEN);
  }

  /** After a file was created, exactly the names listed before are listed, and those that do not differ from its name. */
  lemma CreatedLists(d: Disk, d': Disk, name: seq<Byte>, size: Int32, entry: DirEntry, h: Header, other: seq<Byte>)
    requires Consistent(d) && Created(d, d', name, size, entry, h)
    ensures Consistent(d') && !Listed(d, name) && Listed(d', name)
    ensures Listed(d', other) <==> Listed(d, other) || !Differ(name, other)
  {
    hide Consistent, Table, Files, IndexOf, Created, Differ, UpToNul, FreeMap, Listing, OthersKept;
    CreateAddsFile(d, d', name, size, entry, h);
    HeaderByKey(d, name);
    HeaderByKey(d', name);
    HeaderByKey(d, other);
    HeaderByKey(d', other);
    DifferentKeys(name, other);
  }

  /** After a file was removed, exactly the names listed before are listed that differ from its name. */
  lemma RemovedUnlists(d: Disk, d': Disk, name: seq<Byte>, other: seq<Byte>)
    requires Consistent(d) && Removed(d, d', name)
    ensures Consistent(d') && Listed(d, name) && !Listed(d', name)
    ensures Listed(d', other) <==> Listed(d, other) && Differ(name, other)
  {
    hide Consistent, Table, Files, IndexOf, Removed, Differ, UpToNul, FreeMap, Listing, OthersKept;
    RemoveDropsFile(d, d', name);
    HeaderByKey(d, name);
    HeaderByKey(d', name);
    HeaderByKey(d, other);
    HeaderByKey(d', other);
    DifferentKeys(name, other);
  }

  /** Creating one file leaves another creatable exactly if the names differ, as long as a second directory entry is
      free and there are sectors enough for both. */
  lemma CreatedLeavesCreatable(d: Disk, d': Disk, name: seq<Byte>, size: Int32, entry: DirEntry, h: Header,
      other: seq<Byte>, otherSize: nat)
    requires Consistent(d) && Created(d, d', name, size, entry, h) && otherSize <= MAX_FILE_SIZE
    ensures Consistent(d')
    ensures Creatable(d', other, otherSize) <==>
      && !Listed(d, other) && Differ(name, other)
      && TwoFree(Table(d))
      && 2 + DivRoundUp(size, SECTOR_SIZE) + DivRoundUp(otherSize, SECTOR_SIZE) <= CountClear(FreeMap(d))
  {
    CreatedLists(d, d', name, size, entry, h, other);
    CreateAddsFile(d, d', name, size, entry, h);
    CreatedLayout(d, d', name, size, entry, h);
    SecondSlot(Table(d), entry);
    assert Table(d') == LayoutOf(d').table;
    hide Consistent, Table, Files, IndexOf, Created, Differ, UpToNul, FreeMap, Listing, OthersKept, CountClear, DivRoundUp;
  }

  ghost predicate TwoFree(table: seq<DirEntry>) {
    exists i, j :: 0 <= i < j < |table| && !table[i].inUse && !table[j].inUse
  }

  lemma SecondSlot(table: seq<DirEntry>, entry: DirEntry)
    requires FreeSlot(table) != -1 && entry.inUse
    ensures FreeSlot(table[FreeSlot(table) := entry]) != -1 <==> TwoFree(table)
  {
    var slot := FreeSlot(table);
    var slot' := FreeSlot(table[slot := entry]);
    if slot' != -1 {
      assert slot < slot' && !table[slot'].inUse;
    } else if i, j :| 0 <= i < j < |table| && !table[i].inUse && !table[j].inUse {
      assert table[slot := entry][if i == slot then j else i].inUse;
    }
  }

  /** The disk is as Format leaves it. */
  ghost predicate NewlyFormatted(d: Disk) {
    && Consistent(d) && (forall e :: 0 <= e < NUM_DIR_ENTRIES ==> !Table(d)[e].inUse)
    && (forall s :: 0 <= s < NUM_SECTORS ==> (FreeMap(d)[s] <==> s < 5))
  }

  /** Creating one file leaves another creatable exactly if the names differ: on a newly formatted disk. */
  lemma RoomForTwo(d: Disk, d': Disk, name: seq<Byte>, size: Int32, entry: DirEntry, h: Header, other: seq<Byte>,
      otherSize: nat)
    requires NewlyFormatted(d) && Created(d, d', name, size, entry, h) && 0 <= size <= MAX_FILE_SIZE
    requires otherSize <= MAX_FILE_SIZE
    ensures Consistent(d') && (Creatable(d', other, otherSize) <==> Differ(name, other))
    ensures !Overruns(d', other, otherSize)
  {
    hide Consistent, Table, Files, Created, Differ, UpToNul, FreeMap, CountClear, DivRoundUp;
    assert !Listed(d, other);
    CountBehind(FreeMap(d), 5);
    SlotsSuffice(size);
    SlotsSuffice(otherSize);
    assert !Table(d)[0].inUse && !Table(d)[1].inUse;
    CreatedLeavesCreatable(d, d', name, size, entry, h, other, otherSize);
  }

  lemma NothingListed(d: Disk)
    requires NewlyFormatted(d)
    ensures forall name :: !Listed(d, name)
  {
    hide Consistent, Table, StrNEqual, FreeMap;
  }

  /** On any newly formatted disk two files can be created one after the other exactly if their names differ. */
  method CreateTwo(disk: SynchDisk, a: seq<Byte>, b: seq<Byte>, sizeA: Int32, sizeB: Int32)
      returns (fs: FileSystem, both: bool)
    requires 0 <= sizeA <= MAX_FILE_SIZE && 0 <= sizeB <= MAX_FILE_SIZE
    modifies disk
    ensures fs.Valid() && fs.disk == disk && (both <==> Differ(a, b))
    ensures Listed(disk.sectors, a) && Listed(disk.sectors, b)
    ensures forall name :: Listed(disk.sectors, name) <==> !Differ(a, name) || (both && !Differ(b, name))
  {
    hide Consistent, Table, Created, Differ, FreeMap, LayoutOf, Creatable, Overruns, IndexOf;
    fs := new FileSystem(true, disk);
    ghost var d := disk.sectors;
    NothingListed(d);
    FreshDiskOverruns(d, a, sizeA);
    var first, past := fs.Create(a, sizeA);
    ghost var d1 := disk.sectors;
    ghost var entry, h :| Created(d, d1, a, sizeA, entry, h);
    RoomForTwo(d, d1, a, sizeA, entry, h, b, sizeB);
    both, past := fs.Create(b, sizeB);
    forall name ensures Listed(disk.sectors, name) <==> !Differ(a, name) || (both && !Differ(b, name)) {
      CreatedLists(d, d1, a, sizeA, entry, h, name);
      if both {
        ghost var entry', h' :| Created(d1, disk.sectors, b, sizeB, entry', h');
        CreatedLists(d1, disk.sectors, b, sizeB, entry', h', name);
      }
    }
    SameNames(a, b);
  }

  lemma SameNames(a: seq<Byte>, b: seq<Byte>)
    ensures !Differ(a, a) && !Differ(b, b) && (Differ(a, b) <==> Differ(b, a))
  {
    DifferentKeys(a, a);
    DifferentKeys(b, b);
    DifferentKeys(a, b);
    DifferentKeys(b, a);
  }
}

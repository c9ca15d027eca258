/** File headers in memory: taking data blocks from the free map and giving them back. */
module FileHeaders {
  import opened Bytes
  import opened FreeMaps
  import opened Bitmaps
  import opened DiskGeometry
  import opened DiskLayout
  import opened OpenFiles

  /** Copies a value laid out in memory into a buffer. */
  method ToBuffer(s: seq<Byte>) returns (buf: array<Byte>)
    ensures fresh(buf) && buf[..] == s
  {
    buf := new Byte[|s|](i requires 0 <= i < |s| => s[i]);
  }

  /** The sectors handed out so far: in increasing order, free before, and the lowest ones there were. */
  ghost predicate Taken(bits: seq<bool>, taken: seq<int>, now: seq<bool>) {
    && (forall i, j :: 0 <= i < j < |taken| ==> taken[i] < taken[j])
    && AllAre(bits, taken, false)
    && now == SetAll(bits, taken, true)
    && (forall k, s :: 0 <= k < |taken| && 0 <= s < taken[k] ==> now[s])
  }

  lemma NothingTaken(bits: seq<bool>)
    ensures Taken(bits, [], bits)
  {
  }

  lemma TakeOneMore(bits: seq<bool>, taken: seq<int>, now: seq<bool>)
    requires Taken(bits, taken, now) && |taken| < CountClear(bits)
    ensures var r := FirstClear(now);
      r >= 0 && Taken(bits, taken + [r], now[r := true])
  {
    hide CountClear, FirstClear, SetAll;
    CountSetAll(bits, taken, true);
    ClearBitExists(now);
    SetOneMore(bits, taken, FirstClear(now), true);
  }

  lemma GiveBackOneMore(bits: seq<bool>, given: seq<int>, i: nat)
    requires Distinct(given) && AllAre(bits, given, true) && i < |given|
    ensures SetAll(bits, given[..i], false)[given[i]]
    ensures SetAll(bits, given[..i + 1], false) == SetAll(bits, given[..i], false)[given[i] := false]
  {
    SetOneMore(bits, given[..i], given[i], false);
    assert given[..i + 1] == given[..i] + [given[i]];
  }

  /** A file's blocks fit into the slots of a header exactly if the file is not over the limit. */
  lemma SlotsSuffice(size: nat)
    ensures DivRoundUp(size, SECTOR_SIZE) <= NUM_DIRECT <==> size <= MAX_FILE_SIZE
  {
  }

  class FileHeader {
    var numBytes: Int32
    var numSectors: Int32
    const dataSectors: array<Int32>

    ghost predicate Valid() {
      dataSectors.Length == NUM_DIRECT
    }

    function Value(): Header
      requires Valid()
      reads this, dataSectors
    {
      HeaderFields(numBytes, numSectors, dataSectors[..])
    }

    /** The fields of a new header hold whatever was in memory. */
    constructor ()
      ensures Valid() && fresh(dataSectors)
    {
      dataSectors := new Int32[NUM_DIRECT];
    }

    method FetchFrom(disk: SynchDisk, sector: int)
      requires Valid() && 0 <= sector < NUM_SECTORS
      modifies this, dataSectors
      ensures Value() == DecodeHeader(disk.sectors[sector])
    {
      var buf := ToBuffer(EncodeHeader(Value()));
      disk.ReadSector(sector, buf, 0);
      var h := DecodeHeader(buf[..]);
      assert buf[..] == disk.sectors[sector];
      numBytes, numSectors := h.numBytes, h.numSectors;
      forall i | 0 <= i < NUM_DIRECT {
        dataSectors[i] := h.dataSectors[i];
      }
      assert dataSectors[..] == h.dataSectors;
    }

    method WriteBack(disk: SynchDisk, sector: int)
      requires Valid() && 0 <= sector < NUM_SECTORS
      modifies disk
      ensures disk.sectors == old(disk.sectors)[sector := EncodeHeader(Value())]
    {
      var buf := ToBuffer(EncodeHeader(Value()));
      disk.WriteSector(sector, buf, 0);
      assert buf[0..SECTOR_SIZE] == buf[..];
    }

    /** Takes the lowest free sectors for a file of `fileSize` bytes; refuses exactly when there are too few. `overrun`
        says that the loop has filled all slots and goes on to one behind them: the source then writes past the header,
        and here it ends. That is so exactly for a size above the limit with enough sectors free for it. */
    method Allocate(freeMap: Bitmap, fileSize: Int32) returns (ok: bool, overrun: bool)
      requires Valid() && freeMap.Valid() && freeMap.numBits <= NUM_SECTORS
      requires freeMap.words as object != dataSectors
      requires 0 <= fileSize
      modifies this, dataSectors, freeMap.words
      ensures ok || overrun <==> DivRoundUp(fileSize, SECTOR_SIZE) <= CountClear(old(freeMap.View()))
      ensures overrun <==> fileSize > MAX_FILE_SIZE && DivRoundUp(fileSize, SECTOR_SIZE) <= CountClear(old(freeMap.View()))
      ensures !(ok && overrun)
      ensures !ok && !overrun ==> freeMap.View() == old(freeMap.View())
      ensures overrun ==> numSectors > |dataSectors[..]| && Taken(old(freeMap.View()), dataSectors[..], freeMap.View())
      ensures ok ==> numBytes == fileSize && numSectors == DivRoundUp(fileSize, SECTOR_SIZE) == BlockCount(Value())
      ensures ok ==> Taken(old(freeMap.View()), DataSectors(Value()), freeMap.View())
    {
      hide Bitmap.View, Taken;
      SlotsSuffice(fileSize);
      numBytes := fileSize;
      numSectors := DivRoundUp(fileSize, SECTOR_SIZE);
      var free := freeMap.NumClear();
      if free < numSectors {
        return false, false;
      }
      ghost var bits := freeMap.View();
      NothingTaken(bits);
      assert dataSectors[..0] == [];
      for i := 0 to numSectors
        invariant numBytes == fileSize && numSectors == DivRoundUp(fileSize, SECTOR_SIZE)
        invariant i <= dataSectors.Length && Taken(bits, dataSectors[..i], freeMap.View())
      {
        if i == dataSectors.Length {
          assert dataSectors[..i] == dataSectors[..];
          return false, true;
        }
        ghost var taken := dataSectors[..i];
        TakeOneMore(bits, taken, freeMap.View());
        var r := freeMap.FindAndSet();
        assert r >= 0;
        dataSectors[i] := r;
        assert dataSectors[..i + 1] == taken + [r];
      }
      return true, false;
    }

    /** Gives back every data block; the source's check that each one is marked never fails. */
    method Deallocate(freeMap: Bitmap)
      requires Valid() && freeMap.Valid() && freeMap.words as object != dataSectors
      requires numSectors == BlockCount(Value()) <= NUM_DIRECT
      requires Distinct(DataSectors(Value())) && AllAre(freeMap.View(), DataSectors(Value()), true)
      modifies freeMap.words
      ensures freeMap.View() == SetAll(old(freeMap.View()), DataSectors(Value()), false)
    {
      hide Bitmap.View;
      ghost var bits, given := freeMap.View(), DataSectors(Value());
      assert SetAll(bits, given[..0], false) == bits;
      for i := 0 to numSectors
        invariant freeMap.View() == SetAll(bits, given[..i], false)
      {
        GiveBackOneMore(bits, given, i);
        assert dataSectors[i] == given[i];
        assert freeMap.Test(dataSectors[i]);
        freeMap.Clear(dataSectors[i]);
      }
      assert given[..numSectors] == given;
    }
  }
}

/** What the file system stores in sectors: file headers, directory entries, the free map. */
module DiskLayout {
  import opened Bytes
  import opened DiskGeometry

  const NUM_DIRECT: nat := 30
  const MAX_FILE_SIZE: nat := NUM_DIRECT * SECTOR_SIZE
  const NUM_DIR_ENTRIES: nat := 10
  const FILE_NAME_MAX_LEN: nat := 9
  const DIR_ENTRY_SIZE: nat := 20
  const FREE_MAP_SECTOR: nat := 0
  const DIRECTORY_SECTOR: nat := 1
  const FREE_MAP_FILE_SIZE: nat := NUM_SECTORS / 8
  const DIRECTORY_FILE_SIZE: nat := DIR_ENTRY_SIZE * NUM_DIR_ENTRIES

  type Sector = s: seq<Byte> | |s| == SECTOR_SIZE witness seq(SECTOR_SIZE, _ => 0)
  const BLANK_SECTOR: Sector := seq(SECTOR_SIZE, _ => 0)
  type Disk = d: seq<Sector> | |d| == NUM_SECTORS witness seq(NUM_SECTORS, _ => BLANK_SECTOR)

  datatype HeaderFields = HeaderFields(numBytes: Int32, numSectors: Int32, dataSectors: seq<Int32>)

  type Header = h: HeaderFields | |h.dataSectors| == NUM_DIRECT witness HeaderFields(0, 0, seq(NUM_DIRECT, _ => 0))

  type StoredName = s: seq<Byte> | |s| == FILE_NAME_MAX_LEN + 1 witness seq(FILE_NAME_MAX_LEN + 1, _ => 0)

  datatype DirEntry = DirEntry(inUse: bool, sector: Int32, name: StoredName)

  function EncodeHeader(h: Header): Sector {
    PackLength(EncodeInt, 4, h.dataSectors);
    EncodeInt(h.numBytes) + EncodeInt(h.numSectors) + Pack(EncodeInt, h.dataSectors)
  }

  function DecodeHeader(s: Sector): Header {
    HeaderFields(DecodeInt(s[..4]), DecodeInt(s[4..8]), Unpack(DecodeInt, 4, NUM_DIRECT, s[8..]))
  }

  lemma HeaderRoundTrip(h: Header)
    ensures DecodeHeader(EncodeHeader(h)) == h
  {
    forall x: Int32
      ensures |EncodeInt(x)| == 4 && DecodeInt(EncodeInt(x)) == x
    {
      IntRoundTrip(x);
    }
    PackLength(EncodeInt, 4, h.dataSectors);
    PackRoundTrip(EncodeInt, DecodeInt, 4, h.dataSectors);
    var s := EncodeHeader(h);
    assert s[..4] == EncodeInt(h.numBytes);
    assert s[4..8] == EncodeInt(h.numSectors);
    assert s[8..] == Pack(EncodeInt, h.dataSectors);
  }

  /** One entry takes 20 bytes: the flag, three bytes of padding, the sector, the name, two bytes of padding. */
  function EncodeEntry(e: DirEntry): (s: seq<Byte>)
    ensures |s| == DIR_ENTRY_SIZE
  {
    [if e.inUse then 1 else 0, 0, 0, 0] + EncodeInt(e.sector) + e.name + [0, 0]
  }

  function DecodeEntry(s: seq<Byte>): DirEntry {
    if |s| != DIR_ENTRY_SIZE then DirEntry(false, 0, seq(FILE_NAME_MAX_LEN + 1, _ => 0))
    else DirEntry(s[0] != 0, DecodeInt(s[4..8]), s[8..8 + FILE_NAME_MAX_LEN + 1])
  }

  lemma EntryRoundTrip(e: DirEntry)
    ensures DecodeEntry(EncodeEntry(e)) == e
  {
    hide EncodeInt, DecodeInt;
    IntRoundTrip(e.sector);
    var s := EncodeEntry(e);
    assert s[4..8] == EncodeInt(e.sector);
    assert s[8..8 + FILE_NAME_MAX_LEN + 1] == e.name;
  }

  /** The fields of a header in its sector: the two lengths, and then the sectors, four bytes each. */
  lemma HeaderLayout(h: Header, i: nat)
    requires i < NUM_DIRECT
    ensures var s := EncodeHeader(h);
      && s[..4] == EncodeInt(h.numBytes) && s[4..8] == EncodeInt(h.numSectors)
      && s[8 + 4 * i..12 + 4 * i] == EncodeInt(h.dataSectors[i])
  {
    PackLength(EncodeInt, 4, h.dataSectors);
    PackAt(EncodeInt, 4, h.dataSectors, i);
    var s := EncodeHeader(h);
    hide EncodeInt;
    assert s[8..] == Pack(EncodeInt, h.dataSectors);
    assert s[8 + 4 * i..12 + 4 * i] == s[8..][4 * i..4 * i + 4];
  }

  /** Entry `i` of the directory starts at byte 20 i: the flag, the sector from byte 4 on, the name from byte 8 on. */
  lemma TableLayout(table: seq<DirEntry>, i: nat)
    requires i < |table|
    ensures 20 * i + 20 <= |EncodeTable(table)|
    ensures var s, e := EncodeTable(table)[20 * i..20 * i + 20], table[i];
      (s[0] == if e.inUse then 1 else 0) && s[4..8] == EncodeInt(e.sector) && s[8..18] == e.name
  {
    hide EncodeInt;
    PackAt(EncodeEntry, DIR_ENTRY_SIZE, table, i);
  }

  function EncodeTable(table: seq<DirEntry>): seq<Byte> {
    Pack(EncodeEntry, table)
  }

  function DecodeTable(count: nat, s: seq<Byte>): (table: seq<DirEntry>)
    ensures |table| == count
  {
    Unpack(DecodeEntry, DIR_ENTRY_SIZE, count, s)
  }

  lemma TableRoundTrip(table: seq<DirEntry>)
    ensures |EncodeTable(table)| == DIR_ENTRY_SIZE * |table|
    ensures DecodeTable(|table|, EncodeTable(table)) == table
  {
    forall e: DirEntry
      ensures |EncodeEntry(e)| == DIR_ENTRY_SIZE && DecodeEntry(EncodeEntry(e)) == e
    {
      EntryRoundTrip(e);
    }
    PackLength(EncodeEntry, DIR_ENTRY_SIZE, table);
    PackRoundTrip(EncodeEntry, DecodeEntry, DIR_ENTRY_SIZE, table);
  }

  function EncodeWords(words: seq<bv32>): seq<Byte> {
    Pack(EncodeWord, words)
  }

  function DecodeWords(count: nat, s: seq<Byte>): (words: seq<bv32>)
    ensures |words| == count
  {
    Unpack(DecodeWord, 4, count, s)
  }

  lemma WordsRoundTrip(words: seq<bv32>)
    ensures |EncodeWords(words)| == 4 * |words|
    ensures DecodeWords(|words|, EncodeWords(words)) == words
  {
    hide EncodeWord, DecodeWord;
    forall w: bv32
      ensures |EncodeWord(w)| == 4 && DecodeWord(EncodeWord(w)) == w
    {
      WordRoundTrip(w);
    }
    PackLength(EncodeWord, 4, words);
    PackRoundTrip(EncodeWord, DecodeWord, 4, words);
  }

  /** The first `n` characters of a C string, up to its terminator: it ends there, or with the string, or after `n`. */
  function UpToNul(s: seq<Byte>, n: nat): (r: seq<Byte>)
    ensures |r| <= n && |r| <= |s| && r == s[..|r|] && 0 !in r
    ensures |r| == n || |r| == |s| || s[|r|] == 0
  {
    if n == 0 || s == [] || s[0] == 0 then [] else [s[0]] + UpToNul(s[1..], n - 1)
  }

  /** The character at place `k` of a C string, if the string goes on with zeros from its terminator on. */
  function CharAt(s: seq<Byte>, k: nat): Byte {
    if k < |s| && 0 !in s[..k] then s[k] else 0
  }

  /** The C library's `strncpy` into a buffer. */
  function StrNCpy(dst: seq<Byte>, src: seq<Byte>, n: nat): (r: seq<Byte>)
    requires n <= |dst|
    ensures |r| == |dst| && r[n..] == dst[n..]
    ensures forall k :: 0 <= k < n ==> r[k] == CharAt(src, k)
  {
    var copied := UpToNul(src, n);
    assert forall k :: 0 <= k < |copied| ==> src[k] == copied[k] && 0 !in copied[..k] && src[..k] == copied[..k];
    assert |copied| < n && |copied| < |src| ==> src[|copied|] == 0;
    copied + seq(n - |copied|, _ => 0) + dst[n..]
  }

  /** `strncmp(a, b, n) == 0`. */
  predicate StrNEqual(a: seq<Byte>, b: seq<Byte>, n: nat) {
    UpToNul(a, n) == UpToNul(b, n)
  }

  lemma CharsOf(s: seq<Byte>, n: nat, k: nat)
    requires k < n
    ensures CharAt(s, k) == if k < |UpToNul(s, n)| then UpToNul(s, n)[k] else 0
  {
    var r := UpToNul(s, n);
    if k < |r| {
      assert s[..k] == r[..k];
    } else if |r| < k < |s| {
      assert s[..k][|r|] == 0;
    }
  }

  /** Two strings are equal on `n` characters exactly if they have the same characters at the first `n` places. */
  lemma EqualIfSameChars(a: seq<Byte>, b: seq<Byte>, n: nat)
    ensures StrNEqual(a, b, n) <==> forall k: nat :: k < n ==> CharAt(a, k) == CharAt(b, k)
  {
    var p, q := UpToNul(a, n), UpToNul(b, n);
    forall k: nat | k < n
      ensures CharAt(a, k) == if k < |p| then p[k] else 0
      ensures CharAt(b, k) == if k < |q| then q[k] else 0
    {
      CharsOf(a, n, k);
      CharsOf(b, n, k);
    }
    if |p| < |q| {
      assert q[|p|] != 0 && CharAt(b, |p|) == q[|p|] && CharAt(a, |p|) == 0;
    } else if |q| < |p| {
      assert p[|q|] != 0 && CharAt(a, |q|) == p[|q|] && CharAt(b, |q|) == 0;
    } else if forall k: nat :: k < n ==> CharAt(a, k) == CharAt(b, k) {
      assert forall k: nat :: k < |p| ==> p[k] == CharAt(a, k) && q[k] == CharAt(b, k);
      assert p == q;
    }
  }

  /** The names differ within `n` characters, before either has come to its end. */
  predicate DifferAt(a: seq<Byte>, b: seq<Byte>, k: nat) {
    && k <= |a| && k <= |b| && 0 !in a[..k] && 0 !in b[..k]
    && (if k < |a| then a[k] else 0) != (if k < |b| then b[k] else 0)
  }

  /** Two strings are not equal on `n` characters exactly if at one of these places they differ for the first time, or
      one has come to its end and the other has not. */
  lemma UnequalIfDiffer(a: seq<Byte>, b: seq<Byte>, n: nat)
    ensures !StrNEqual(a, b, n) <==> exists k: nat :: k < n && DifferAt(a, b, k)
  {
    EqualIfSameChars(a, b, n);
    if k: nat :| k < n && DifferAt(a, b, k) {
      assert CharAt(a, k) != CharAt(b, k);
    }
    if !StrNEqual(a, b, n) {
      var k := FirstDifference(a, b, n, 0);
      assert DifferAt(a, b, k);
    }
  }

  /** Behind its end a string has nothing but zeros. */
  lemma Ended(s: seq<Byte>, k: nat, later: nat)
    requires CharAt(s, k) == 0 && k <= later
    ensures CharAt(s, later) == 0
  {
    if later < |s| && k < later {
      assert s[k] != 0 ==> 0 in s[..k] && forall i :: 0 <= i < k ==> s[..later][i] == s[..k][i];
      assert s[..later][k] == s[k];
      if 0 in s[..k] {
        var i :| 0 <= i < k && s[..k][i] == 0;
        assert s[..later][i] == 0;
      }
    }
  }

  lemma {:induction false} FirstDifference(a: seq<Byte>, b: seq<Byte>, n: nat, from: nat) returns (k: nat)
    requires exists k: nat :: from <= k < n && CharAt(a, k) != CharAt(b, k)
    requires from <= |a| && from <= |b| && 0 !in a[..from] && 0 !in b[..from]
    ensures k < n && DifferAt(a, b, k)
    decreases n - from
  {
    if CharAt(a, from) != CharAt(b, from) {
      k := from;
    } else {
      if CharAt(a, from) == 0 {
        forall k: nat | from <= k < n ensures CharAt(a, k) == CharAt(b, k) == 0 {
          Ended(a, from, k);
          Ended(b, from, k);
        }
        assert false;
      }
      assert a[..from + 1] == a[..from] + [a[from]] && b[..from + 1] == b[..from] + [b[from]];
      k := FirstDifference(a, b, n, from + 1);
    }
  }

  lemma UpToNulIs(s: seq<Byte>, n: nat, r: seq<Byte>)
    requires |r| <= n && |r| <= |s| && r == s[..|r|] && 0 !in r
    requires |r| == n || |r| == |s| || s[|r|] == 0
    ensures UpToNul(s, n) == r
  {
    var p := UpToNul(s, n);
    assert forall i :: 0 <= i < |r| ==> s[i] == r[i] != 0;
    assert forall i :: 0 <= i < |p| ==> s[i] == p[i] != 0;
  }

  lemma UpToNulOfCopy(src: seq<Byte>, n: nat, rest: seq<Byte>)
    ensures var copied := UpToNul(src, n);
            UpToNul(copied + seq(n - |copied|, _ => 0) + rest, n) == copied
  {
    var copied := UpToNul(src, n);
    var padded := copied + seq(n - |copied|, _ => 0) + rest;
    UpToNulIs(padded, n, copied);
  }

  /** Only the first `n` characters of a stored name matter to later comparisons. */
  lemma StoredNameMatches(dst: seq<Byte>, src: seq<Byte>, other: seq<Byte>, n: nat)
    requires n <= |dst|
    ensures UpToNul(StrNCpy(dst, src, n), n) == UpToNul(src, n)
    ensures StrNEqual(StrNCpy(dst, src, n), other, n) <==> UpToNul(src, n) == UpToNul(other, n)
  {
    UpToNulOfCopy(src, n, dst[n..]);
  }
}

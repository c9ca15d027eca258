/** A file as bytes and a position: what one transfer does, and what a series of them adds up to. */
module FileChunks {
  import opened Bytes

  /** How many bytes a request transfers: it is cut at the end of the file. */
  function Clip(length: int, numBytes: int, position: nat): (n: nat)
    ensures n > 0 ==> n <= numBytes && position + n <= length
    ensures n == 0 <==> numBytes <= 0 || position >= length
    ensures n == 0 || n == numBytes || position + n == length
  {
    if numBytes <= 0 || position >= length then 0
    else if position + numBytes > length then length - position
    else numBytes
  }

  datatype Cursor = Cursor(data: seq<Byte>, position: nat)

  function WriteChunk(c: Cursor, chunk: seq<Byte>): Cursor {
    var n := Clip(|c.data|, |chunk|, c.position);
    if n == 0 then c else Cursor(Splice(c.data, c.position, chunk[..n]), c.position + n)
  }

  function ReadChunk(c: Cursor, size: nat): (seq<Byte>, Cursor) {
    var n := Clip(|c.data|, size, c.position);
    if n == 0 then ([], c) else (c.data[c.position..c.position + n], c.(position := c.position + n))
  }

  /** Writes the chunks one after the other. */
  function WriteChunks(c: Cursor, chunks: seq<seq<Byte>>): Cursor
    decreases |chunks|
  {
    if chunks == [] then c else WriteChunks(WriteChunk(c, chunks[0]), chunks[1..])
  }

  /** Reads chunks of the given sizes one after the other. */
  function ReadChunks(c: Cursor, sizes: seq<nat>): (seq<Byte>, Cursor)
    decreases |sizes|
  {
    if sizes == [] then ([], c)
    else
      var (s, c1) := ReadChunk(c, sizes[0]);
      var (t, c2) := ReadChunks(c1, sizes[1..]);
      (s + t, c2)
  }

  function Concat(chunks: seq<seq<Byte>>): seq<Byte> {
    if chunks == [] then [] else chunks[0] + Concat(chunks[1..])
  }

  function Sum(sizes: seq<nat>): nat {
    if sizes == [] then 0 else sizes[0] + Sum(sizes[1..])
  }

  lemma SpliceTwice(s: seq<Byte>, at: nat, t: seq<Byte>, u: seq<Byte>)
    requires at + |t| + |u| <= |s|
    ensures Splice(Splice(s, at, t), at + |t|, u) == Splice(s, at, t + u)
  {
  }

  lemma WriteTwice(c: Cursor, s: seq<Byte>, t: seq<Byte>)
    ensures WriteChunk(WriteChunk(c, s), t) == WriteChunk(c, s + t)
  {
    hide Splice;
    var n := Clip(|c.data|, |s|, c.position);
    var m := Clip(|c.data|, |t|, c.position + n);
    if n == 0 {
      assert s == [] ==> s + t == t;
    } else if m == 0 {
      assert (s + t)[..n] == s[..n];
    } else {
      assert s[..n] == s && s + t[..m] == (s + t)[..n + m];
      SpliceTwice(c.data, c.position, s, t[..m]);
    }
  }

  /** However the bytes are cut into chunks, writing them is one write of them all. */
  lemma {:induction false} WriteChunksIsOneWrite(c: Cursor, chunks: seq<seq<Byte>>)
    ensures WriteChunks(c, chunks) == WriteChunk(c, Concat(chunks))
    decreases |chunks|
  {
    if chunks == [] {
    } else {
      WriteChunksIsOneWrite(WriteChunk(c, chunks[0]), chunks[1..]);
      WriteTwice(c, chunks[0], Concat(chunks[1..]));
    }
  }

  lemma ReadTwice(c: Cursor, m: nat, n: nat)
    ensures var (s, c1) := ReadChunk(c, m);
            var (t, c2) := ReadChunk(c1, n);
            (s + t, c2) == ReadChunk(c, m + n)
  {
    var (s, c1) := ReadChunk(c, m);
    var (t, c2) := ReadChunk(c1, n);
    if t == [] {
      assert s + t == s;
    } else {
      assert s + t == c.data[c.position..c2.position];
    }
  }

  /** However the request is cut into chunks, reading it is one read of the whole. */
  lemma {:induction false} ReadChunksIsOneRead(c: Cursor, sizes: seq<nat>)
    ensures ReadChunks(c, sizes) == ReadChunk(c, Sum(sizes))
    decreases |sizes|
  {
    if sizes == [] {
    } else {
      ReadChunksIsOneRead(ReadChunk(c, sizes[0]).1, sizes[1..]);
      ReadTwice(c, sizes[0], Sum(sizes[1..]));
    }
  }

  /** Chunked writing, then going back and chunked reading with any other chunk sizes, gives back what was
      written: all of it that fits before the end of the file, as far as the reads ask for it. */
  lemma ChunkedRoundTrip(c: Cursor, chunks: seq<seq<Byte>>, sizes: seq<nat>)
    requires Sum(sizes) <= Clip(|c.data|, |Concat(chunks)|, c.position)
    ensures ReadChunks(WriteChunks(c, chunks).(position := c.position), sizes).0 == Concat(chunks)[..Sum(sizes)]
  {
    WriteChunksIsOneWrite(c, chunks);
    ReadChunksIsOneRead(WriteChunks(c, chunks).(position := c.position), sizes);
  }
}

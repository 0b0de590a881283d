/** The I2C bus as an appended trace of writes: a command byte (control prefix
    0x00) or a block of data bytes (control prefix 0x40). The trace that the
    driver's `show` emits for a framebuffer is defined here, with the facts
    about its layout. */
module Bus {
  import opened Framebuffer
  import opened Arith

  datatype Event = Cmd(b: byte) | Data(d: seq<byte>)

  /** Largest block the driver hands to the bus in one data write. */
  const ChunkSize: nat := 32

  /** Column start address used before every page: low nibble command 0x00 | 2, high nibble 0x10 | 0. */
  const ColOffset: byte := 2

  /** The data writes that send d[i..] in blocks of ChunkSize bytes, the last one possibly shorter. */
  function Chunks(d: seq<byte>, i: nat): seq<Event>
    decreases |d| - i
  {
    if i >= |d| then []
    else [Data(d[i..Min(i + ChunkSize, |d|)])] + Chunks(d, i + ChunkSize)
  }

  /** Concatenation of the data bytes of a trace, commands skipped. */
  function Payload(t: seq<Event>): seq<byte> {
    if t == [] then []
    else (if t[0].Data? then t[0].d else []) + Payload(t[1..])
  }

  /** A trace of command writes only carries no data. */
  lemma {:induction false} CommandsOnlyPayload(t: seq<Event>)
    requires forall i | 0 <= i < |t| :: t[i].Cmd?
    ensures Payload(t) == []
  {
    if t != [] {
      CommandsOnlyPayload(t[1..]);
    }
  }

  lemma {:induction false} PayloadAppend(s: seq<Event>, t: seq<Event>)
    ensures Payload(s + t) == Payload(s) + Payload(t)
  {
    if s == [] {
      assert s + t == t;
    } else {
      assert (s + t)[0] == s[0] && (s + t)[1..] == s[1..] + t;
      PayloadAppend(s[1..], t);
    }
  }

  /** Every block of Chunks is a nonempty data write of at most ChunkSize bytes. */
  lemma {:induction false} ChunksBounded(d: seq<byte>, i: nat)
    ensures forall e | e in Chunks(d, i) :: e.Data? && 0 < |e.d| <= ChunkSize
    decreases |d| - i
  {
    if i < |d| {
      ChunksBounded(d, i + ChunkSize);
    }
  }

  /** The blocks, concatenated in order, are exactly the bytes they were cut from. */
  lemma {:induction false} ChunksPayload(d: seq<byte>, i: nat)
    requires i <= |d|
    ensures Payload(Chunks(d, i)) == d[i..]
    decreases |d| - i
  {
    if i < |d| {
      var j := Min(i + ChunkSize, |d|);
      PayloadAppend([Data(d[i..j])], Chunks(d, i + ChunkSize));
      assert Payload([Data(d[i..j])]) == d[i..j];
      if j < |d| {
        ChunksPayload(d, j);
      } else {
        assert Chunks(d, i + ChunkSize) == [];
      }
      assert d[i..] == d[i..j] + d[j..];
    }
  }

  /** Number of blocks: the byte count divided by ChunkSize, rounded up. */
  lemma {:induction false} ChunksCount(d: seq<byte>, i: nat)
    requires i <= |d|
    ensures |Chunks(d, i)| == (|d| - i + ChunkSize - 1) / ChunkSize
    decreases |d| - i
  {
    if i < |d| {
      ChunksCount(d, Min(i + ChunkSize, |d|));
      assert Chunks(d, i + ChunkSize) == Chunks(d, Min(i + ChunkSize, |d|));
    }
  }

  /** A 128-byte page goes out as exactly four 32-byte blocks, in order. */
  lemma PageChunks(d: seq<byte>)
    requires |d| == Width
    ensures Chunks(d, 0) == [Data(d[0..32]), Data(d[32..64]), Data(d[64..96]), Data(d[96..128])]
  {
    assert Chunks(d, 128) == [];
    assert Chunks(d, 96) == [Data(d[96..128])];
    assert Chunks(d, 64) == [Data(d[64..96])] + Chunks(d, 96);
    assert Chunks(d, 32) == [Data(d[32..64])] + Chunks(d, 64);
  }

  /** Address commands written before page p: page select, column low nibble, column high nibble. */
  function PagePreamble(p: nat): (t: seq<Event>)
    requires p < Pages
    ensures t == [Cmd(0xB0 + p as byte), Cmd(0x02), Cmd(0x10)]
  {
    [Cmd(0xB0 + p as byte), Cmd(0x00 + (ColOffset & 0x0F)), Cmd(0x10 + ((ColOffset >> 4) & 0x0F))]
  }

  /** The preamble carries no data. */
  lemma PreamblePayload(p: nat)
    requires p < Pages
    ensures Payload(PagePreamble(p)) == []
  {
    var t := PagePreamble(p);
    assert t[1..][1..][1..] == [];
    assert Payload(t[1..][1..]) == Payload(t[1..][1..][1..]);
    assert Payload(t[1..]) == Payload(t[1..][1..]);
  }

  /** Bytes of page p of a framebuffer. */
  function PageBytes(buf: seq<byte>, p: nat): (r: seq<byte>)
    requires |buf| == BufferSize && p < Pages
    ensures |r| == Width
  {
    buf[p * Width .. p * Width + Width]
  }

  /** What `show` writes for page p: the address commands, then the page's bytes in blocks. */
  function PageTrace(buf: seq<byte>, p: nat): seq<Event>
    requires |buf| == BufferSize && p < Pages
  {
    PagePreamble(p) + Chunks(PageBytes(buf, p), 0)
  }

  /** Regrouping a four-part trace; keeps the per-page step of `Show` cheap for the solver. */
  lemma AppendAssoc(a: seq<Event>, b: seq<Event>, c: seq<Event>, d: seq<Event>)
    ensures a + b + c + d == a + (b + (c + d))
  {
  }

  /** What `show` has written once pages 0, 1, ..., n - 1 are done. */
  function ShowPages(buf: seq<byte>, n: nat): seq<Event>
    requires |buf| == BufferSize && n <= Pages
  {
    if n == 0 then [] else ShowPages(buf, n - 1) + PageTrace(buf, n - 1)
  }

  /** What `show` writes for a whole framebuffer. */
  function ShowTrace(buf: seq<byte>): seq<Event>
    requires |buf| == BufferSize
  {
    ShowPages(buf, Pages)
  }

  /** The seven writes of page q: three address commands, then its bytes in four 32-byte blocks. */
  function PageWrites(buf: seq<byte>, q: nat): seq<Event>
    requires |buf| == BufferSize && q < Pages
  {
    var base := q * Width;
    [Cmd(0xB0 + q as byte), Cmd(0x02), Cmd(0x10),
     Data(buf[base .. base + 32]), Data(buf[base + 32 .. base + 64]),
     Data(buf[base + 64 .. base + 96]), Data(buf[base + 96 .. base + 128])]
  }

  /** A page goes out as its three address commands followed by four 32-byte blocks. */
  lemma PageTraceWrites(buf: seq<byte>, p: nat)
    requires |buf| == BufferSize && p < Pages
    ensures PageTrace(buf, p) == PageWrites(buf, p)
  {
    var page, base := PageBytes(buf, p), p * Width;
    PageChunks(page);
    SliceOfSlice(buf, base, base + Width, 0, 32);
    SliceOfSlice(buf, base, base + Width, 32, 64);
    SliceOfSlice(buf, base, base + Width, 64, 96);
    SliceOfSlice(buf, base, base + Width, 96, 128);
  }

  lemma SliceOfSlice(s: seq<byte>, lo: nat, hi: nat, a: nat, b: nat)
    requires lo <= hi <= |s| && a <= b <= hi - lo
    ensures s[lo..hi][a..b] == s[lo + a .. lo + b]
  {
    assert forall i | 0 <= i < b - a :: s[lo..hi][a..b][i] == s[lo + a + i];
  }

  lemma {:induction false} ShowPagesLength(buf: seq<byte>, n: nat)
    requires |buf| == BufferSize && n <= Pages
    ensures |ShowPages(buf, n)| == 7 * n
  {
    if n > 0 {
      PageTraceWrites(buf, n - 1);
      ShowPagesLength(buf, n - 1);
    }
  }

  /** Page q occupies writes 7 * q .. 7 * q + 6 of what pages 0 .. n - 1 write (q < n). */
  lemma {:induction false} ShowPagesLayout(buf: seq<byte>, n: nat, q: nat)
    requires |buf| == BufferSize && q < n <= Pages
    ensures 7 * q + 7 <= |ShowPages(buf, n)|
    ensures ShowPages(buf, n)[7 * q .. 7 * q + 7] == PageWrites(buf, q)
  {
    PageTraceWrites(buf, n - 1);
    ShowPagesLength(buf, n);
    ShowPagesLength(buf, n - 1);
    var prefix := ShowPages(buf, n - 1);
    if q < n - 1 {
      ShowPagesLayout(buf, n - 1, q);
      assert (prefix + PageWrites(buf, n - 1))[7 * q .. 7 * q + 7] == prefix[7 * q .. 7 * q + 7];
    } else {
      assert (prefix + PageWrites(buf, n - 1))[|prefix|..] == PageWrites(buf, n - 1);
    }
  }

  /** `show` visits the pages in ascending order: page p occupies writes 7 * p .. 7 * p + 6. */
  lemma ShowLayout(buf: seq<byte>, p: nat)
    requires |buf| == BufferSize && p < Pages
    ensures |ShowTrace(buf)| == 7 * Pages
    ensures ShowTrace(buf)[7 * p .. 7 * p + 7] == PageWrites(buf, p)
  {
    ShowPagesLength(buf, Pages);
    ShowPagesLayout(buf, Pages, p);
  }

  /** Page p of a trace carries exactly that page's bytes. */
  lemma PageTracePayload(buf: seq<byte>, p: nat)
    requires |buf| == BufferSize && p < Pages
    ensures Payload(PageTrace(buf, p)) == PageBytes(buf, p)
  {
    PayloadAppend(PagePreamble(p), Chunks(PageBytes(buf, p), 0));
    PreamblePayload(p);
    ChunksPayload(PageBytes(buf, p), 0);
  }

  /** Pages 0 .. n - 1 carry exactly the first n * 128 framebuffer bytes. */
  lemma {:induction false} ShowPagesPayload(buf: seq<byte>, n: nat)
    requires |buf| == BufferSize && n <= Pages
    ensures Payload(ShowPages(buf, n)) == buf[..n * Width]
  {
    if n > 0 {
      var p := n - 1;
      PayloadAppend(ShowPages(buf, p), PageTrace(buf, p));
      PageTracePayload(buf, p);
      ShowPagesPayload(buf, p);
      var lo := p * Width;
      assert buf[..lo + Width] == buf[..lo] + buf[lo..lo + Width];
    }
  }

  /** The data stream of `show` is the framebuffer, byte for byte. */
  lemma ShowPayload(buf: seq<byte>)
    requires |buf| == BufferSize
    ensures Payload(ShowTrace(buf)) == buf
  {
    ShowPagesPayload(buf, Pages);
  }
}

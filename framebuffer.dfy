/** Geometry and bit layout of the SH1106 framebuffer: 128 columns by 64 rows,
    stored as 8 pages of 128 bytes; bit (y & 7) of byte x + (y / 8) * 128 is
    pixel (x, y). */
module Framebuffer {

  type byte = bv8

  const Width: nat := 128
  const Height: nat := 64
  const Pages: nat := 8        // Height / 8
  const BufferSize: nat := 1024  // Width * Pages

  predicate InScreen(x: int, y: int) {
    0 <= x < Width && 0 <= y < Height
  }

  /** Index of the byte that holds pixel (x, y). */
  function ByteIndex(x: int, y: int): (i: nat)
    requires InScreen(x, y)
    ensures i < BufferSize
    ensures i % Width == x && i / Width == y / 8
  {
    x + (y / 8) * Width
  }

  /** The bit position of row y inside its page byte (walk.py's `y & 7`). */
  function BitPos(y: int): (k: bv8)
    requires 0 <= y < Height
    ensures k < 8
  {
    (y as bv8) & 7
  }

  /** For the rows of the screen `y & 7` is `y % 8`. */
  lemma BitPosMod(y: int)
    requires 0 <= y < Height
    ensures BitPos(y) as int == y % 8
  {
  }

  /** Bit k of byte b is set. */
  predicate Bit(b: byte, k: bv8)
    requires k < 8
  {
    (b >> k) & 1 == 1
  }

  /** Pixel (x, y) is lit in a buffer. */
  predicate PixelAt(buf: seq<byte>, x: int, y: int)
    requires |buf| == BufferSize && InScreen(x, y)
  {
    Bit(buf[ByteIndex(x, y)], BitPos(y))
  }

  /** Two bytes that agree on all eight bits are equal. */
  lemma BitsDetermineByte(a: byte, b: byte)
    requires forall k: bv8 | k < 8 :: Bit(a, k) == Bit(b, k)
    ensures a == b
  {
    assert Bit(a, 0) == Bit(b, 0);
    assert Bit(a, 1) == Bit(b, 1);
    assert Bit(a, 2) == Bit(b, 2);
    assert Bit(a, 3) == Bit(b, 3);
    assert Bit(a, 4) == Bit(b, 4);
    assert Bit(a, 5) == Bit(b, 5);
    assert Bit(a, 6) == Bit(b, 6);
    assert Bit(a, 7) == Bit(b, 7);
  }

  /** Setting or clearing with the mask of bit k leaves bit j != k alone. */
  lemma MaskBit(b: byte, k: bv8, j: bv8)
    requires k < 8 && j < 8
    ensures Bit(b | (1 << k), j) == (j == k || Bit(b, j))
    ensures Bit(b & !(1 << k), j) == (j != k && Bit(b, j))
  {
  }

  /** Byte b with bit k set (`b |= 1 << k`) when color holds, cleared (`b &= ~(1 << k)`) otherwise. */
  function WithBit(b: byte, k: bv8, color: bool): byte
    requires k < 8
  {
    if color then b | (1 << k) else b & !(1 << k)
  }

  /** WithBit makes bit k equal to color and keeps the other seven bits. */
  lemma WithBitBits(b: byte, k: bv8, color: bool)
    requires k < 8
    ensures forall j: bv8 | j < 8 :: Bit(WithBit(b, k, color), j) == if j == k then color else Bit(b, j)
  {
    forall j: bv8 | j < 8
      ensures Bit(WithBit(b, k, color), j) == if j == k then color else Bit(b, j)
    {
      MaskBit(b, k, j);
    }
  }

  /** The value `pixel(x, y, color)` in walk.py leaves in the buffer. */
  function SetPixel(buf: seq<byte>, x: int, y: int, color: bool): (r: seq<byte>)
    requires |buf| == BufferSize
    ensures |r| == BufferSize
  {
    if !InScreen(x, y) then buf
    else buf[ByteIndex(x, y) := WithBit(buf[ByteIndex(x, y)], BitPos(y), color)]
  }

  /** Off-screen coordinates leave the buffer as it was; on-screen ones change bit (y & 7)
      of byte x + (y / 8) * 128 to color and no other bit of any byte. */
  lemma SetPixelBytes(buf: seq<byte>, x: int, y: int, color: bool)
    requires |buf| == BufferSize
    ensures var r := SetPixel(buf, x, y, color);
      (!InScreen(x, y) ==> r == buf) &&
      (InScreen(x, y) ==>
        (forall i | 0 <= i < BufferSize && i != ByteIndex(x, y) :: r[i] == buf[i]) &&
        (forall k: bv8 | k < 8 ::
          Bit(r[ByteIndex(x, y)], k) == if k == BitPos(y) then color else Bit(buf[ByteIndex(x, y)], k)))
  {
    if InScreen(x, y) {
      WithBitBits(buf[ByteIndex(x, y)], BitPos(y), color);
    }
  }

  /** Pixels sharing a byte are in the same column and page: they differ in their bit. */
  lemma SameByteDifferentBit(x: int, y: int, x': int, y': int)
    requires InScreen(x, y) && InScreen(x', y') && (x, y) != (x', y')
    requires ByteIndex(x, y) == ByteIndex(x', y')
    ensures BitPos(y) != BitPos(y')
  {
    BitPosMod(y);
    BitPosMod(y');
  }

  /** `pixel` at (x, y) sets exactly that pixel to color and leaves every other pixel alone. */
  lemma SetPixelPixels(buf: seq<byte>, x: int, y: int, color: bool, x': int, y': int)
    requires |buf| == BufferSize && InScreen(x', y')
    ensures PixelAt(SetPixel(buf, x, y, color), x', y') ==
      if (x', y') == (x, y) then color else PixelAt(buf, x', y')
  {
    SetPixelBytes(buf, x, y, color);
    if InScreen(x, y) && (x, y) != (x', y') && ByteIndex(x, y) == ByteIndex(x', y') {
      SameByteDifferentBit(x, y, x', y');
    }
  }

  /** Two buffers with the same 128 x 64 pixels are the same 1024 bytes. */
  lemma PixelsDetermineBuffer(a: seq<byte>, b: seq<byte>)
    requires |a| == BufferSize && |b| == BufferSize
    requires forall x, y | InScreen(x, y) :: PixelAt(a, x, y) == PixelAt(b, x, y)
    ensures a == b
  {
    forall i | 0 <= i < BufferSize
      ensures a[i] == b[i]
    {
      var x, page := i % Width, i / Width;
      forall k: bv8 | k < 8
        ensures Bit(a[i], k) == Bit(b[i], k)
      {
        var y := page * 8 + k as int;
        BitPosMod(y);
        assert InScreen(x, y) && ByteIndex(x, y) == i && BitPos(y) == k;
        assert PixelAt(a, x, y) == PixelAt(b, x, y);
      }
      BitsDetermineByte(a[i], b[i]);
    }
  }

  /** The all-zero buffer that construction and `clear` produce. */
  function Blank(): (r: seq<byte>)
    ensures |r| == BufferSize && forall i | 0 <= i < BufferSize :: r[i] == 0
  {
    seq(BufferSize, _ => 0)
  }

  /** A blank buffer shows no lit pixel. */
  lemma BlankIsDark(x: int, y: int)
    requires InScreen(x, y)
    ensures !PixelAt(Blank(), x, y)
  {
  }
}

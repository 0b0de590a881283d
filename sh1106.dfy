/** The SH1106 driver: a 1024-byte page-organised framebuffer and the bus
    writes that initialise the controller and push the framebuffer to it. */
module Sh1106 {
  import opened Framebuffer
  import opened Bus
  import opened Bitmap
  import opened Arith

  /** Control prefix selecting the command register; every initialisation pair carries it. */
  const CommandPrefix: byte := 0x00

  const DefaultBus: nat := 1
  const DefaultAddress: byte := 0x3C

  /** Controller initialisation, as (control prefix, command) pairs: display off,
      clock divide, multiplex 64, display offset 0, start line 0, charge pump,
      segment and COM remap, COM pins, contrast, precharge, VCOM level, resume
      from RAM, normal (not inverted), display on. */
  const InitSeq: seq<(byte, byte)> := [
    (CommandPrefix, 0xAE), (CommandPrefix, 0xD5), (CommandPrefix, 0x80), (CommandPrefix, 0xA8),
    (CommandPrefix, 0x3F), (CommandPrefix, 0xD3), (CommandPrefix, 0x00), (CommandPrefix, 0x40),
    (CommandPrefix, 0xAD), (CommandPrefix, 0x8B), (CommandPrefix, 0xA1), (CommandPrefix, 0xC8),
    (CommandPrefix, 0xDA), (CommandPrefix, 0x12), (CommandPrefix, 0x81), (CommandPrefix, 0x7F),
    (CommandPrefix, 0xD9), (CommandPrefix, 0x22), (CommandPrefix, 0xDB), (CommandPrefix, 0x40),
    (CommandPrefix, 0xA4), (CommandPrefix, 0xA6), (CommandPrefix, 0xAF)
  ]

  class Sh1106 {
    const busNum: nat
    const addr: byte
    /** The framebuffer: bit (y & 7) of byte x + (y / 8) * 128 is pixel (x, y). */
    const buffer: array<byte>
    /** Every write issued on the bus so far, oldest first. */
    var trace: seq<Event>

    ghost predicate Valid() {
      buffer.Length == BufferSize
    }

    /** Opens the bus, sends the 23 initialisation commands in order, then allocates a blank framebuffer. */
    constructor (bus: nat := DefaultBus, address: byte := DefaultAddress)
      ensures Valid() && fresh(buffer)
      ensures busNum == bus && addr == address
      ensures |trace| == |InitSeq| == 23
      ensures forall i | 0 <= i < |InitSeq| :: trace[i] == Cmd(InitSeq[i].1)
      ensures Payload(trace) == []
      ensures buffer[..] == Blank()
    {
      busNum, addr := bus, address;
      trace := [];
      buffer := new byte[BufferSize](_ => 0);
      new;
      assert buffer[..] == Blank();
      for i := 0 to |InitSeq|
        invariant buffer[..] == Blank()
        invariant |trace| == i
        invariant forall j | 0 <= j < i :: trace[j] == Cmd(InitSeq[j].1)
      {
        var (btype, val) := InitSeq[i];
        WriteCmd(val);
      }
      CommandsOnlyPayload(trace);
    }

    /** One command write. */
    method WriteCmd(b: byte)
      modifies this`trace
      ensures trace == old(trace) + [Cmd(b)]
    {
      trace := trace + [Cmd(b)];
    }

    /** Data writes of d in blocks of at most 32 bytes, in order. */
    method WriteData(d: seq<byte>)
      modifies this`trace
      ensures trace == old(trace) + Chunks(d, 0)
    {
      var i := 0;
      while i < |d|
        invariant trace + Chunks(d, i) == old(trace) + Chunks(d, 0)
      {
        var chunk := d[i..Min(i + ChunkSize, |d|)];
        trace := trace + [Data(chunk)];
        i := i + ChunkSize;
      }
    }

    /** Pushes the framebuffer page by page, each page after its three address commands. */
    method Show()
      requires Valid()
      modifies this`trace
      ensures trace == old(trace) + ShowTrace(buffer[..])
      ensures buffer[..] == old(buffer[..])
    {
      ghost var buf := buffer[..];
      var colOffset: byte := ColOffset;
      for page := 0 to Pages
        invariant buffer[..] == buf
        invariant trace == old(trace) + ShowPages(buf, page)
      {
        WriteCmd(0xB0 + page as byte);
        WriteCmd(0x00 + (colOffset & 0x0F));
        WriteCmd(0x10 + ((colOffset >> 4) & 0x0F));
        ghost var addressed := trace;
        assert addressed == old(trace) + ShowPages(buf, page) + PagePreamble(page);
        var start := page * Width;
        var end := start + Width;
        var pageBytes := buffer[start..end];
        assert pageBytes == PageBytes(buf, page);
        WriteData(pageBytes);
        AppendAssoc(old(trace), ShowPages(buf, page), PagePreamble(page), Chunks(pageBytes, 0));
      }
    }

    /** Zeroes every byte of the framebuffer; the bus is not touched. */
    method Clear()
      requires Valid()
      modifies buffer
      ensures buffer[..] == Blank()
    {
      for i := 0 to buffer.Length
        invariant forall j | 0 <= j < i :: buffer[j] == 0
      {
        buffer[i] := 0x00;
      }
    }

    /** Sets (color) or clears pixel (x, y); coordinates off the 128 x 64 screen are ignored. */
    method Pixel(x: int, y: int, color: bool := true)
      requires Valid()
      modifies buffer
      ensures buffer[..] == SetPixel(old(buffer[..]), x, y, color)
    {
      if !(0 <= x < Width && 0 <= y < Height) {
        return;
      }
      var page := y / 8;
      var idx := x + page * Width;
      assert idx == ByteIndex(x, y);
      buffer[idx] := WithBit(buffer[idx], BitPos(y), color);
    }

    /** Redraws the whole framebuffer from the top-left 128 x 64 pixels of src, row by row. */
    method Image(src: array2<bool>)
      requires Valid()
      modifies buffer
      ensures forall x, y | InScreen(x, y) :: PixelAt(buffer[..], x, y) == Lit(src, x, y)
    {
      for y := 0 to Height
        invariant forall x', y' | InScreen(x', y') && y' < y :: PixelAt(buffer[..], x', y') == Lit(src, x', y')
      {
        for x := 0 to Width
          invariant forall x', y' | InScreen(x', y') && (y' < y || (y' == y && x' < x)) ::
            PixelAt(buffer[..], x', y') == Lit(src, x', y')
        {
          ghost var before := buffer[..];
          var on := Lit(src, x, y);
          if on {
            Pixel(x, y, true);
          } else {
            Pixel(x, y, false);
          }
          forall x', y' | InScreen(x', y')
            ensures PixelAt(buffer[..], x', y') == if (x', y') == (x, y) then on else PixelAt(before, x', y')
          {
            SetPixelPixels(before, x, y, on, x', y');
          }
        }
      }
    }
  }
}

# SH1106 random-walk renderer, modelled in Dafny

`walk.py` drives a 128 x 64 SH1106 OLED over I2C and animates a random walk on it.

- The driver class keeps a 1024-byte framebuffer organised as 8 pages of 128 bytes. Bit `y & 7` of byte `x + (y / 8) * 128` is pixel (x, y).
- It sets and clears pixels, redraws the buffer from a bitmap, and pushes it to the controller page by page. Each page gets three address commands and then its bytes in blocks of at most 32.
- The walk simulator keeps the walker at the centre of the display. It scrolls an oversized offscreen canvas beneath the walker, stamps a 3 x 3 marker into the canvas at every position, and copies the window around the walker, clamped to the canvas, into the frame. It stamps the marker at the screen centre and sends the frame to the display.
- Each step also pays energy for the distance walked, rests when energy runs low, and works out the pause before the next step.

The model:

- `framebuffer.dfy` (module `Framebuffer`): the pixel-to-bit layout of the buffer as functions on `seq<bv8>`, and the effect of setting one pixel.
- `bus.dfy` (module `Bus`): the I2C bus as an appended trace of `Cmd(b)` and `Data(bytes)` writes, and the exact trace that pushing a framebuffer produces.
- `sh1106.dfy` (module `Sh1106`): the driver as a class over an `array<bv8>` and a trace field. Every method is proved against the functions above.
- `bitmap.dfy` (module `Bitmap`): the imaging operations the program uses, on `array2<bool>`: rectangle fill, and crop-and-paste of a window padded with black.
- `viewport.dfy` (module `Viewport`): Python's round-half-to-even and the window clamp.
- `walk.dfy` (module `Walk`): directions and step geometry, the energy and pause rule, and the `WalkSim` class with its canvas, frame, position, energy and step counter.
- `arith.dfy` (module `Arith`): integer `Min` and `Max`.

Float arithmetic is modelled with exact reals. The random choices of a step are parameters:

- the direction;
- the distance;
- the value `1 / sqrt(2)`, which `Step` takes as given (the length lemma `StepDeltaLength` assumes it is positive with square exactly one half);
- the two uniform pacing factors.

The bus is the trace field `Sh1106.trace`. Nothing is transmitted.

## Model

| member | source | states |
|---|---|---|
| Framebuffer.ByteIndex | walk.py:68-69 | the byte of an on-screen pixel lies in the 1024-byte buffer, in column x and page y / 8 |
| Framebuffer.BitPos | walk.py:70 | the bit of row y is one of the eight bits of a byte |
| Framebuffer.BitPosMod | walk.py:70 | `y & 7` equals `y % 8` for every screen row |
| Framebuffer.BitsDetermineByte | walk.py:70-74 | two bytes that agree on all eight bits are equal |
| Framebuffer.MaskBit | walk.py:70-74 | `b \| (1 << k)` sets bit k and `b & ~(1 << k)` clears it; every other bit keeps its value |
| Framebuffer.WithBitBits | walk.py:71-74 | the byte update makes bit k equal to the colour and leaves the other seven bits unchanged |
| Framebuffer.SetPixel | walk.py:65-74 | setting a pixel keeps the buffer at 1024 bytes |
| Framebuffer.SetPixelBytes | walk.py:65-74 | off-screen coordinates leave the buffer unchanged; on-screen ones change only bit `y & 7` of byte `x + (y / 8) * 128`, to the colour |
| Framebuffer.SameByteDifferentBit | walk.py:68-70 | two distinct pixels stored in one byte use different bits of it |
| Framebuffer.SetPixelPixels | walk.py:65-74 | after setting (x, y), that pixel has the given colour and every other pixel is unchanged |
| Framebuffer.PixelsDetermineBuffer | walk.py:65-74 | the 128 x 64 pixels determine all 1024 bytes, so the layout has no unused bits |
| Framebuffer.Blank | walk.py:61-63 | the blank buffer is 1024 zero bytes |
| Framebuffer.BlankIsDark | walk.py:61-63 | the blank buffer shows no lit pixel |
| Bus.CommandsOnlyPayload | walk.py:41-42 | a trace of command writes carries no data bytes |
| Bus.PayloadAppend | walk.py:48 | the data carried by two consecutive traces is the data of the first followed by the data of the second |
| Bus.ChunksBounded | walk.py:45-48 | every block of data written is non-empty and at most 32 bytes long |
| Bus.ChunksPayload | walk.py:45-48 | the blocks, concatenated in order, are exactly the bytes handed to the data write |
| Bus.ChunksCount | walk.py:46 | the number of blocks is the byte count divided by 32, rounded up |
| Bus.PageChunks | walk.py:44-59 | a 128-byte page goes out as exactly four 32-byte blocks, in order |
| Bus.PagePreamble | walk.py:51-55 | the address commands of page p are `0xB0 + p`, `0x02`, `0x10` |
| Bus.PreamblePayload | walk.py:53-55 | the address commands carry no data |
| Bus.PageBytes | walk.py:56-58 | a page of the buffer is 128 bytes |
| Bus.PageTraceWrites | walk.py:52-59 | each page is written as three address commands followed by four 32-byte blocks of that page's bytes |
| Bus.ShowPagesLength | walk.py:52-59 | showing the first n pages writes exactly 7 * n times |
| Bus.ShowPagesLayout | walk.py:52-59 | within the first n pages, page q occupies writes 7q to 7q + 6 |
| Bus.ShowLayout | walk.py:50-59 | a full show writes 56 times and visits pages 0 to 7 in ascending order, page p at writes 7p to 7p + 6 |
| Bus.PageTracePayload | walk.py:53-59 | the data written for page p is exactly bytes 128p to 128p + 127 of the buffer |
| Bus.ShowPagesPayload | walk.py:52-59 | the data written for the first n pages is the first 128 * n bytes of the buffer |
| Bus.ShowPayload | walk.py:50-59 | the data stream of a show is the framebuffer, byte for byte |
| Sh1106.Sh1106.constructor | walk.py:23-39 | construction writes exactly the 23 initialisation command bytes in order, with no data, and leaves an all-zero 1024-byte buffer |
| Sh1106.Sh1106.WriteCmd | walk.py:41-42 | a command write appends one command to the trace |
| Sh1106.Sh1106.WriteData | walk.py:44-48 | a data write appends the blocks of the data, 32 bytes at a time, to the trace |
| Sh1106.Sh1106.Show | walk.py:50-59 | show appends the page-by-page trace of the current buffer and does not change the buffer |
| Sh1106.Sh1106.Clear | walk.py:61-63 | clear makes every byte of the buffer zero |
| Sh1106.Sh1106.Pixel | walk.py:65-74 | the buffer after `pixel` is the buffer before with that one pixel set or cleared; off-screen coordinates change nothing |
| Sh1106.Sh1106.Image | walk.py:76-86 | after `image(src)` every screen pixel equals the source pixel, whatever the buffer held before |
| Bitmap.FillRect | walk.py:168-175 | a rectangle fill lights exactly the pixels inside the inclusive corners that the image contains, and leaves every other pixel unchanged |
| Bitmap.CopyWindow | walk.py:202-203 | after the paste, every frame pixel equals the canvas pixel at the window offset; pixels past the canvas edge are unlit |
| Viewport.RoundHalfEven | walk.py:164-165 | rounding lands within 1/2 of its argument, takes the even neighbour on a tie, and keeps integers unchanged |
| Viewport.ClampedStart | walk.py:189-200 | the clamped window start is in `[0, size - view]` when the canvas is at least as large as the view; an in-range start is kept, a negative one becomes 0, and one running past the far edge becomes `size - view` |
| Walk.StepDeltaLength | walk.py:222-229 | every step covers pixel length distance * 1.5; straight steps move along one axis only, diagonal ones by equal amounts on both axes |
| Walk.LongestEastStep | walk.py:221-229 | an eighteen-metre step east is a move of (27, 0) pixels |
| Walk.NextEnergy | walk.py:247-252 | energy stays in [0, 1]; below the 0.2 threshold the walker rests and ends with between 0.5 and 0.7 energy; otherwise it ends with the energy it had less the cost, at least 0.2 |
| Walk.PauseAfter | walk.py:246-253 | the pause lies in [0.2, 4.5]; without a rest it is at most 3.0, and with a rest at least 0.7 |
| Walk.EnergyAfterSteps | walk.py:246-252 | over any run of steps energy stays in [0, 1], and after at least one step it is at least 0.2 |
| Walk.RestThenWalk | walk.py:246-252 | a step drains at most 0.18, so the step after a rest never rests |
| Walk.WalkSim.WorldToImageCoords | walk.py:159-166 | a world point maps to within 1/2 pixel of the canvas origin shifted by it; integral points map exactly, so world (0, 0) is the canvas centre |
| Walk.WalkSim.WindowFollowsWalker | walk.py:188-200 | away from the canvas edges the window's top-left is the walker's pixel less the screen centre, so the walker is shown at the centre |
| Walk.WalkSim.constructor | walk.py:114-157 | the canvas is the screen plus the margin on every side, with world (0, 0) at its centre; the walker is at (0, 0) with full energy and no steps done; the canvas holds just the marker at its centre, and the first frame is composed and shown |
| Walk.WalkSim.DrawWalkerInWorld | walk.py:168-175 | the canvas gains exactly the 3 x 3 square around the walker's pixel, cut at the canvas edges; every other pixel is unchanged |
| Walk.WalkSim.BlitWorldToScreenAndShow | walk.py:182-217 | the frame is the clamped window with the marker on top, the display buffer holds that frame, one full show of it is written to the bus, and the marker `[63..65] x [31..33]` is lit on the display |
| Walk.WalkSim.ComposeFrame | walk.py:202-212 | every frame pixel is lit exactly when it is on the marker or its canvas pixel in the window is lit |
| Walk.WalkSim.PushFrame | walk.py:214-217 | the display buffer ends up holding exactly the frame, and the bus gets one full show of it |
| Walk.WalkSim.Step | walk.py:219-256 | the walker moves by the step's offset; the canvas gains the marker at the new position; the new frame is shown; energy and pause follow the pacing rule; the step counter grows by exactly one |
| Walk.WalkSim.Pace | walk.py:246-253 | the new energy and the pause are those of the pacing rule for the energy before the step |

## Left out

- The SMBus transport (`SMBus`, `write_byte_data`, `write_i2c_block_data`, `close` and its bare `except`) is not modelled. The bus is only a trace of writes, so I/O failures have no counterpart.
- The I2C control prefixes (0x00 for commands, 0x40 for data) are not recorded per write. The kind of `Event` carries that distinction.
- The PIL `'1'` mode conversion and threshold in `image` are not modelled. Bitmaps are boolean arrays and pixel value 255 is `true`.
- The crop to 128 x 64 in `image` reads pixels outside the source as unlit, as PIL's crop pads with black.
- `_draw_line_in_world` is not modelled. PIL's line rasterisation is a foreign algorithm.
- Walk.WalkSim.Step: does not stamp the trail line between the old and new positions. Its canvas postcondition states only that the new marker is added, with every other pixel unchanged.
- The random draws (`random.choice`, `random.uniform`) and `1 / math.sqrt(2)` are parameters of `Step`.
- Walk.StepDeltaLength: `1 / math.sqrt(2)` is taken as an exact real whose square is one half.
- Floats are exact reals, so IEEE rounding of the step offsets, of the energy and of the pause is not modelled. That includes the floating error that can put a sum just off a rounding tie.
- Bitmap.FillRect: an empty rectangle fills nothing. PIL may raise an error for inverted corners, which happens only when the walker leaves the canvas entirely. The model does not raise.
- `worldMargin` is a `nat`, so canvases smaller than the screen are not modelled.
- The "2x2" walker named in walk.py's comments is in fact a 3 x 3 square (`rect_half = 1` with inclusive corners). The model follows the code.
- `show_prompt`, font loading, `ask_cycles_with_screen`, `ask_start_confirm`, `input`, `time.sleep` and `main` (its loop, `KeyboardInterrupt` handling and final clear, show and close) are not modelled. They are console and timing control around the modelled operations.
- `cyclesTarget` is stored but not used by the model, because the loop that compares it with `cyclesDone` is in `main`.

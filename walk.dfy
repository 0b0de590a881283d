/** The random-walk simulator: a walker fixed at the centre of the display while
    an oversized offscreen canvas holding its trail scrolls beneath it. The
    random choices of a step (direction, distance, pacing factors) are
    parameters; the display is an Sh1106 driver whose bus is a trace. */
module Walk {
  import opened Arith
  import opened Framebuffer
  import opened Bus
  import opened Bitmap
  import opened Viewport
  import opened Sh1106

  const PixelsPerMeter: real := 1.5
  const MinDistanceM: real := 1.0
  const MaxDistanceM: real := 18.0
  const MinPauseS: real := 0.2
  const MaxPauseS: real := 3.0
  const WalkSpeedMps: real := 1.4

  /** Energy below which the walker rests, the energy a rest restores, and the range of a rest's extra pause. */
  const RestThreshold: real := 0.2
  const RestRecovery: real := 0.5
  const MinRestS: real := 0.5
  const MaxRestS: real := 1.5

  function MaxReal(a: real, b: real): real {
    if a >= b then a else b
  }

  function MinReal(a: real, b: real): real {
    if a <= b then a else b
  }

  datatype Direction = N | NE | E | SE | S | SW | W | NW {
    /** The compass offset of the direction, y growing downwards. */
    function Unit(): (int, int) {
      match this
      case N => (0, -1)
      case NE => (1, -1)
      case E => (1, 0)
      case SE => (1, 1)
      case S => (0, 1)
      case SW => (-1, 1)
      case W => (-1, 0)
      case NW => (-1, -1)
    }

    predicate Diagonal() {
      Unit().0 != 0 && Unit().1 != 0
    }
  }

  /** A number whose square is one half: the 1 / sqrt(2) that shortens diagonal steps. */
  predicate IsInvSqrt2(r: real) {
    r > 0.0 && r * r == 1.0 / 2.0
  }

  /** Pixel offset of a step of distanceM metres towards dir, diagonal steps scaled by invSqrt2. */
  function StepDelta(dir: Direction, distanceM: real, invSqrt2: real): (real, real) {
    var (dxNorm, dyNorm) := dir.Unit();
    var normFactor := if dxNorm != 0 && dyNorm != 0 then invSqrt2 else 1.0;
    var dx := dxNorm as real * distanceM * PixelsPerMeter * normFactor;
    var dy := dyNorm as real * distanceM * PixelsPerMeter * normFactor;
    (dx, dy)
  }

  /** (u * m)^2 is m^2 for a unit offset u and 0 for a zero one. */
  lemma ScaledUnitSquare(u: int, m: real)
    requires -1 <= u <= 1
    ensures (u as real * m) * (u as real * m) == if u == 0 then 0.0 else m * m
  {
    if u == -1 {
      assert u as real * m == -m;
    }
  }

  /** Every direction covers the same pixel length distanceM * 1.5: the straight ones
      move along one axis only, the diagonal ones by equal amounts along both. */
  lemma StepDeltaLength(dir: Direction, distanceM: real, invSqrt2: real)
    requires IsInvSqrt2(invSqrt2)
    ensures var d := StepDelta(dir, distanceM, invSqrt2);
      d.0 * d.0 + d.1 * d.1 == (distanceM * PixelsPerMeter) * (distanceM * PixelsPerMeter)
    ensures var d := StepDelta(dir, distanceM, invSqrt2);
      !dir.Diagonal() ==> d == (dir.Unit().0 as real * distanceM * PixelsPerMeter, dir.Unit().1 as real * distanceM * PixelsPerMeter)
    ensures var d := StepDelta(dir, distanceM, invSqrt2);
      dir.Diagonal() ==> d.0 * d.0 == d.1 * d.1
  {
    var (dxNorm, dyNorm) := dir.Unit();
    var normFactor := if dxNorm != 0 && dyNorm != 0 then invSqrt2 else 1.0;
    var len := distanceM * PixelsPerMeter;
    var m := len * normFactor;
    var d := StepDelta(dir, distanceM, invSqrt2);
    assert d.0 == dxNorm as real * m && d.1 == dyNorm as real * m;
    ScaledUnitSquare(dxNorm, m);
    ScaledUnitSquare(dyNorm, m);
    assert m * m == len * len * (normFactor * normFactor);
  }

  /** An eighteen-metre step east moves the world 27 pixels along x. */
  lemma LongestEastStep(invSqrt2: real)
    ensures StepDelta(E, MaxDistanceM, invSqrt2) == (27.0, 0.0)
  {
  }

  /** Energy after paying for a walk of distanceM metres, floored at zero. */
  function Drained(energy: real, distanceM: real): real {
    MaxReal(0.0, energy - distanceM / 100.0)
  }

  /** The walker rests on a step exactly when its drained energy is below the threshold. */
  predicate Rests(energy: real, distanceM: real) {
    Drained(energy, distanceM) < RestThreshold
  }

  /** Energy at the end of a step: rests add RestRecovery, capped at full energy. */
  function NextEnergy(energy: real, distanceM: real): (e: real)
    requires 0.0 <= energy <= 1.0 && distanceM >= 0.0
    ensures 0.0 <= e <= 1.0
    ensures Rests(energy, distanceM) ==> RestRecovery <= e < RestThreshold + RestRecovery
    ensures !Rests(energy, distanceM) ==> e == energy - distanceM / 100.0 && RestThreshold <= e <= energy
  {
    var drained := Drained(energy, distanceM);
    if drained < RestThreshold then MinReal(1.0, drained + RestRecovery) else drained
  }

  /** Pause after a step: the travel time scaled by travelFactor and clamped into
      [MinPauseS, MaxPauseS], plus restS when the walker rests. */
  function PauseAfter(distanceM: real, travelFactor: real, rests: bool, restS: real): (p: real)
    requires MinRestS <= restS <= MaxRestS
    ensures MinPauseS <= p <= MaxPauseS + MaxRestS
    ensures !rests ==> p <= MaxPauseS
    ensures rests ==> MinPauseS + MinRestS <= p
  {
    var travelTimeS := distanceM / WalkSpeedMps;
    var extraPause := if rests then restS else 0.0;
    MinReal(MaxPauseS, MaxReal(MinPauseS, travelTimeS * travelFactor)) + extraPause
  }

  predicate SampledDistance(d: real) {
    MinDistanceM <= d <= MaxDistanceM
  }

  /** Energy after a whole run of steps of the given distances: it never leaves [0, 1],
      and once at least one step is done it is never below the rest threshold. */
  function EnergyAfterSteps(energy: real, distances: seq<real>): (e: real)
    requires 0.0 <= energy <= 1.0
    requires forall i | 0 <= i < |distances| :: SampledDistance(distances[i])
    ensures 0.0 <= e <= 1.0
    ensures distances != [] ==> RestThreshold <= e
    decreases |distances|
  {
    if distances == [] then energy
    else
      assert SampledDistance(distances[0]);
      var rest := distances[1..];
      assert forall i | 0 <= i < |rest| :: rest[i] == distances[i + 1];
      EnergyAfterSteps(NextEnergy(energy, distances[0]), rest)
  }

  /** A step drains at most 0.18, so the step after a rest never rests too. */
  lemma RestThenWalk(energy: real, d1: real, d2: real)
    requires 0.0 <= energy <= 1.0 && SampledDistance(d1) && SampledDistance(d2)
    requires Rests(energy, d1)
    ensures !Rests(NextEnergy(energy, d1), d2)
  {
  }

  class WalkSim {
    const oled: Sh1106
    const cyclesTarget: int
    var cyclesDone: int
    /** Screen centre, where the walker is drawn on every frame. */
    const cx: int
    const cy: int
    /** The walker's world position, in pixels from the world origin. */
    var worldX: real
    var worldY: real
    /** The offscreen canvas and the canvas pixel of world (0, 0). */
    const worldW: int
    const worldH: int
    const worldOriginX: int
    const worldOriginY: int
    const worldImg: array2<bool>
    const rectHalf: int
    var energy: real
    /** The composed frame handed to the display. */
    const screenImg: array2<bool>

    /** Canvas and frame dimensions, fixed at construction. */
    ghost predicate Shapes() {
      oled.Valid() &&
      worldImg.Length0 == worldW && worldImg.Length1 == worldH &&
      screenImg.Length0 == Width && screenImg.Length1 == Height &&
      worldImg != screenImg &&
      worldW >= Width && worldH >= Height &&
      worldOriginX == worldW / 2 && worldOriginY == worldH / 2 &&
      cx == Width / 2 && cy == Height / 2 && rectHalf == 1
    }

    ghost predicate Valid()
      reads this
    {
      Shapes() && 0.0 <= energy <= 1.0 && 0 <= cyclesDone
    }

    /** Canvas pixel of world point (wx, wy): the origin shifted by (wx, wy), rounded. */
    function WorldToImageCoords(wx: real, wy: real): (p: (int, int))
      ensures -1.0 / 2.0 <= p.0 as real - (worldOriginX as real + wx) <= 1.0 / 2.0
      ensures -1.0 / 2.0 <= p.1 as real - (worldOriginY as real + wy) <= 1.0 / 2.0
      ensures wx == wx.Floor as real ==> p.0 == worldOriginX + wx.Floor
      ensures wy == wy.Floor as real ==> p.1 == worldOriginY + wy.Floor
    {
      var ix := RoundHalfEven(worldOriginX as real + wx);
      var iy := RoundHalfEven(worldOriginY as real + wy);
      assert worldOriginX as real + wx == (worldOriginX as real + wx).Floor as real ==> ix == worldOriginX + wx.Floor;
      (ix, iy)
    }

    /** Canvas pixel (x, y) lies in the walker's square at canvas pixel c. */
    predicate NearWalker(c: (int, int), x: int, y: int)
    {
      c.0 - rectHalf <= x <= c.0 + rectHalf && c.1 - rectHalf <= y <= c.1 + rectHalf
    }

    /** Screen pixel (x, y) lies in the marker square drawn at the screen centre. */
    predicate OnMarker(x: int, y: int)
    {
      NearWalker((cx, cy), x, y)
    }

    /** Top-left canvas corner of the window shown for the walker's current position. */
    ghost function WindowTopLeft(): (int, int)
      reads this`worldX, this`worldY
    {
      var (centerIx, centerIy) := WorldToImageCoords(worldX, worldY);
      (ClampedStart(centerIx - cx, worldW, Width), ClampedStart(centerIy - cy, worldH, Height))
    }

    /** Away from the canvas edges the window is centred on the walker's canvas pixel. */
    lemma WindowFollowsWalker()
      requires Shapes()
      ensures var (ix, iy) := WorldToImageCoords(worldX, worldY);
        (0 <= ix - cx <= worldW - Width ==> WindowTopLeft().0 == ix - cx) &&
        (0 <= iy - cy <= worldH - Height ==> WindowTopLeft().1 == iy - cy)
    {
    }

    /** The frame is the canvas window at (left, top) with the marker on top. */
    ghost predicate Composed(left: int, top: int)
      reads worldImg, screenImg
      requires Shapes()
    {
      forall i, j | 0 <= i < Width && 0 <= j < Height ::
        screenImg[i, j] == (OnMarker(i, j) || Lit(worldImg, left + i, top + j))
    }

    /** The display framebuffer holds exactly the frame. */
    ghost predicate Mirrored()
      reads oled.buffer, screenImg
      requires Shapes()
    {
      forall x, y | InScreen(x, y) :: PixelAt(oled.buffer[..], x, y) == screenImg[x, y]
    }

    /** The composed frame is the clamped window with the marker on top, and the
        display framebuffer holds exactly that frame. */
    ghost predicate Presented()
      reads this`worldX, this`worldY, oled.buffer, worldImg, screenImg
      requires Shapes()
    {
      Composed(WindowTopLeft().0, WindowTopLeft().1) && Mirrored()
    }

    /** Creates the canvas with world (0, 0) at its centre, marks the walker there and shows the first frame. */
    constructor (oled: Sh1106, cycles: int := 50, worldMargin: nat := 256)
      requires oled.Valid()
      modifies oled, oled.buffer
      ensures Valid() && fresh(worldImg) && fresh(screenImg)
      ensures this.oled == oled && cyclesTarget == cycles && cyclesDone == 0
      ensures worldW == Width + 2 * worldMargin && worldH == Height + 2 * worldMargin
      ensures worldX == 0.0 && worldY == 0.0 && energy == 1.0
      ensures forall x, y | 0 <= x < worldW && 0 <= y < worldH ::
        worldImg[x, y] == NearWalker((worldOriginX, worldOriginY), x, y)
      ensures Presented()
      ensures oled.trace == old(oled.trace) + ShowTrace(oled.buffer[..])
    {
      this.oled := oled;
      cyclesTarget := cycles;
      cyclesDone := 0;
      cx := Width / 2;
      cy := Height / 2;
      worldX, worldY := 0.0, 0.0;
      worldW := Width + worldMargin * 2;
      worldH := Height + worldMargin * 2;
      worldOriginX := (Width + worldMargin * 2) / 2;
      worldOriginY := (Height + worldMargin * 2) / 2;
      worldImg := new bool[Width + worldMargin * 2, Height + worldMargin * 2]((_, _) => false);
      rectHalf := 1;
      energy := 1.0;
      screenImg := new bool[Width, Height]((_, _) => false);
      new;
      DrawWalkerInWorld(worldX, worldY);
      BlitWorldToScreenAndShow();
    }

    /** Stamps the walker's 3 x 3 square at world point (wx, wy) into the canvas, cut at the canvas edges. */
    method DrawWalkerInWorld(wx: real, wy: real)
      requires Valid()
      modifies worldImg
      ensures forall x, y | 0 <= x < worldW && 0 <= y < worldH ::
        worldImg[x, y] == (old(worldImg[x, y]) || NearWalker(WorldToImageCoords(wx, wy), x, y))
    {
      var (ix, iy) := WorldToImageCoords(wx, wy);
      var h := rectHalf;
      var x0 := Max(0, ix - h);
      var y0 := Max(0, iy - h);
      var x1 := Min(worldW - 1, ix + h);
      var y1 := Min(worldH - 1, iy + h);
      FillRect(worldImg, x0, y0, x1, y1);
    }

    /** Copies the clamped window of the canvas to the frame, stamps the marker at the
        screen centre, and sends the frame to the display. */
    method BlitWorldToScreenAndShow()
      requires Valid()
      modifies screenImg, oled, oled.buffer
      ensures Valid() && Presented()
      ensures oled.trace == old(oled.trace) + ShowTrace(oled.buffer[..])
      ensures forall x, y | InScreen(x, y) && OnMarker(x, y) :: PixelAt(oled.buffer[..], x, y)
    {
      var (centerIx, centerIy) := WorldToImageCoords(worldX, worldY);
      var left := centerIx - cx;
      var top := centerIy - cy;
      if left < 0 {
        left := 0;
      }
      if top < 0 {
        top := 0;
      }
      if left + Width > worldW {
        left := worldW - Width;
      }
      if top + Height > worldH {
        top := worldH - Height;
      }
      assert (left, top) == WindowTopLeft();
      ComposeFrame(left, top);
      PushFrame();
      assert Composed(left, top);
    }

    /** The window at (left, top) copied into the frame, padded with dark pixels past the
        canvas edge, and the marker square filled over it. */
    method ComposeFrame(left: int, top: int)
      requires Shapes()
      modifies screenImg
      ensures Composed(left, top)
    {
      CopyWindow(worldImg, screenImg, left, top);
      var h := rectHalf;
      var sx0 := Max(0, cx - h);
      var sy0 := Max(0, cy - h);
      var sx1 := Min(Width - 1, cx + h);
      var sy1 := Min(Height - 1, cy + h);
      FillRect(screenImg, sx0, sy0, sx1, sy1);
    }

    /** Clears the framebuffer, draws the frame into it and shows it. */
    method PushFrame()
      requires Shapes()
      modifies oled, oled.buffer
      ensures Mirrored()
      ensures oled.trace == old(oled.trace) + ShowTrace(oled.buffer[..])
    {
      oled.Clear();
      oled.Image(screenImg);
      oled.Show();
    }

    /** One step of the walk towards dir over distanceM metres; travelFactor and restS are
        the two uniform samples of the pacing rule. Returns the pause before the next step. */
    method Step(dir: Direction, distanceM: real, invSqrt2: real, travelFactor: real, restS: real)
      returns (pauseS: real)
      requires Valid()
      requires SampledDistance(distanceM)
      requires MinRestS <= restS <= MaxRestS
      modifies this, worldImg, screenImg, oled, oled.buffer
      ensures Valid() && Presented()
      ensures worldX == old(worldX) + StepDelta(dir, distanceM, invSqrt2).0
      ensures worldY == old(worldY) + StepDelta(dir, distanceM, invSqrt2).1
      ensures forall x, y | 0 <= x < worldW && 0 <= y < worldH ::
        worldImg[x, y] == (old(worldImg[x, y]) || NearWalker(WorldToImageCoords(worldX, worldY), x, y))
      ensures oled.trace == old(oled.trace) + ShowTrace(oled.buffer[..])
      ensures energy == NextEnergy(old(energy), distanceM)
      ensures pauseS == PauseAfter(distanceM, travelFactor, Rests(old(energy), distanceM), restS)
      ensures cyclesDone == old(cyclesDone) + 1
    {
      var delta := StepDelta(dir, distanceM, invSqrt2);
      worldX, worldY := worldX + delta.0, worldY + delta.1;
      DrawWalkerInWorld(worldX, worldY);
      BlitWorldToScreenAndShow();
      pauseS := Pace(distanceM, travelFactor, restS);
      cyclesDone := cyclesDone + 1;
    }

    /** The pacing half of a step: pays the step's energy, rests when it runs low, and
        works out the pause from the travel time. */
    method Pace(distanceM: real, travelFactor: real, restS: real) returns (pauseS: real)
      requires 0.0 <= energy <= 1.0 && SampledDistance(distanceM)
      requires MinRestS <= restS <= MaxRestS
      modifies this`energy
      ensures energy == NextEnergy(old(energy), distanceM)
      ensures pauseS == PauseAfter(distanceM, travelFactor, Rests(old(energy), distanceM), restS)
    {
      var travelTimeS := distanceM / WalkSpeedMps;
      var energyCost := distanceM / 100.0;
      energy := MaxReal(0.0, energy - energyCost);
      var extraPause := 0.0;
      if energy < RestThreshold {
        extraPause := restS;
        energy := MinReal(1.0, energy + RestRecovery);
      }
      pauseS := MinReal(MaxPauseS, MaxReal(MinPauseS, travelTimeS * travelFactor)) + extraPause;
      assert PauseAfter(distanceM, travelFactor, Rests(old(energy), distanceM), restS) == MinReal(MaxPauseS, MaxReal(MinPauseS, travelTimeS * travelFactor)) + extraPause;
    }
  }
}

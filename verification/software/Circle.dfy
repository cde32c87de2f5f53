/** Horn's circle algorithm of the vgadraw demo (software/spu32-system/apps/vgadraw/vgadraw.c). */
module Circle {
  import opened Words
  import opened Machine

  type i16 = x: int | -0x8000 <= x < 0x8000

  /** A value stored in an int16_t. */
  function Int16(v: int): i16 {
    (v + 0x8000) % 0x1_0000 - 0x8000
  }

  function Square(x: int): int {
    x * x
  }

  /** What the algorithm keeps in `d`. */
  function Deviation(r: int, x: int, y: int): int {
    Square(x) - x + Square(y) - Square(r)
  }

  /** Point (x, y) of the octant with 0 <= y <= x: x is the square root of r^2 - y^2, rounded
      (RoundedRoot). */
  predicate Octant(r: nat, x: int, y: int) {
    0 <= y <= x && Deviation(r, x, y) <= 0 && if r == 0 then x == 0 else -2 * x < Deviation(r, x, y)
  }

  function Min(a: int, b: int): int {
    if a <= b then a else b
  }

  function Max(a: int, b: int): int {
    if a <= b then b else a
  }

  /** The circle of radius `r`, by the offsets from its centre. */
  predicate OnCircle(r: nat, dx: int, dy: int) {
    Octant(r, Max(Abs(dx), Abs(dy)), Min(Abs(dx), Abs(dy)))
  }

  lemma SquareNext(x: int)
    ensures Square(x + 1) == Square(x) + 2 * x + 1
  {
  }

  lemma {:induction false} SquareGrows(x: int, z: int)
    requires 0 <= x <= z
    ensures Square(x) <= Square(z) && Square(x) - x <= Square(z) - z
    decreases z - x
  {
    if x >= z {
    } else {
      SquareGrows(x, z - 1);
      SquareNext(z - 1);
    }
  }

  /** The step of the algorithm. */
  lemma DeviationStep(r: int, x: int, y: int)
    ensures Deviation(r, x, y + 1) == Deviation(r, x, y) + 2 * y + 1
    ensures Deviation(r, x - 1, y) == Deviation(r, x, y) - 2 * (x - 1)
  {
    SquareNext(y);
    SquareNext(x - 1);
    hide Square;
  }

  lemma DeviationGrows(r: int, x: int, y: int, x': int, y': int)
    requires 0 <= x <= x' && 0 <= y <= y'
    ensures Deviation(r, x, y) <= Deviation(r, x', y')
  {
    SquareGrows(x, x');
    SquareGrows(y, y');
    hide Square;
  }

  lemma OctantOrder(r: nat, x: int, x': int, y: int)
    requires Octant(r, x, y) && Octant(r, x', y)
    ensures x' <= x
  {
    if x < x' {
      DeviationGrows(r, x + 1, y, x', y);
      DeviationStep(r, x + 1, y);
      hide Square;
    }
  }

  /** There is one point for each y. */
  lemma OctantUnique(r: nat, x: int, x': int, y: int)
    requires Octant(r, x, y) && Octant(r, x', y)
    ensures x == x'
  {
    if x < x' {
      OctantOrder(r, x, x', y);
    } else if x' < x {
      OctantOrder(r, x', x, y);
    }
  }

  /** What the loop keeps: the deviation is in `d`, and the points from here on lie at or below `x`. */
  predicate Tracking(r: nat, d: int, x: int, y: int) {
    && d == Deviation(r, x, y) && 0 <= y <= x + 2 && x <= r
    && (y <= x ==> Octant(r, x, y))
    && (y > x ==> Deviation(r, y, y) > 0)
  }

  lemma TrackingStarts(r: nat)
    ensures Tracking(r, 0 - r, r, 0)
  {
    assert Square(0) == 0;
    hide Square;
  }

  lemma ZeroPoint()
    ensures Deviation(0, 0, 0) == 0
  {
  }

  lemma StepInward(r: nat, d: int, x: int, y: int)
    requires Tracking(r, d, x, y) && y <= x && d + 2 * y + 1 > 0
    ensures Tracking(r, d + 2 * y + 1 - 2 * (x - 1), x - 1, y + 1)
  {
    hide Deviation;
    DeviationStep(r, x, y);
    DeviationStep(r, x, y + 1);
    if y + 1 > x - 1 {
      DeviationGrows(r, x, y + 1, y + 1, y + 1);
    }
  }

  lemma StepUpward(r: nat, d: int, x: int, y: int)
    requires Tracking(r, d, x, y) && y <= x && d + 2 * y + 1 <= 0
    ensures Tracking(r, d + 2 * y + 1, x, y + 1)
  {
    hide Deviation;
    ZeroPoint();
    DeviationStep(r, x, y);
    if y + 1 > x {
      DeviationStep(r, x + 1, y + 1);
    }
  }

  /** The loop body. */
  lemma TrackingStep(r: nat, d: int, x: int, y: int)
    requires Tracking(r, d, x, y) && y <= x
    ensures var d' := d + 2 * y + 1;
            if d' > 0 then Tracking(r, d' - 2 * (x - 1), x - 1, y + 1) else Tracking(r, d', x, y + 1)
  {
    hide Tracking;
    if d + 2 * y + 1 > 0 {
      StepInward(r, d, x, y);
    } else {
      StepUpward(r, d, x, y);
    }
  }

  /** Behind the last point the octant has no more. */
  lemma NoMorePoints(r: nat, d: int, x: int, y: int, x': int, y': int)
    requires Tracking(r, d, x, y) && y > x && Octant(r, x', y')
    ensures y' < y
  {
    if y <= y' {
      DeviationGrows(r, y, y, x', y');
    }
    hide Deviation;
  }

  lemma SquareAbs(x: int)
    ensures Square(Abs(x)) == Square(x)
  {
  }

  /** Every point meets the equation of the circle up to its larger coordinate. */
  lemma CloseToCircle(r: nat, dx: int, dy: int)
    requires OnCircle(r, dx, dy)
    ensures -Max(Abs(dx), Abs(dy)) <= Square(dx) + Square(dy) - Square(r) <= Max(Abs(dx), Abs(dy))
  {
    SquareAbs(dx);
    SquareAbs(dy);
    assert Square(0) == 0;
    hide Square;
  }

  /** The points of the octant are those whose x is the square root of r^2 - y^2 rounded to a whole
      number: the squares of x - 1/2 and x + 1/2 enclose it. */
  lemma RoundedRoot(r: nat, x: int, y: int)
    requires r > 0 && 0 <= y <= x
    ensures Octant(r, x, y) <==> x * x - x <= r * r - y * y < x * x + x
  {
  }

  /** The point and its mirror images in the other octants. */
  predicate Image(dx: int, dy: int, x: int, y: int) {
    Max(Abs(dx), Abs(dy)) == x && Min(Abs(dx), Abs(dy)) == y
  }

  datatype Clip = Clip(xmin: i16, xmax: i16, ymin: i16, ymax: i16)

  predicate Inside(c: Clip, px: int, py: int) {
    c.xmin <= px <= c.xmax && c.ymin <= py <= c.ymax
  }

  /** The address of a pixel, in 32-bit arithmetic. */
  function Address(base: u32, px: int, py: int): u32 {
    (base + 320 * py + px) % 0x1_0000_0000
  }

  lemma SumInjective(base: u32, o: u32, o': u32)
    requires Word(base + o) == Word(base + o')
    ensures o == o'
  {
  }

  lemma AddsInWords(base: u32, o: int)
    ensures Word(base + Word(o)) == (base + o) % 0x1_0000_0000
  {
  }

  /** On the screen every pixel has a byte of its own. */
  lemma AddressInjective(base: u32, px: int, py: int, px': int, py': int)
    requires 0 <= px < 320 && 0 <= px' < 320 && 0 <= py < 240 && 0 <= py' < 240
    requires Address(base, px, py) == Address(base, px', py')
    ensures px == px' && py == py'
  {
    var o, o' := py * 320 + px, py' * 320 + px';
    assert Word(o) == o && Word(o') == o';
    SumInjective(base, o, o');
    if py < py' {
    } else if py' < py {
    }
  }

  /** The byte at `a` belongs to a clipped pixel of the circle. */
  ghost predicate Circled(base: u32, c: Clip, xoff: int, yoff: int, r: nat, a: u32) {
    exists px: int, py: int :: a == Address(base, px, py) && Inside(c, px, py) && OnCircle(r, px - xoff, py - yoff)
  }

  /** The smaller offset of the pixel is below `n`. */
  ghost predicate Covered(base: u32, c: Clip, xoff: int, yoff: int, r: nat, n: int, a: u32) {
    exists px: int, py: int ::
      a == Address(base, px, py) && Inside(c, px, py) && OnCircle(r, px - xoff, py - yoff)
      && Min(Abs(px - xoff), Abs(py - yoff)) < n
  }

  /** The byte at `a` belongs to an image of the point (x, y). */
  ghost predicate Hit(base: u32, c: Clip, xoff: int, yoff: int, x: int, y: int, a: u32) {
    exists px: int, py: int :: a == Address(base, px, py) && Inside(c, px, py) && Image(px - xoff, py - yoff, x, y)
  }

  lemma StartFits(r: nat)
    requires r <= 16383
    ensures Int16(0 - r) == 0 - r && Int16(r) == r && Int16(0) == 0
  {
  }

  /** Nothing in the loop body is truncated. */
  lemma StepFits(r: nat, d: int, x: int, y: int)
    requires r <= 16383 && 0 <= y <= x <= r && -2 * x <= d <= 0
    ensures var d' := d + 2 * y + 1;
            && Int16(d') == d' && Int16(y + 1) == y + 1 && Int16(x - 1) == x - 1
            && (d' > 0 ==> Int16(d' - 2 * (x - 1)) == d' - 2 * (x - 1))
  {
  }

  lemma Fits(off: i16, x: i16, y: i16)
    requires 0 <= y <= x && -0x8000 <= off - x && off + x < 0x8000
    ensures Int16(off + x) == off + x && Int16(off - x) == off - x && Int16(off + y) == off + y && Int16(off - y) == off - y
  {
  }

  lemma ImagesAre(base: u32, c: Clip, xoff: i16, yoff: i16, x: i16, y: i16)
    requires 0 <= y <= x && -0x8000 <= xoff - x && xoff + x < 0x8000 && -0x8000 <= yoff - x && yoff + x < 0x8000
    ensures forall a: u32 :: Hit(base, c, xoff, yoff, x, y, a) <==>
              || (Inside(c, xoff + x, yoff + y) && a == Address(base, xoff + x, yoff + y))
              || (Inside(c, xoff - x, yoff + y) && a == Address(base, xoff - x, yoff + y))
              || (Inside(c, xoff + x, yoff - y) && a == Address(base, xoff + x, yoff - y))
              || (Inside(c, xoff - x, yoff - y) && a == Address(base, xoff - x, yoff - y))
              || (Inside(c, xoff - y, yoff - x) && a == Address(base, xoff - y, yoff - x))
              || (Inside(c, xoff + y, yoff - x) && a == Address(base, xoff + y, yoff - x))
              || (Inside(c, xoff - y, yoff + x) && a == Address(base, xoff - y, yoff + x))
              || (Inside(c, xoff + y, yoff + x) && a == Address(base, xoff + y, yoff + x))
  {
    hide Address, Inside;
  }

  lemma NoneCovered(base: u32, c: Clip, xoff: int, yoff: int, r: nat)
    ensures forall a: u32 :: !Covered(base, c, xoff, yoff, r, 0, a)
  {
    hide Address, Inside, OnCircle;
  }

  lemma TrackingBounds(r: nat, d: int, x: int, y: int)
    requires Tracking(r, d, x, y) && y <= x
    ensures Octant(r, x, y) && 0 <= y <= x <= r && -2 * x <= d <= 0
  {
    ZeroPoint();
    hide Deviation;
  }

  lemma PixelNext(r: nat, x: int, y: int, dx: int, dy: int)
    requires Octant(r, x, y)
    ensures OnCircle(r, dx, dy) && Min(Abs(dx), Abs(dy)) < y + 1 <==>
            (OnCircle(r, dx, dy) && Min(Abs(dx), Abs(dy)) < y) || Image(dx, dy, x, y)
  {
    hide Octant;
    if OnCircle(r, dx, dy) && Min(Abs(dx), Abs(dy)) == y {
      OctantUnique(r, x, Max(Abs(dx), Abs(dy)), y);
    }
  }

  /** The images of the point for `y` are all there is for `y`. */
  lemma CoveredNext(base: u32, c: Clip, xoff: int, yoff: int, r: nat, x: int, y: int)
    requires Octant(r, x, y)
    ensures forall a: u32 :: Covered(base, c, xoff, yoff, r, y + 1, a) <==>
              Covered(base, c, xoff, yoff, r, y, a) || Hit(base, c, xoff, yoff, x, y, a)
  {
    hide Address, Inside, OnCircle, Image, Octant, Min, Max, Abs;
    forall a: u32
      ensures Covered(base, c, xoff, yoff, r, y + 1, a) <==>
              Covered(base, c, xoff, yoff, r, y, a) || Hit(base, c, xoff, yoff, x, y, a)
    {
      forall px: int, py: int | a == Address(base, px, py)
        ensures OnCircle(r, px - xoff, py - yoff) && Min(Abs(px - xoff), Abs(py - yoff)) < y + 1 <==>
                (OnCircle(r, px - xoff, py - yoff) && Min(Abs(px - xoff), Abs(py - yoff)) < y)
                || Image(px - xoff, py - yoff, x, y)
      {
        PixelNext(r, x, y, px - xoff, py - yoff);
      }
    }
  }

  lemma AllCovered(base: u32, c: Clip, xoff: int, yoff: int, r: nat, d: int, x: int, y: int)
    requires Tracking(r, d, x, y) && y > x
    ensures forall a: u32 :: Circled(base, c, xoff, yoff, r, a) <==> Covered(base, c, xoff, yoff, r, y, a)
  {
    hide Address, Inside, Octant, Min, Max, Abs, Tracking;
    forall a: u32
      ensures Circled(base, c, xoff, yoff, r, a) <==> Covered(base, c, xoff, yoff, r, y, a)
    {
      forall px: int, py: int | a == Address(base, px, py) && OnCircle(r, px - xoff, py - yoff)
        ensures Min(Abs(px - xoff), Abs(py - yoff)) < y
      {
        NoMorePoints(r, d, x, y, Max(Abs(px - xoff), Abs(py - yoff)), Min(Abs(px - xoff), Abs(py - yoff)));
      }
    }
  }

  class Screen {
    var mem: Mem
    var base: u32
    var clip: Clip

    constructor (mem: Mem, base: u32, clip: Clip)
      ensures this.mem == mem && this.base == base && this.clip == clip
    {
      this.mem, this.base, this.clip := mem, base, clip;
    }

    method DrawPixel(x: i16, y: i16, color: u8)
      modifies this`mem
      ensures forall a: u32 :: mem(a) == if Inside(clip, x, y) && a == Address(base, x, y) then color else old(mem)(a)
    {
      if x < clip.xmin || x > clip.xmax || y < clip.ymin || y > clip.ymax {
        return;
      }
      var m, adr := mem, Word(base + Word(y * 320 + x));
      AddsInWords(base, y * 320 + x);
      mem := (a: u32) => if a == adr then color else m(a);
    }

    /** The eight images of a point. */
    method DrawImages(xoff: i16, yoff: i16, x: i16, y: i16, color: u8)
      requires 0 <= y <= x && -0x8000 <= xoff - x && xoff + x < 0x8000 && -0x8000 <= yoff - x && yoff + x < 0x8000
      modifies this`mem
      ensures forall a: u32 :: mem(a) == if Hit(base, clip, xoff, yoff, x, y, a) then color else old(mem)(a)
    {
      hide Address, Inside, Hit, Int16;
      var px, mx, py, my := Int16(xoff + x), Int16(xoff - x), Int16(xoff + y), Int16(xoff - y);
      var qy, ny, qx, nx := Int16(yoff + y), Int16(yoff - y), Int16(yoff + x), Int16(yoff - x);
      Fits(xoff, x, y);
      Fits(yoff, x, y);
      DrawPixel(px, qy, color);
      DrawPixel(mx, qy, color);
      DrawPixel(px, ny, color);
      DrawPixel(mx, ny, color);
      DrawPixel(my, nx, color);
      DrawPixel(py, nx, color);
      DrawPixel(my, qx, color);
      DrawPixel(py, qx, color);
      ImagesAre(base, clip, xoff, yoff, x, y);
    }

    /** drawCircle: exactly the clipped pixels of the circle are coloured. No int16_t overflows for a
        radius up to 16383 and a circle within the range of an int16_t. */
    method DrawCircle(xoff: i16, yoff: i16, r: nat, color: u8)
      requires r <= 16383 && -0x8000 <= xoff - r && xoff + r < 0x8000 && -0x8000 <= yoff - r && yoff + r < 0x8000
      modifies this`mem
      ensures forall a: u32 :: mem(a) == if Circled(base, clip, xoff, yoff, r, a) then color else old(mem)(a)
    {
      hide *;
      StartFits(r);
      var d := Int16(0 - r);
      var x := Int16(r);
      var y := Int16(0);
      TrackingStarts(r);
      NoneCovered(base, clip, xoff, yoff, r);
      while y <= x
        invariant Tracking(r, d, x, y)
        invariant forall a: u32 :: mem(a) == if Covered(base, clip, xoff, yoff, r, y, a) then color else old(mem)(a)
        decreases (x as int) - (y as int)
      {
        TrackingBounds(r, d, x, y);
        DrawImages(xoff, yoff, x, y, color);
        CoveredNext(base, clip, xoff, yoff, r, x, y);
        TrackingStep(r, d, x, y);
        StepFits(r, d, x, y);
        d := Int16(d + 2 * y + 1);
        y := Int16(y + 1);
        if d > 0 {
          x := Int16(x - 1);
          d := Int16(d - 2 * x);
        }
      }
      AllCovered(base, clip, xoff, yoff, r, d, x, y);
    }
  }
}

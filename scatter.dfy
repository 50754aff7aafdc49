/**
 * Algorithm a (transformimagetopolar1.py): every source pixel is scattered
 * into the polar grid. Pixel (x, y) goes to row `angle` and column `r`,
 * where r is its rounded distance from the origin and angle is its rounded
 * asin angle in degrees shifted by int(180/step). The origin pixel and every
 * pixel whose cell lies outside the grid are skipped; when several pixels
 * share a cell, the last one in the x-outer, y-inner scan stays.
 */
module Scatter {
  import opened Wrappers
  import opened Numerics
  import opened Raster
  import opened Geometry

  /** int(round(math.hypot(x - originx, originy - y))): the rounded distance of pixel (x, y) from the origin. */
  function Radius(f: Frame, x: int, y: int): nat
  {
    RoundedHypot(x - f.originX, f.originY - y)
  }

  /** The grid cell (angle row, radius column) pixel (x, y) is written to, or None when it is skipped or dropped. */
  function Target(f: Frame, trig: Trig, x: int, y: int): Option<(int, int)>
  {
    var r := Radius(f, x, y);
    if r == 0 then None
    else
      var angle := trig.asinDegrees(f.originY - y, r) + f.angleOffset;
      if 0 <= r < f.maxRadius && 0 <= angle < f.angleSteps then Some((angle, r)) else None
  }

  /** The argument oy / r of math.asin lies in [-1, 1], so asin never fails. */
  lemma AsinArgumentInDomain(f: Frame, x: int, y: int)
    ensures var oy := f.originY - y;
            var r := Radius(f, x, y);
            -(r as int) <= oy <= r
  {
    RoundedHypotCoversCoordinate(x - f.originX, f.originY - y);
  }

  /** The radius is 0 for the origin pixel and for no other, so only the origin is skipped as angle-less. */
  lemma ZeroRadiusOnlyAtOrigin(f: Frame, x: int, y: int)
    ensures Radius(f, x, y) == 0 <==> x == f.originX && y == f.originY
  {
    RoundedHypotZero(x - f.originX, f.originY - y);
  }

  /** The origin pixel writes no cell. */
  lemma OriginWritesNothing(f: Frame, trig: Trig)
    ensures Target(f, trig, f.originX, f.originY).None?
  {
    ZeroRadiusOnlyAtOrigin(f, f.originX, f.originY);
  }

  /**
   * A written cell lies inside the grid, at the pixel's rounded radius, and its
   * row is within 90 of int(180/step): the asin degrees are not divided by the step.
   */
  lemma TargetInGrid(f: Frame, trig: Trig, x: int, y: int)
    requires Target(f, trig, x, y).Some?
    ensures var (a, r) := Target(f, trig, x, y).value;
            && 0 <= a < f.angleSteps && 1 <= r < f.maxRadius
            && r == Radius(f, x, y)
            && f.angleOffset - 90 <= a <= f.angleOffset + 90
  {
  }

  /** A pixel at a nonzero radius inside the grid whose shifted asin angle is a row is written to that cell. */
  lemma TargetOfRadiusAndAngle(f: Frame, trig: Trig, x: int, y: int, a: int, r: int)
    requires r == Radius(f, x, y)
    requires 0 < r < f.maxRadius
    requires a == trig.asinDegrees(f.originY - y, r) + f.angleOffset
    requires 0 <= a < f.angleSteps
    ensures Target(f, trig, x, y) == Some((a, r))
  {
  }

  /**
   * The corner (width - 1, 0) from which maxradian is measured is never
   * written: its rounded distance is at least the truncated one, and the
   * grid's columns stop one short of it.
   */
  lemma CornerPixelDropped(img: Image, trig: Trig, requestedStep: real)
    ensures Target(LeftMiddle(img, requestedStep), trig, img.width - 1, 0).None?
  {
    var f := LeftMiddle(img, requestedStep);
    NearestSqrtDominates(SquaredLength(img.width - 1, f.originY), f.maxRadius);
    assert Radius(f, img.width - 1, 0) >= f.maxRadius;
  }

  /** At a step of one degree, row a stands for the angle a - 180, which is the pixel's rounded asin angle. */
  lemma UnitStepRowIsAsinAngle(f: Frame, trig: Trig, x: int, y: int)
    requires f.angleStep == 1.0 && f.angleOffset == StepCount(180.0, f.angleStep)
    requires Target(f, trig, x, y).Some?
    ensures var oy := f.originY - y;
            var r := Radius(f, x, y);
            Target(f, trig, x, y).value.0 - 180 == trig.asinDegrees(oy, r)
  {
    assert f.angleOffset == 180;
  }

  /**
   * At other steps the rows do not follow the -180 + row * step convention of
   * the other transforms: at a step of two degrees a pixel at asin angle 30
   * lands in row 120, which that convention reads as 60 degrees.
   */
  lemma DoubleStepRowIsNotAsinAngle(f: Frame, trig: Trig, x: int, y: int)
    requires f.angleStep == 2.0 && f.angleSteps == StepCount(360.0, 2.0) && f.angleOffset == StepCount(180.0, 2.0)
    requires var oy := f.originY - y;
             var r := Radius(f, x, y);
             r != 0 && r < f.maxRadius && trig.asinDegrees(oy, r) == 30
    ensures Target(f, trig, x, y).Some? && Target(f, trig, x, y).value.0 == 120
    ensures (120 as real) * f.angleStep - 180.0 == 60.0
  {
    assert f.angleOffset == 90 && f.angleSteps == 180;
  }

  /** (x, y) comes strictly before (x', y') in the x-outer, y-inner scan. */
  predicate Before(x: int, y: int, x': int, y': int)
  {
    x < x' || (x == x' && y < y')
  }

  /** The scan has visited every pixel before (x, y); (width, 0) means the scan is finished. */
  predicate Progress(img: Image, x: int, y: int)
  {
    0 <= x <= img.width && 0 <= y <= img.height && (y > 0 ==> x < img.width)
  }

  /** The value of grid cell (a, r) once every pixel before (x, y) in scan order has been processed. */
  function Cell(img: Image, f: Frame, trig: Trig, x: nat, y: nat, a: int, r: int): Byte
    requires img.Valid() && Progress(img, x, y)
    decreases x, y
  {
    if y == 0 then
      if x == 0 then 0 else Cell(img, f, trig, x - 1, img.height, a, r)
    else if Target(f, trig, x, y - 1) == Some((a, r)) then Invert(img.rows[y - 1][x])
    else Cell(img, f, trig, x, y - 1, a, r)
  }

  /** A cell that no pixel before (x, y) maps to still holds its initial 0. */
  lemma {:induction false} UnwrittenCellIsZero(img: Image, f: Frame, trig: Trig, x: nat, y: nat, a: int, r: int)
    requires img.Valid() && Progress(img, x, y)
    requires forall px, py :: img.Contains(px, py) && Before(px, py, x, y) ==> Target(f, trig, px, py) != Some((a, r))
    ensures Cell(img, f, trig, x, y, a, r) == 0
    decreases x, y
  {
    if y == 0 {
      if x > 0 {
        UnwrittenCellIsZero(img, f, trig, x - 1, img.height, a, r);
      }
    } else {
      assert img.Contains(x, y - 1) && Before(x, y - 1, x, y);
      UnwrittenCellIsZero(img, f, trig, x, y - 1, a, r);
    }
  }

  /**
   * Last write wins: if pixel (px, py) maps to cell (a, r) and no pixel after it
   * and before (x, y) does, the cell holds the inverted value of (px, py).
   */
  lemma {:induction false} LastWriteWins(img: Image, f: Frame, trig: Trig, x: nat, y: nat, px: int, py: int, a: int, r: int)
    requires img.Valid() && Progress(img, x, y)
    requires img.Contains(px, py) && Before(px, py, x, y)
    requires Target(f, trig, px, py) == Some((a, r))
    requires forall qx, qy :: img.Contains(qx, qy) && Before(px, py, qx, qy) && Before(qx, qy, x, y) ==>
               Target(f, trig, qx, qy) != Some((a, r))
    ensures Cell(img, f, trig, x, y, a, r) == Invert(img.rows[py][px])
    decreases x, y
  {
    if y == 0 {
      LastWriteWins(img, f, trig, x - 1, img.height, px, py, a, r);
    } else if px != x || py != y - 1 {
      assert img.Contains(x, y - 1) && Before(px, py, x, y - 1);
      LastWriteWins(img, f, trig, x, y - 1, px, py, a, r);
    }
  }

  /** An all-white image leaves every cell at 0, since every write stores 255 - 255. */
  lemma {:induction false} WhiteImageScattersToZero(img: Image, f: Frame, trig: Trig, x: nat, y: nat, a: int, r: int)
    requires img.Valid() && img.White() && Progress(img, x, y)
    ensures Cell(img, f, trig, x, y, a, r) == 0
    decreases x, y
  {
    if y == 0 {
      if x > 0 {
        WhiteImageScattersToZero(img, f, trig, x - 1, img.height, a, r);
      }
    } else {
      assert img.Contains(x, y - 1);
      WhiteImageScattersToZero(img, f, trig, x, y - 1, a, r);
    }
  }

  /**
   * The forward transform of transformimagetopolar1.py: a zero grid of
   * int(360/step) rows and maxradian columns, filled by the x/y scan.
   */
  method TransformImageToPolar(img: Image, trig: Trig, requestedStep: real) returns (grid: array2<Byte>)
    requires img.Valid()
    ensures fresh(grid)
    ensures grid.Length0 == LeftMiddle(img, requestedStep).angleSteps
    ensures grid.Length1 == LeftMiddle(img, requestedStep).maxRadius
    ensures forall a, r :: 0 <= a < grid.Length0 && 0 <= r < grid.Length1 ==>
              grid[a, r] == Cell(img, LeftMiddle(img, requestedStep), trig, img.width, 0, a, r)
  {
    var f := LeftMiddle(img, requestedStep);
    grid := ScatterPixels(img, f, trig);
  }

  /** The x/y scan of the forward transform in the frame f. */
  method ScatterPixels(img: Image, f: Frame, trig: Trig) returns (grid: array2<Byte>)
    requires img.Valid()
    ensures fresh(grid)
    ensures grid.Length0 == f.angleSteps && grid.Length1 == f.maxRadius
    ensures forall a, r :: 0 <= a < grid.Length0 && 0 <= r < grid.Length1 ==>
              grid[a, r] == Cell(img, f, trig, img.width, 0, a, r)
  {
    grid := new Byte[f.angleSteps, f.maxRadius]((a, r) => 0);
    for x := 0 to img.width
      invariant forall a, r :: 0 <= a < grid.Length0 && 0 <= r < grid.Length1 ==>
                  grid[a, r] == Cell(img, f, trig, x, 0, a, r)
    {
      for y := 0 to img.height
        invariant forall a, r :: 0 <= a < grid.Length0 && 0 <= r < grid.Length1 ==>
                    grid[a, r] == Cell(img, f, trig, x, y, a, r)
      {
        var ox, oy := x - f.originX, f.originY - y;
        var r := RoundedHypot(ox, oy);
        if r == 0 {
          continue;
        }
        var angle := trig.asinDegrees(oy, r) + f.angleOffset;
        var intensity := Invert(img.rows[y][x]);
        if 0 <= r < f.maxRadius && 0 <= angle < f.angleSteps {
          grid[angle, r] := intensity;
        }
      }
    }
  }

  /** A 10 x 5 image at a step of one degree has its origin at (0, 1) and a grid of 360 rows and 9 columns. */
  lemma SmallImageFrame(img: Image)
    requires img.Valid() && img.width == 10 && img.height == 5
    ensures var f := LeftMiddle(img, 1.0);
            && f.originX == 0 && f.originY == 1 && f.angleOffset == 180
            && f.angleSteps == 360 && f.maxRadius == 9
  {
    var f := LeftMiddle(img, 1.0);
    assert SquaredLength(img.width - 1, f.originY) == SquaredLength(9, 1) == 82;
    FloorSqrtUnique(82, 9);
  }

  /**
   * In that frame pixel (5, 1), straight right of the origin at distance 5,
   * lands in the middle row 180, column 5.
   */
  lemma CentreLinePixel(f: Frame, trig: Trig)
    requires f.originX == 0 && f.originY == 1 && f.angleOffset == 180 && f.angleSteps == 360 && f.maxRadius == 9
    requires trig.asinDegrees(0, 5) == 0
    ensures Target(f, trig, 5, 1) == Some((180, 5))
  {
    assert Radius(f, 5, 1) == NearestSqrt(Square(5));
    NearestSqrtOfSquare(5);
  }
}

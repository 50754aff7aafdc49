/**
 * Algorithm b (transformimagetopolar2.py): every cell of the polar grid is
 * gathered from the image. Cell (angle row a, radius column r) reads the
 * pixel at the rounded offset (r cos t, r sin t) from the origin, where
 * t = a * step - 180 degrees, with the y offset subtracted because image rows
 * grow downwards. A position outside the image gives 0.
 */
module Gather {
  import opened Numerics
  import opened Raster
  import opened Geometry

  /** The angle in degrees of row a: `angle * anglestepdeg - 180`. */
  function RowAngle(f: Frame, a: int): real
  {
    (a as real) * f.angleStep - 180.0
  }

  /** The image position cell (a, r) reads: the origin plus the rounded polar offset. */
  function Source(f: Frame, trig: Trig, a: int, r: nat): (int, int)
  {
    var t := RowAngle(f, a);
    (f.originX + PolarOffset(r, trig.cosDegrees(t)), f.originY - PolarOffset(r, trig.sinDegrees(t)))
  }

  /** The intensity the transform stores in cell (a, r). */
  function GatherCell(img: Image, f: Frame, trig: Trig, a: int, r: nat): Byte
    requires img.Valid()
  {
    var (x, y) := Source(f, trig, a, r);
    Sample(img, x, y)
  }

  /** The source position is never farther than r from the origin along either axis. */
  lemma SourceWithinRadius(f: Frame, trig: Trig, a: int, r: nat)
    ensures var (x, y) := Source(f, trig, a, r);
            && f.originX - r <= x <= f.originX + r
            && f.originY - r <= y <= f.originY + r
  {
    var t := RowAngle(f, a);
    var c, s := trig.cosDegrees(t), trig.sinDegrees(t);
    PolarOffsetWithin(r, c);
    PolarOffsetWithin(r, s);
  }

  /** Column 0 reads the origin itself, in every row. */
  lemma RadiusZeroReadsOrigin(img: Image, f: Frame, trig: Trig, a: int)
    requires img.Valid()
    ensures GatherCell(img, f, trig, a, 0) == Sample(img, f.originX, f.originY)
  {
    var t := RowAngle(f, a);
    PolarOffsetAtZero(trig.cosDegrees(t));
    PolarOffsetAtZero(trig.sinDegrees(t));
  }

  /**
   * With the origin (0, int(height/2) - 1), column 0 holds the inverted
   * pixel at the left edge half-way down for an image at least 2 rows high
   * and 1 column wide, and 0 for a smaller image, whose origin lies outside it.
   */
  lemma RadiusZeroColumn(img: Image, trig: Trig, requestedStep: real, a: int)
    requires img.Valid()
    ensures var f := LeftMiddle(img, requestedStep);
            && (img.height >= 2 && img.width >= 1 ==> GatherCell(img, f, trig, a, 0) == Invert(img.rows[img.height / 2 - 1][0]))
            && (img.height < 2 || img.width == 0 ==> GatherCell(img, f, trig, a, 0) == 0)
  {
    RadiusZeroReadsOrigin(img, LeftMiddle(img, requestedStep), trig, a);
  }

  /** A cell is 0 exactly when its source is outside the image or white there. */
  lemma GatherCellIsZero(img: Image, f: Frame, trig: Trig, a: int, r: nat)
    requires img.Valid()
    ensures var (x, y) := Source(f, trig, a, r);
            GatherCell(img, f, trig, a, r) == 0 <==> !img.Contains(x, y) || img.rows[y][x] == 255
  {
    var (x, y) := Source(f, trig, a, r);
    SampleIsZero(img, x, y);
  }

  /** An all-white image gathers to an all-zero grid. */
  lemma WhiteImageGathersToZero(img: Image, f: Frame, trig: Trig, a: int, r: nat)
    requires img.Valid() && img.White()
    ensures GatherCell(img, f, trig, a, r) == 0
  {
    GatherCellIsZero(img, f, trig, a, r);
  }

  /**
   * The inverse transform of transformimagetopolar2.py: a grid of
   * int(360/step) rows and maxradian columns, every cell of which is
   * gathered once, radius by radius.
   */
  method TransformImageToPolar(img: Image, trig: Trig, requestedStep: real) returns (grid: array2<Byte>)
    requires img.Valid()
    ensures fresh(grid)
    ensures grid.Length0 == LeftMiddle(img, requestedStep).angleSteps
    ensures grid.Length1 == LeftMiddle(img, requestedStep).maxRadius
    ensures forall a, r :: 0 <= a < grid.Length0 && 0 <= r < grid.Length1 ==>
              grid[a, r] == GatherCell(img, LeftMiddle(img, requestedStep), trig, a, r)
  {
    var f := LeftMiddle(img, requestedStep);
    grid := GatherPixels(img, f, trig);
  }

  /** The radius/angle scan of the inverse transform in the frame f. */
  method GatherPixels(img: Image, f: Frame, trig: Trig) returns (grid: array2<Byte>)
    requires img.Valid()
    ensures fresh(grid)
    ensures grid.Length0 == f.angleSteps && grid.Length1 == f.maxRadius
    ensures forall a, r :: 0 <= a < grid.Length0 && 0 <= r < grid.Length1 ==>
              grid[a, r] == GatherCell(img, f, trig, a, r)
  {
    grid := new Byte[f.angleSteps, f.maxRadius]((a, r) => 0);
    for r := 0 to f.maxRadius
      invariant forall a, r' :: 0 <= a < grid.Length0 && 0 <= r' < r ==>
                  grid[a, r'] == GatherCell(img, f, trig, a, r')
    {
      for angle := 0 to f.angleSteps
        invariant forall a, r' :: 0 <= a < grid.Length0 && 0 <= r' < r ==>
                    grid[a, r'] == GatherCell(img, f, trig, a, r')
        invariant forall a :: 0 <= a < angle ==> grid[a, r] == GatherCell(img, f, trig, a, r)
      {
        var t := RowAngle(f, angle);
        var dx := PolarOffset(r, trig.cosDegrees(t));
        var dy := PolarOffset(r, trig.sinDegrees(t));
        var x, y := f.originX + dx, f.originY - dy;
        var intensity: Byte := 0;
        if 0 <= x < img.width && 0 <= y < img.height {
          intensity := 255 - img.rows[y][x];
        }
        assert (x, y) == Source(f, trig, angle, r);
        assert intensity == GatherCell(img, f, trig, angle, r);
        grid[angle, r] := intensity;
      }
    }
  }
}

/**
 * angureflexin.py: the angulagram of a separation zone. The zone, a grayscale
 * image, is resampled by the gather transform around the inlet at the middle
 * of its bottom edge, over 120 degrees in steps of 0.1 degrees; the grid is
 * stored upside down (radius r in row maxradian - r - 1, angle a in column a).
 * Each column is then summed over all radii, labelled with its angle, and the
 * sums are divided by the largest one.
 */
module Angulagram {
  import opened Wrappers
  import opened Numerics
  import opened Raster
  import opened Signal
  import opened Geometry

  /** `anglestep = 0.1`, in degrees. */
  const AngleStep: real := 0.1

  /** `anglerange = 120`: the angulagram spans 60 degrees either side of straight up. */
  const AngleRange: real := 120.0

  /** `anglesteps = int(anglerange / anglestep)`: the columns of the grid. */
  const AngleSteps: nat := StepCount(AngleRange, AngleStep)

  /** 120 degrees in steps of 0.1 degrees make 1200 columns. */
  lemma AngleStepsIs1200()
    ensures AngleSteps == 1200
  {
    assert AngleRange / AngleStep == 1200.0;
  }

  /** `(angle - anglesteps / 2.0) * anglestep`: the direction column a samples, 0 being straight up. */
  function ZoneAngle(a: int): real
  {
    ((a as real) - (AngleSteps as real) / 2.0) * AngleStep
  }

  /** `x * anglestep - anglerange / 2.0`: the angle the profile gives column x. */
  function Label(x: int): real
  {
    (x as real) * AngleStep - AngleRange / 2.0
  }

  /** Every column is labelled with the very angle it was sampled at. */
  lemma SamplingAngleIsLabel(a: int)
    ensures ZoneAngle(a) == Label(a)
  {
    AngleStepsIs1200();
  }

  /** The labels run from -60 to 59.9 degrees and strictly increase. */
  lemma LabelsSpan(i: int, j: int)
    ensures Label(0) == -60.0
    ensures Label(AngleSteps - 1) == 59.9
    ensures i < j ==> Label(i) < Label(j)
  {
    AngleStepsIs1200();
  }

  /** `int(math.hypot(width - 1, inlet_y))`: the radii the grid holds, taken from the inlet's y coordinate. */
  function MaxRadius(zone: Image, inletY: int): nat
  {
    TruncatedHypot(zone.width - 1, inletY)
  }

  /** The number of radii is the largest whole length not beyond the distance to (width - 1, inlet_y). */
  lemma MaxRadiusBounds(zone: Image, inletY: int)
    ensures Square(MaxRadius(zone, inletY)) <= SquaredLength(zone.width - 1, inletY) < Square(MaxRadius(zone, inletY) + 1)
  {
    FloorSqrtBounds(SquaredLength(zone.width - 1, inletY));
  }

  /**
   * The pixel cell (radius r, column a) reads: `x = int(width/2) + round(r sin t)`,
   * `y = height - round(r cos t)`, the inlet being the middle of the bottom edge.
   */
  function ZoneSource(zone: Image, trig: Trig, r: nat, a: int): (int, int)
  {
    var t := ZoneAngle(a);
    (zone.width / 2 + PolarOffset(r, trig.sinDegrees(t)), zone.height - PolarOffset(r, trig.cosDegrees(t)))
  }

  /** The intensity stored for radius r and column a. */
  function ZoneCell(zone: Image, trig: Trig, r: nat, a: int): Byte
    requires zone.Valid()
  {
    var (x, y) := ZoneSource(zone, trig, r, a);
    Sample(zone, x, y)
  }

  /** The source pixel is never farther than r from the inlet along either axis. */
  lemma ZoneSourceWithinRadius(zone: Image, trig: Trig, r: nat, a: int)
    ensures var (x, y) := ZoneSource(zone, trig, r, a);
            && zone.width / 2 - r <= x <= zone.width / 2 + r
            && zone.height - r <= y <= zone.height + r
  {
    var t := ZoneAngle(a);
    PolarOffsetWithin(r, trig.sinDegrees(t));
    PolarOffsetWithin(r, trig.cosDegrees(t));
  }

  /** Radius 0 reads the inlet itself, (int(width/2), height), one row below the zone: always 0. */
  lemma RadiusZeroIsOutside(zone: Image, trig: Trig, a: int)
    requires zone.Valid()
    ensures ZoneSource(zone, trig, 0, a) == (zone.width / 2, zone.height)
    ensures ZoneCell(zone, trig, 0, a) == 0
  {
    var t := ZoneAngle(a);
    PolarOffsetAtZero(trig.sinDegrees(t));
    PolarOffsetAtZero(trig.cosDegrees(t));
  }

  /** A cell is 0 exactly when its source is outside the zone or white there. */
  lemma ZoneCellIsZero(zone: Image, trig: Trig, r: nat, a: int)
    requires zone.Valid()
    ensures var (x, y) := ZoneSource(zone, trig, r, a);
            ZoneCell(zone, trig, r, a) == 0 <==> !zone.Contains(x, y) || zone.rows[y][x] == 255
  {
    var (x, y) := ZoneSource(zone, trig, r, a);
    SampleIsZero(zone, x, y);
  }

  /**
   * The gather loop of angureflexin.py: radius by radius, column by column,
   * the cell of radius r goes to row maxradian - r - 1. Afterwards each row
   * holds the cells of radius maxradian - 1 - row, and the bottom row,
   * radius 0, holds only zeros.
   */
  method PolarTransform(zone: Image, trig: Trig, maxRadius: nat) returns (grid: array2<Byte>)
    requires zone.Valid()
    ensures fresh(grid)
    ensures grid.Length0 == maxRadius && grid.Length1 == AngleSteps
    ensures forall row, a :: 0 <= row < grid.Length0 && 0 <= a < grid.Length1 ==>
              grid[row, a] == ZoneCell(zone, trig, maxRadius - 1 - row, a)
    ensures forall row, a :: row == grid.Length0 - 1 && 0 <= row && 0 <= a < grid.Length1 ==> grid[row, a] == 0
  {
    grid := new Byte[maxRadius, AngleSteps]((row, a) => 0);
    for r := 0 to maxRadius
      invariant forall row, a :: maxRadius - r <= row < maxRadius && 0 <= a < grid.Length1 ==>
                  grid[row, a] == ZoneCell(zone, trig, maxRadius - 1 - row, a)
    {
      for angle := 0 to AngleSteps
        invariant forall row, a :: maxRadius - r <= row < maxRadius && 0 <= a < grid.Length1 ==>
                    grid[row, a] == ZoneCell(zone, trig, maxRadius - 1 - row, a)
        invariant forall a :: 0 <= a < angle ==> grid[maxRadius - r - 1, a] == ZoneCell(zone, trig, r, a)
      {
        var t := ZoneAngle(angle);
        var dy := PolarOffset(r, trig.cosDegrees(t));
        var dx := PolarOffset(r, trig.sinDegrees(t));
        var x, y := zone.width / 2 + dx, zone.height - dy;
        var intensity: Byte := 0;
        if 0 <= x < zone.width && 0 <= y < zone.height {
          intensity := 255 - zone.rows[y][x];
        }
        assert (x, y) == ZoneSource(zone, trig, r, angle);
        assert intensity == ZoneCell(zone, trig, r, angle);
        grid[maxRadius - r - 1, angle] := intensity;
      }
    }
    forall a | 0 <= a < grid.Length1
      ensures ZoneCell(zone, trig, 0, a) == 0
    {
      RadiusZeroIsOutside(zone, trig, a);
    }
  }

  /** The sum of the cells of radii lo, lo + 1, ..., hi - 1 in column a. */
  function RadialSum(zone: Image, trig: Trig, lo: nat, hi: nat, a: int): nat
    requires zone.Valid()
    decreases hi - lo
  {
    if lo >= hi then 0 else ZoneCell(zone, trig, lo, a) + RadialSum(zone, trig, lo + 1, hi, a)
  }

  /** A radial sum over n radii is at most 255 n. */
  lemma {:induction false} RadialSumBound(zone: Image, trig: Trig, lo: nat, hi: nat, a: int)
    requires zone.Valid() && lo <= hi
    ensures RadialSum(zone, trig, lo, hi, a) <= 255 * (hi - lo)
    decreases hi - lo
  {
    if lo < hi {
      RadialSumBound(zone, trig, lo + 1, hi, a);
    }
  }

  /** A radial sum is 0 exactly when every cell it adds up is 0. */
  lemma {:induction false} RadialSumIsZero(zone: Image, trig: Trig, lo: nat, hi: nat, a: int)
    requires zone.Valid()
    ensures RadialSum(zone, trig, lo, hi, a) == 0 <==> forall r :: lo <= r < hi ==> ZoneCell(zone, trig, r, a) == 0
    decreases hi - lo
  {
    if lo < hi {
      RadialSumIsZero(zone, trig, lo + 1, hi, a);
    }
  }

  /** `numpy.sum` of the first n cells of column col of the grid. */
  function ColumnSum(grid: array2<Byte>, col: int, n: nat): nat
    reads grid
    requires n <= grid.Length0 && 0 <= col < grid.Length1
  {
    if n == 0 then 0 else ColumnSum(grid, col, n - 1) + grid[n - 1, col]
  }

  /** Summing the first n rows of the flipped grid adds up the n largest radii of the column. */
  lemma {:induction false} FlippedColumnSum(grid: array2<Byte>, zone: Image, trig: Trig, col: int, n: nat)
    requires zone.Valid()
    requires n <= grid.Length0 && 0 <= col < grid.Length1
    requires forall row :: 0 <= row < grid.Length0 ==> grid[row, col] == ZoneCell(zone, trig, grid.Length0 - 1 - row, col)
    ensures ColumnSum(grid, col, n) == RadialSum(zone, trig, grid.Length0 - n, grid.Length0, col)
  {
    if n > 0 {
      FlippedColumnSum(grid, zone, trig, col, n - 1);
    }
  }

  /** The integration loop of angureflexin.py: one labelled column sum per angle, in column order. */
  method IntegrateColumns(grid: array2<Byte>) returns (sx: seq<real>, sy: seq<nat>)
    ensures |sx| == grid.Length1 && |sy| == grid.Length1
    ensures forall x :: 0 <= x < grid.Length1 ==> sx[x] == Label(x) && sy[x] == ColumnSum(grid, x, grid.Length0)
  {
    sx, sy := [], [];
    for x := 0 to grid.Length1
      invariant |sx| == x && |sy| == x
      invariant forall i :: 0 <= i < x ==> sx[i] == Label(i) && sy[i] == ColumnSum(grid, i, grid.Length0)
    {
      var integral := ColumnSum(grid, x, grid.Length0);
      var angle := (x as real) * AngleStep - AngleRange / 2.0;
      sx := sx + [angle];
      sy := sy + [integral];
    }
  }

  /** Per column, the sum of its cells over all radii below maxRadius. */
  function Profile(zone: Image, trig: Trig, maxRadius: nat): (sums: seq<nat>)
    requires zone.Valid()
    ensures |sums| == AngleSteps
    ensures forall a :: 0 <= a < AngleSteps ==> sums[a] <= 255 * maxRadius
  {
    var sums := seq(AngleSteps, a => RadialSum(zone, trig, 0, maxRadius, a));
    assert forall a :: 0 <= a < AngleSteps ==> sums[a] <= 255 * maxRadius by {
      forall a | 0 <= a < AngleSteps {
        RadialSumBound(zone, trig, 0, maxRadius, a);
      }
    }
    sums
  }

  /** The plotted curve: angle labels and relative signals. */
  datatype Curve = Curve(angles: seq<real>, values: seq<real>)

  /** The angulagram of a zone: its labelled, normalised profile, or the error of the normalisation. */
  function AngulagramOf(zone: Image, trig: Trig, maxRadius: nat): Result<Curve, Failure>
    requires zone.Valid()
  {
    match Normalise(Profile(zone, trig, maxRadius))
    case Success(values) => Success(Curve(seq(AngleSteps, Label), values))
    case Failure(e) => Failure(e)
  }

  /**
   * The angulagram fails exactly when every sampled cell is 0, and then with
   * a division by zero: there are always 1200 columns, so max() never fails.
   */
  lemma AngulagramFails(zone: Image, trig: Trig, maxRadius: nat)
    requires zone.Valid()
    ensures AngulagramOf(zone, trig, maxRadius).Failure? <==>
              forall a, r :: 0 <= a < AngleSteps && 0 <= r < maxRadius ==> ZoneCell(zone, trig, r, a) == 0
    ensures AngulagramOf(zone, trig, maxRadius).Failure? ==> AngulagramOf(zone, trig, maxRadius).error == DivisionByZero
  {
    AngleStepsIs1200();
    var sums := Profile(zone, trig, maxRadius);
    NormaliseFails(sums);
    forall a | 0 <= a < AngleSteps
      ensures sums[a] == 0 <==> forall r :: 0 <= r < maxRadius ==> ZoneCell(zone, trig, r, a) == 0
    {
      RadialSumIsZero(zone, trig, 0, maxRadius, a);
    }
    if forall a, r :: 0 <= a < AngleSteps && 0 <= r < maxRadius ==> ZoneCell(zone, trig, r, a) == 0 {
      assert forall a :: 0 <= a < |sums| ==> sums[a] == 0;
    } else {
      var a, r :| 0 <= a < AngleSteps && 0 <= r < maxRadius && ZoneCell(zone, trig, r, a) != 0;
      assert sums[a] != 0;
    }
  }

  /** An all-white zone, or a grid without radii, has no signal: the normalisation divides by zero. */
  lemma NoSignalFails(zone: Image, trig: Trig, maxRadius: nat)
    requires zone.Valid() && (zone.White() || maxRadius == 0)
    ensures AngulagramOf(zone, trig, maxRadius) == Failure(DivisionByZero)
  {
    forall a, r | 0 <= a < AngleSteps && 0 <= r < maxRadius
      ensures ZoneCell(zone, trig, r, a) == 0
    {
      ZoneCellIsZero(zone, trig, r, a);
    }
    AngulagramFails(zone, trig, maxRadius);
  }

  /** A successful angulagram has 1200 labelled points with signals in [0, 1], one of which is 1. */
  lemma AngulagramRange(zone: Image, trig: Trig, maxRadius: nat)
    requires zone.Valid() && AngulagramOf(zone, trig, maxRadius).Success?
    ensures var c := AngulagramOf(zone, trig, maxRadius).value;
            && |c.angles| == |c.values| == 1200
            && (forall i :: 0 <= i < 1200 ==> c.angles[i] == Label(i) && 0.0 <= c.values[i] <= 1.0)
            && (exists i :: 0 <= i < 1200 && c.values[i] == 1.0)
  {
    AngleStepsIs1200();
    var sums := Profile(zone, trig, maxRadius);
    forall i | 0 <= i < 1200
      ensures 0.0 <= Normalise(sums).value[i] <= 1.0
    {
      NormalisedInUnit(sums, i);
    }
    NormalisedReachesOne(sums);
  }

  /**
   * Lines 104-155 of angureflexin.py: the grid of the zone, its column sums
   * and the normalised, labelled profile.
   */
  method ComputeAngulagram(zone: Image, trig: Trig, inletY: int) returns (res: Result<Curve, Failure>)
    requires zone.Valid()
    ensures res == AngulagramOf(zone, trig, MaxRadius(zone, inletY))
  {
    var maxRadius := MaxRadius(zone, inletY);
    var grid := PolarTransform(zone, trig, maxRadius);
    var sx, sy := IntegrateColumns(grid);
    forall col | 0 <= col < AngleSteps
      ensures sy[col] == RadialSum(zone, trig, 0, maxRadius, col)
    {
      FlippedColumnSum(grid, zone, trig, col, maxRadius);
    }
    assert sy == Profile(zone, trig, maxRadius);
    assert sx == seq(AngleSteps, Label);
    match Normalise(sy)
    case Success(values) =>
      res := Success(Curve(sx, values));
    case Failure(e) =>
      res := Failure(e);
  }
}

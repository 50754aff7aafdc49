/**
 * integratetransformedimage.py: a polar grid, read back as a grayscale image
 * with one row per angle, is integrated along the radius. Row y becomes the
 * point (y * 360 / height - 180, sum of row y); with scaling every sum is then
 * divided by the largest one, without it the sums are kept and only the
 * largest is reported.
 */
module Integrate {
  import opened Wrappers
  import opened Raster
  import opened Signal
  import opened Geometry

  /** `anglestepdeg = 360.0 / float(height)`: the angle one grid row stands for. */
  function RowStep(height: nat): (step: real)
    requires height > 0
    ensures step > 0.0
  {
    360.0 / (height as real)
  }

  /** `y * anglestepdeg - 180.0`: the angle of grid row y. */
  function AxisAngle(height: nat, y: int): real
    requires height > 0
  {
    (y as real) * RowStep(height) - 180.0
  }

  /** The angle axis starts at -180 degrees. */
  lemma AxisStartsAtMinusHalfTurn(height: nat)
    requires height > 0
    ensures AxisAngle(height, 0) == -180.0
  {
  }

  /** The angle axis is strictly increasing. */
  lemma AxisIncreasing(height: nat, i: int, j: int)
    requires height > 0 && i < j
    ensures AxisAngle(height, i) < AxisAngle(height, j)
  {
    ScaleByStep(i as real, j as real, RowStep(height));
  }

  /** Every row's angle lies in [-180, 180): the rows cover one turn. */
  lemma AxisWithinTurn(height: nat, y: int)
    requires 0 <= y < height
    ensures -180.0 <= AxisAngle(height, y) < 180.0
  {
    var step := RowStep(height);
    assert (height as real) * step == 360.0;
    ScaleByStep(y as real, height as real, step);
    if y > 0 {
      ScaleByStep(0.0, y as real, step);
    }
  }

  /** `np.sum(image[y])` for every row y, in row order. */
  function RowSums(img: Image): (sums: seq<nat>)
    requires img.Valid()
    ensures |sums| == img.height
    ensures forall y :: 0 <= y < img.height ==> sums[y] <= 255 * img.width
  {
    var sums := seq(img.height, y requires 0 <= y < img.height => Sum(img.rows[y]));
    assert forall y :: 0 <= y < img.height ==> sums[y] <= 255 * img.width by {
      forall y | 0 <= y < img.height {
        SumBound(img.rows[y]);
      }
    }
    sums
  }

  /** The profile the script plots: relative signals with scaling, raw sums and their maximum without. */
  datatype Integrated =
    | Scaled(angles: seq<real>, values: seq<real>)
    | Raw(angles: seq<real>, sums: seq<nat>, maximum: nat)

  /**
   * The whole script after reading the image: ZeroDivisionError for an image
   * without rows (the step divides by the height) and, with scaling, for an
   * image whose largest row sum is 0.
   */
  function Integration(img: Image, scaling: bool): Result<Integrated, Failure>
    requires img.Valid()
  {
    if img.height == 0 then Failure(DivisionByZero)
    else
      var axis := seq(img.height, y => AxisAngle(img.height, y));
      var sums := RowSums(img);
      if scaling then
        match Normalise(sums)
        case Success(values) => Success(Scaled(axis, values))
        case Failure(e) => Failure(e)
      else Success(Raw(axis, sums, Max(sums)))
  }

  /**
   * The script fails exactly for an image without rows or, with scaling, an
   * all-black one, and the failure is always a division by zero.
   */
  lemma IntegrationFails(img: Image, scaling: bool)
    requires img.Valid()
    ensures Integration(img, scaling).Failure? <==>
              img.height == 0 || (scaling && forall x, y :: 0 <= x < img.width && 0 <= y < img.height ==> img.rows[y][x] == 0)
    ensures Integration(img, scaling).Failure? ==> Integration(img, scaling).error == DivisionByZero
  {
    if img.height > 0 {
      var sums := RowSums(img);
      NormaliseFails(sums);
      forall y | 0 <= y < img.height
        ensures sums[y] == 0 <==> forall x :: 0 <= x < img.width ==> img.rows[y][x] == 0
      {
        SumIsZero(img.rows[y]);
      }
    }
  }

  /** One point per grid row, in row order: the row's angle and its sum, or that sum over the largest. */
  lemma IntegrationProfile(img: Image, scaling: bool, y: int)
    requires img.Valid() && Integration(img, scaling).Success? && 0 <= y < img.height
    ensures var res := Integration(img, scaling).value;
            && |res.angles| == img.height
            && res.angles[y] == AxisAngle(img.height, y)
            && (res.Scaled? ==>
                  && |res.values| == img.height
                  && res.values[y] == (Sum(img.rows[y]) as real) / (Max(RowSums(img)) as real))
            && (res.Raw? ==> res.sums == RowSums(img) && res.sums[y] == Sum(img.rows[y]))
  {
  }

  /** Scaled signals lie in [0, 1] and reach 1 at some row; raw sums are at most the reported maximum, which is one of them. */
  lemma IntegrationRange(img: Image, scaling: bool)
    requires img.Valid() && Integration(img, scaling).Success?
    ensures var res := Integration(img, scaling).value;
            && (res.Scaled? ==>
                  && (forall y :: 0 <= y < |res.values| ==> 0.0 <= res.values[y] <= 1.0)
                  && (exists y :: 0 <= y < |res.values| && res.values[y] == 1.0))
            && (res.Raw? ==> res.maximum in res.sums && forall y :: 0 <= y < |res.sums| ==> res.sums[y] <= res.maximum)
  {
    var sums := RowSums(img);
    if scaling {
      forall y | 0 <= y < |sums|
        ensures 0.0 <= Normalise(sums).value[y] <= 1.0
      {
        NormalisedInUnit(sums, y);
      }
      NormalisedReachesOne(sums);
    }
  }

  /**
   * The integration loop of the script: the angle and the row sum are
   * appended row by row, then the sums are scaled or their maximum reported.
   */
  method IntegrateRows(img: Image, scaling: bool) returns (res: Result<Integrated, Failure>)
    requires img.Valid()
    ensures res == Integration(img, scaling)
  {
    if img.height == 0 {
      return Failure(DivisionByZero);
    }
    var step := RowStep(img.height);
    var sx: seq<real> := [];
    var sy: seq<nat> := [];
    for y := 0 to img.height
      invariant |sx| == y && |sy| == y
      invariant forall i :: 0 <= i < y ==> sx[i] == AxisAngle(img.height, i)
      invariant forall i :: 0 <= i < y ==> sy[i] == Sum(img.rows[i])
    {
      var integral := Sum(img.rows[y]);
      var angle := (y as real) * step - 180.0;
      sx := sx + [angle];
      sy := sy + [integral];
    }
    assert sx == seq(img.height, y => AxisAngle(img.height, y));
    assert sy == RowSums(img);
    if scaling {
      match Normalise(sy)
      case Success(values) =>
        res := Success(Scaled(sx, values));
      case Failure(e) =>
        res := Failure(e);
    } else {
      res := Success(Raw(sx, sy, Max(sy)));
    }
  }
}

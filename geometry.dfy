/**
 * The geometry shared by the two stand-alone transforms: the angle step and
 * its clamp, the number of angle rows, the origin at the left edge half-way
 * down the image, and the largest radius.
 */
module Geometry {
  import opened Numerics
  import opened Raster

  /** The smallest angle step, in degrees, the transforms accept. */
  const MinAngleStep: real := 0.01

  /** `if anglestepdeg < 0.01: anglestepdeg = 0.01`. */
  function ClampStep(step: real): (s: real)
    ensures s >= MinAngleStep
    ensures step >= MinAngleStep ==> s == step
    ensures step < MinAngleStep ==> s == MinAngleStep
  {
    if step < MinAngleStep then MinAngleStep else step
  }

  /** Scaling by a positive step keeps a strict order. */
  lemma ScaleByStep(a: real, b: real, step: real)
    requires step > 0.0 && a < b
    ensures a * step < b * step
  {
  }

  /** If q steps make up span and lo <= q, then lo steps fit into span. */
  lemma ScaledLower(lo: real, q: real, step: real, span: real)
    requires step > 0.0 && lo <= q && q * step == span
    ensures lo * step <= span
  {
    if lo < q {
      ScaleByStep(lo, q, step);
    }
  }

  /** If q steps make up span and q < hi, then hi steps do not fit into span. */
  lemma ScaledUpper(hi: real, q: real, step: real, span: real)
    requires step > 0.0 && q < hi && q * step == span
    ensures span < hi * step
  {
    ScaleByStep(q, hi, step);
  }

  /** `int(span / step)` for a positive step: how many whole steps fit into span. */
  function StepCount(span: real, step: real): (n: nat)
    requires span >= 0.0 && step > 0.0
    ensures n as real <= span / step < n as real + 1.0
  {
    (span / step).Floor
  }

  /** StepCount(span, step) whole steps fit into span, one more does not. */
  lemma StepCountFits(span: real, step: real)
    requires span >= 0.0 && step > 0.0
    ensures (StepCount(span, step) as real) * step <= span
    ensures span < (StepCount(span, step) as real + 1.0) * step
  {
    var n := StepCount(span, step) as real;
    assert (span / step) * step == span;
    ScaledLower(n, span / step, step, span);
    ScaledUpper(n + 1.0, span / step, step, span);
  }

  /** From a * s < b * s with a positive s follows a < b. */
  lemma CancelStep(a: real, b: real, s: real)
    requires s > 0.0 && a * s < b * s
    ensures a < b
  {
  }

  /** A clamped step keeps a full turn within 36000 rows, and a step up to 360 degrees gives at least one. */
  lemma FullTurnRows(step: real)
    requires step >= MinAngleStep
    ensures StepCount(360.0, step) <= 36000
    ensures step <= 360.0 ==> StepCount(360.0, step) >= 1
  {
  }

  /** `int(180/step)` is half of `int(360/step)`, rounded down, give or take the odd row. */
  lemma HalfTurnRows(step: real)
    requires step > 0.0
    ensures 2 * StepCount(180.0, step) <= StepCount(360.0, step) <= 2 * StepCount(180.0, step) + 1
  {
    var h := StepCount(180.0, step);
    var n := StepCount(360.0, step);
    CancelStep(2.0 * (h as real), n as real + 1.0, step);
    CancelStep(n as real, 2.0 * (h as real) + 2.0, step);
  }

  /** The constants a stand-alone transform derives from the image and the requested angle step. */
  datatype Frame = Frame(
    originX: int,
    originY: int,
    angleStep: real,
    angleSteps: nat,   // int(360.0 / anglestepdeg): the rows of the polar grid
    angleOffset: nat,  // int(180.0 / anglestepdeg): added to the asin angle by the forward transform
    maxRadius: nat)    // int(math.hypot(width - 1, origin_y)): the columns of the polar grid

  /** The origin (0, int(height/2) - 1), the clamped step and the grid size of both stand-alone transforms. */
  function LeftMiddle(img: Image, requestedStep: real): (f: Frame)
    ensures f.originX == 0 && f.originY == img.height / 2 - 1
    ensures f.angleStep >= MinAngleStep
    ensures 1 <= f.angleSteps <= 36000 || f.angleStep > 360.0
    ensures Square(f.maxRadius) <= SquaredLength(img.width - 1, f.originY) < Square(f.maxRadius + 1)
    ensures 2 * f.angleOffset <= f.angleSteps <= 2 * f.angleOffset + 1
  {
    var step := ClampStep(requestedStep);
    var originY := img.height / 2 - 1;
    FullTurnRows(step);
    HalfTurnRows(step);
    FloorSqrtBounds(SquaredLength(img.width - 1, originY));
    Frame(0, originY, step, StepCount(360.0, step), StepCount(180.0, step), TruncatedHypot(img.width - 1, originY))
  }
}

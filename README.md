# Angulagram: polar resampling and radial integration, in Dafny

This project models the numeric core of the *angulagram* scripts. These scripts turn a grayscale photograph of a flow
separation zone into an angular intensity profile in two steps:

1. The image is resampled onto a polar grid around an origin. Every cell stores an inverted intensity, so 0 means no
   signal and 255 the strongest signal.
2. The grid is summed along the radius. This gives one value per angle, which is then optionally divided by the largest
   value.

The scripts contain four variants of these steps:

- **Algorithm a**: `programs/transformimagetopolar1.py`, module `Scatter`.
  - Origin: the left edge, half-way down.
  - Each pixel is scattered into the cell at its rounded distance and its rounded asin angle.
  - The origin pixel and out-of-grid cells are skipped.
  - When pixels collide, the last one in x-outer, y-inner scan order wins.
- **Algorithm b**: `programs/transformimagetopolar2.py`, module `Gather`.
  - Same origin as algorithm a.
  - Every cell (angle row, radius column) reads the pixel at the rounded polar offset. Rows grow downwards, so the y
    offset is subtracted.
  - A cell whose pixel lies outside the image gets 0.
- **Row integration**: `programs/integratetransformedimage.py`, module `Integrate`.
  - Row y of a polar grid becomes the point `(y * 360/height - 180, sum of row y)`.
  - With scaling, each sum is divided by the largest sum. Without scaling, the raw sums are kept and their maximum is
    reported.
- **The production pipeline**: `programs/angureflexin.py`, module `Angulagram`.
  - Algorithm b with the origin at the middle of the zone's bottom edge.
  - 120 degrees in steps of 0.1 degree, giving 1200 columns.
  - The grid is stored upside down: radius r goes to row `maxradian - r - 1`.
  - The column sums are labelled `x * 0.1 - 60` and divided by their maximum.

Shared pieces:

- `Numerics`: exact stand-ins for the numeric calls:
  - Python 2 `round` (halves away from zero);
  - `int(round(hypot))` as the nearest integer square root;
  - `int(hypot)` as the floor square root;
  - the trigonometric functions as a `Trig` value that promises only their ranges.
- `Raster`: the grayscale image (rows of bytes), inversion, bounds-checked sampling and row sums.
- `Geometry`: the angle-step clamp, the step counts `int(360/step)` and `int(180/step)`, and the frame (origin and grid
  size) of the two stand-alone transforms.
- `Signal`: `max()` and the division by the maximum, with its two failures:
  - `ValueError` on an empty list;
  - `ZeroDivisionError` on a zero maximum.
- `Wrappers`: `Option` and `Result`.

The grids are `array2<Byte>` filled in place by methods whose loops mirror the scripts. Each method is proved against a
function that gives every cell's value:

- `Scatter.Cell`: a cell after a prefix of the scan;
- `Gather.GatherCell`;
- `Angulagram.ZoneCell`.

The integration loops append to sequences, just as the scripts append to `Sx` and `Sy`. They are proved equal to
`Integrate.Integration` and `Angulagram.AngulagramOf`.

### Consequences of the code that the model makes explicit

- **Only sampled non-white pixels give signal.** Every stored intensity is `255 - pixel`.
  - A cell whose pixel lies outside the image stays 0.
  - So does a scatter cell no pixel lands on, and the radius-0 row of the production grid.
  - An all-white image gives a grid of zeros and no profile (`Scatter.WhiteImageScattersToZero`,
    `Gather.WhiteImageGathersToZero`, `Angulagram.NoSignalFails`).
- **The origin row** of the two stand-alone transforms is `int(height/2) - 1`, which is the `(height/2)-1` that their
  header comments state (`Scatter.SmallImageFrame`).
- **The maximum radius is truncated**: it is `int(hypot(...))`.
  - In algorithm a, a pixel is kept only when its rounded radius is below that bound. The corner it is measured from is
    therefore never written (`Scatter.CornerPixelDropped`).
- **Algorithm a's asin angle is not divided by the step.**
  - The row is the asin angle in whole degrees plus `int(180/step)`.
  - Only at a step of 1 degree does row `a` stand for the angle `a - 180` (`Scatter.UnitStepRowIsAsinAngle`,
    `Scatter.DoubleStepRowIsNotAsinAngle`).

### Where the code and its comment disagree (the model follows the code)

- `programs/angureflexin.py:109-110` says the maximum radius is the distance to a corner such as `(width-1, 0)`. Line
  112 measures it with the y coordinate of the inlet in the whole rotated image instead. The model takes that
  coordinate as the parameter `inletY` (`Angulagram.MaxRadius`).

## Model

| member | source | states |
|---|---|---|
| Geometry.ClampStep | programs/transformimagetopolar1.py:52-53 | the clamped step is at least 0.01; it equals the request when that is at least 0.01 and is 0.01 otherwise |
| Geometry.StepCount | programs/transformimagetopolar1.py:80 | `int(span/step)` is the whole number n with n <= span/step < n + 1 |
| Geometry.StepCountFits | programs/transformimagetopolar2.py:78 | n whole steps fit into the span and n + 1 do not |
| Geometry.FullTurnRows | programs/transformimagetopolar1.py:80-85 | after the clamp a full turn has at most 36000 rows, and at least one row for a step up to 360 degrees |
| Geometry.HalfTurnRows | programs/transformimagetopolar1.py:102 | `int(180/step)` is half of `int(360/step)`, give or take the odd row |
| Geometry.LeftMiddle | programs/transformimagetopolar1.py:66-85 | origin (0, int(height/2) - 1); clamped step; row count; column count = floor of the distance to (width - 1, origin y); angle offset about half the rows |
| Numerics.Round | programs/transformimagetopolar1.py:95 | `int(round(v, 0))` is within one half of v and has v's sign |
| Numerics.RoundHalvesAwayFromZero | programs/transformimagetopolar1.py:95 | an exact half is rounded away from zero: for v > 0 the result exceeds v - 0.5 strictly, and for v < 0 it is below v + 0.5 strictly |
| Numerics.RoundIsOdd | programs/transformimagetopolar2.py:91-92 | Python 2 rounding is symmetric: round(-v) == -round(v) |
| Numerics.RoundWithin | programs/transformimagetopolar2.py:91-92 | a value within [-b, b] rounds into [-b, b] |
| Numerics.FloorSqrtFromBounds | programs/transformimagetopolar1.py:75 | the upward search for the truncated root ends at k with k^2 <= n < (k + 1)^2 |
| Numerics.FloorSqrtBounds | programs/transformimagetopolar1.py:75 | `int(hypot)` of a squared length n is the k with k^2 <= n < (k + 1)^2 |
| Numerics.FloorSqrtUnique | programs/transformimagetopolar2.py:73 | the truncated root is the only number with that property |
| Numerics.NearestSqrtFromBounds | programs/transformimagetopolar1.py:95 | the upward search for the rounded root ends within one half of the true root |
| Numerics.NearestSqrtBounds | programs/transformimagetopolar1.py:95 | `int(round(hypot))` of a squared length n is within one half of sqrt(n), and is 0 only for n == 0 |
| Numerics.NearestSqrtUnique | programs/transformimagetopolar1.py:95 | the rounded root is the only number within one half of sqrt(n) |
| Numerics.NearestSqrtOfSquare | programs/transformimagetopolar1.py:95 | the rounded length of a whole-number length k is k |
| Numerics.NearestSqrtDominates | programs/transformimagetopolar1.py:95 | every m with m^2 <= n is at most the rounded root of n |
| Numerics.TruncatedHypot | programs/transformimagetopolar1.py:75 | reference definition of `int(math.hypot(a, b))`: the truncated root of a^2 + b^2; `FloorSqrtBounds` and `Angulagram.MaxRadiusBounds` state its bounds |
| Numerics.RoundedHypot | programs/transformimagetopolar1.py:95 | reference definition of `int(round(math.hypot(a, b), 0))`: the rounded root of a^2 + b^2; its contract-bearing facts are `NearestSqrtBounds`, `RoundedHypotZero` and `RoundedHypotCoversCoordinate` |
| Numerics.RoundedHypotZero | programs/transformimagetopolar1.py:95-99 | the rounded length of (a, b) is 0 exactly when a == b == 0 |
| Numerics.RoundedHypotCoversCoordinate | programs/transformimagetopolar1.py:95-102 | the y offset is within the rounded length, so the argument of asin lies in [-1, 1] |
| Numerics.PolarOffsetWithin | programs/transformimagetopolar2.py:91-92 | `int(round(r * cos t))` and `int(round(r * sin t))` lie in [-r, r] |
| Numerics.PolarOffsetAtZero | programs/transformimagetopolar2.py:91-92 | both offsets are 0 at radius 0 |
| Raster.SampleIsZero | programs/transformimagetopolar2.py:99-101 | a sample is 0 exactly when its position is outside the image or the pixel there is white |
| Raster.SumBound | programs/integratetransformedimage.py:66 | a sum of n bytes is at most 255 n |
| Raster.SumIsZero | programs/angureflexin.py:147 | a sum of bytes is 0 exactly when every byte is 0 |
| Scatter.Target | programs/transformimagetopolar1.py:92-110 | reference definition of where pixel (x, y) goes: None at radius 0 (`continue`), otherwise the cell (int(round(degrees(asin(oy / r)))) + int(180/step), r) when both lie inside the grid, else None; `TargetInGrid`, `TargetOfRadiusAndAngle` and `ZeroRadiusOnlyAtOrigin` state its properties |
| Scatter.AsinArgumentInDomain | programs/transformimagetopolar1.py:92-102 | `oy / r` lies in [-1, 1], so asin never fails |
| Scatter.ZeroRadiusOnlyAtOrigin | programs/transformimagetopolar1.py:92-99 | the rounded radius is 0 exactly at the origin pixel, so only the origin is skipped by `continue` |
| Scatter.OriginWritesNothing | programs/transformimagetopolar1.py:69-99 | the origin pixel writes no cell |
| Scatter.TargetInGrid | programs/transformimagetopolar1.py:102-110 | a written cell is inside the grid, at the pixel's rounded radius (>= 1), in a row within 90 of int(180/step) |
| Scatter.TargetOfRadiusAndAngle | programs/transformimagetopolar1.py:102-110 | conversely, a pixel whose radius and shifted angle lie in the grid is written to exactly that cell |
| Scatter.CornerPixelDropped | programs/transformimagetopolar1.py:75-110 | the corner (width - 1, 0) that maxradian is measured from is never written |
| Scatter.UnitStepRowIsAsinAngle | programs/transformimagetopolar1.py:102 | at a 1 degree step, row - 180 is the pixel's asin angle |
| Scatter.DoubleStepRowIsNotAsinAngle | programs/transformimagetopolar1.py:102 | at a 2 degree step, asin angle 30 lands in row 120, which the -180 + row * step reading takes as 60 degrees |
| Scatter.Cell | programs/transformimagetopolar1.py:85-110 | reference definition of a grid cell after the x-outer, y-inner scan has visited every pixel before (x, y): the inverted value of the latest pixel targeting it, or the initial 0; `UnwrittenCellIsZero` and `LastWriteWins` state this, and `ScatterPixels` is proved against it |
| Scatter.UnwrittenCellIsZero | programs/transformimagetopolar1.py:85-110 | a cell that no earlier pixel maps to still holds its initial 0 |
| Scatter.LastWriteWins | programs/transformimagetopolar1.py:88-110 | a cell holds the inverted value of the last pixel, in x-outer, y-inner order, that maps to it |
| Scatter.WhiteImageScattersToZero | programs/transformimagetopolar1.py:106-110 | an all-white image leaves every cell at 0 |
| Scatter.TransformImageToPolar | programs/transformimagetopolar1.py:66-110 | a fresh grid of int(360/step) rows and maxradian columns; every cell is the value the scan leaves in it |
| Scatter.ScatterPixels | programs/transformimagetopolar1.py:85-110 | the x/y loops leave every cell equal to its value after the whole scan; the image is not changed |
| Scatter.SmallImageFrame | programs/transformimagetopolar1.py:66-80 | a 10 x 5 image at 1 degree has origin (0, 1), 360 rows, offset 180 and 9 columns |
| Scatter.CentreLinePixel | programs/transformimagetopolar1.py:92-110 | in that frame, pixel (5, 1) lands in row 180, column 5 |
| Gather.Source | programs/transformimagetopolar2.py:91-95 | reference definition of the pixel cell (a, r) reads: (originx + int(round(r cos t)), originy - int(round(r sin t))) with t = a * step - 180; `SourceWithinRadius` and `RadiusZeroReadsOrigin` state its properties |
| Gather.GatherCell | programs/transformimagetopolar2.py:91-101 | reference definition of the value of cell (a, r): 255 minus the source pixel when it is inside the image, else 0; `GatherCellIsZero` states when it is 0, and `GatherPixels` is proved against it |
| Gather.SourceWithinRadius | programs/transformimagetopolar2.py:91-95 | the source pixel of radius r is within r of the origin along both axes |
| Gather.RadiusZeroReadsOrigin | programs/transformimagetopolar2.py:91-101 | column 0 reads the origin in every row |
| Gather.RadiusZeroColumn | programs/transformimagetopolar2.py:67-104 | for height >= 2 and width >= 1, column 0 holds 255 - image[int(height/2) - 1][0]; otherwise it holds 0 |
| Gather.GatherCellIsZero | programs/transformimagetopolar2.py:99-101 | a cell is 0 exactly when its source is outside the image or white |
| Gather.WhiteImageGathersToZero | programs/transformimagetopolar2.py:99-104 | an all-white image gathers to an all-zero grid |
| Gather.TransformImageToPolar | programs/transformimagetopolar2.py:64-104 | a fresh grid of int(360/step) rows and maxradian columns; every cell holds the inverted pixel at its own source, or 0 |
| Gather.GatherPixels | programs/transformimagetopolar2.py:83-104 | the r/angle loops set every cell of the grid to the value gathered for it |
| Signal.Max | programs/integratetransformedimage.py:77 | `max` of a non-empty list is one of its entries and at least every entry |
| Signal.MaxIsZero | programs/integratetransformedimage.py:77-78 | the maximum is 0 exactly when every entry is 0 |
| Signal.Fractions | programs/angureflexin.py:155 | one quotient per integral, in order |
| Signal.FractionInUnit | programs/integratetransformedimage.py:78 | p/m lies in [0, 1] for 0 <= p <= m, and equals 1 exactly when p == m |
| Signal.Normalise | programs/integratetransformedimage.py:76-78 | ValueError for no integrals, ZeroDivisionError exactly when the maximum is 0, otherwise one quotient by the maximum per integral |
| Signal.NormalisedInUnit | programs/integratetransformedimage.py:78 | every relative signal lies in [0, 1] |
| Signal.NormaliseFails | programs/integratetransformedimage.py:77-78 | normalising fails exactly when every integral is 0 (or there are none) |
| Signal.NormalisedPeakIsOne | programs/angureflexin.py:154-155 | a relative signal is 1 exactly at a largest integral |
| Signal.NormalisedReachesOne | programs/integratetransformedimage.py:77-78 | some relative signal equals 1 |
| Signal.NormalisePreservesOrder | programs/angureflexin.py:155 | normalising keeps the order of the integrals, in both directions |
| Integrate.RowStep | programs/integratetransformedimage.py:60 | the step 360/height is positive |
| Integrate.AxisStartsAtMinusHalfTurn | programs/integratetransformedimage.py:60-69 | the first row stands for -180 degrees |
| Integrate.AxisIncreasing | programs/integratetransformedimage.py:60-69 | the angle axis is strictly increasing |
| Integrate.AxisWithinTurn | programs/integratetransformedimage.py:60-69 | every row's angle lies in [-180, 180) |
| Integrate.RowSums | programs/integratetransformedimage.py:64-66 | one sum per row, each at most 255 * width |
| Integrate.Integration | programs/integratetransformedimage.py:60-82 | reference definition of the script's result: ZeroDivisionError for no rows; otherwise the angle axis with the row sums, normalised with scaling and raw with their maximum without; `IntegrationFails`, `IntegrationProfile` and `IntegrationRange` state its properties, and `IntegrateRows` is proved equal to it |
| Integrate.IntegrationFails | programs/integratetransformedimage.py:60-78 | the script fails exactly for an image without rows or, with scaling, an all-black image; the error is always a division by zero |
| Integrate.IntegrationProfile | programs/integratetransformedimage.py:64-82 | `height` points in row order; point y is (y * 360/height - 180, the sum of row y), divided by the largest sum with scaling and raw without |
| Integrate.IntegrationRange | programs/integratetransformedimage.py:76-82 | scaled signals lie in [0, 1] and reach 1; raw sums are bounded by the reported maximum, which is one of them |
| Integrate.IntegrateRows | programs/integratetransformedimage.py:56-82 | the appending loop and the scaling branch compute exactly `Integration` |
| Angulagram.AngleStepsIs1200 | programs/angureflexin.py:104-107 | `int(120 / 0.1)` is 1200 |
| Angulagram.SamplingAngleIsLabel | programs/angureflexin.py:121-148 | the direction column a is sampled at, (a - 600) * 0.1, is the label a * 0.1 - 60 it is plotted at |
| Angulagram.LabelsSpan | programs/angureflexin.py:148 | the labels start at -60, end at 59.9 and strictly increase |
| Angulagram.MaxRadius | programs/angureflexin.py:111-112 | reference definition of maxradian: `int(math.hypot(width - 1, inlet_y))`; `MaxRadiusBounds` states its bounds |
| Angulagram.MaxRadiusBounds | programs/angureflexin.py:111-112 | maxradian is the truncated distance to (width - 1, inlet y) |
| Angulagram.ZoneSource | programs/angureflexin.py:121-125 | reference definition of the pixel read for radius r and column a: (int(width/2) + int(round(r sin t)), height - int(round(r cos t))) with t = (a - 600) * 0.1; `ZoneSourceWithinRadius` and `RadiusZeroIsOutside` state its properties |
| Angulagram.ZoneCell | programs/angureflexin.py:121-131 | reference definition of the intensity for radius r and column a: 255 minus the source pixel when it is inside the zone, else 0; `ZoneCellIsZero` states when it is 0, and `PolarTransform` is proved against it |
| Angulagram.ZoneSourceWithinRadius | programs/angureflexin.py:121-125 | the source pixel of radius r is within r of (int(width/2), height) along both axes |
| Angulagram.RadiusZeroIsOutside | programs/angureflexin.py:121-131 | radius 0 reads (int(width/2), height), one row below the zone, so it is always 0 |
| Angulagram.ZoneCellIsZero | programs/angureflexin.py:129-131 | a cell is 0 exactly when its source is outside the zone or white |
| Angulagram.PolarTransform | programs/angureflexin.py:114-135 | a fresh maxradian x 1200 grid whose row maxradian - 1 - r, column a holds the cell of radius r; the bottom row is all 0 |
| Angulagram.RadialSumBound | programs/angureflexin.py:147 | a column sum over n radii is at most 255 n |
| Angulagram.RadialSumIsZero | programs/angureflexin.py:147 | a column sum is 0 exactly when every cell in it is 0 |
| Angulagram.FlippedColumnSum | programs/angureflexin.py:135-147 | summing the upside-down column adds up exactly the cells of every radius |
| Angulagram.IntegrateColumns | programs/angureflexin.py:145-152 | one point per column, in order: label x * 0.1 - 60 and the sum of column x |
| Angulagram.Profile | programs/angureflexin.py:145-147 | one sum per column (anglesteps of them), each at most 255 * maxradian |
| Angulagram.AngulagramOf | programs/angureflexin.py:145-155 | reference definition of the angulagram: the labels x * 0.1 - 60 with the column sums divided by their maximum, or the division's error; `AngulagramFails` and `AngulagramRange` state its properties, and `ComputeAngulagram` is proved equal to it |
| Angulagram.AngulagramFails | programs/angureflexin.py:154-155 | the angulagram fails exactly when every sampled cell is 0, always with a division by zero (max never sees an empty list) |
| Angulagram.NoSignalFails | programs/angureflexin.py:118-155 | an all-white zone, or maxradian == 0, makes the normalisation divide by zero |
| Angulagram.AngulagramRange | programs/angureflexin.py:145-155 | a successful angulagram has 1200 labelled points with signals in [0, 1], one of them equal to 1 |
| Angulagram.ComputeAngulagram | programs/angureflexin.py:104-155 | the grid, the column loop and the normalisation compute exactly `AngulagramOf` |

## Left out

- Image reading and writing (`cv2.imread`, `cv2.imwrite`), `imshow`/`waitKey`, and the text and CSV output files. These
  are I/O; the model starts from the decoded grayscale image.
- Rotation, cropping, mirroring, the saturation boost, grayscale conversion and level remapping in `angureflexin.py`.
  These are OpenCV and imutils library calls, so the model takes the resulting zone as its input.
- The preview image, the overlay display in `integratetransformedimage.py`, and all matplotlib plotting. These are
  presentation only.
- The printed messages, including the "Maximum intensity" line. The raw branch returns that maximum instead.
- `argparse` and `sys.argv` handling. The step, the scaling flag and the inlet's y coordinate are parameters.
- Angulagram.MaxRadius: takes the inlet's y coordinate, a float on the command line (`programs/angureflexin.py:45`),
  as a whole number of pixels. The inlet is a pixel position, and the script itself writes it back with `%d`
  (`programs/angureflexin.py:172`). A fractional y such as 980.5 is therefore not modelled.
- Angulagram.MaxRadiusBounds: states the truncated-distance bounds for a whole-number inlet y only, for the same reason.
- Floating-point behaviour: exact reals and integers are used throughout.
  - `int(360.0/step)`, `int(120/0.1)`, the angle axes and the normalised signals are exact quotients.
  - Float rounding in them (for example a step whose float quotient lands just below a whole number) is not modelled.
  - A NaN or infinite step is not modelled.
- The values of `math.asin`, `math.cos`, `math.sin`, `math.radians` and `math.degrees`. They are a `Trig` parameter
  known only by its ranges:
  - `asinDegrees` gives whole degrees in [-90, 90];
  - `cosDegrees` and `sinDegrees` give values in [-1, 1].
- The lengths from `math.hypot` are exact integer square roots. The model does not capture the float value of
  `hypot`, or a rounding case where that float would land on the other side of a half.
- Gather.GatherPixels: states the final value of every cell, not that each cell is written exactly once. A cell's value
  depends only on its own coordinates, so a repeated write would leave the same grid.
- Angulagram.PolarTransform: the same applies, and the row flip `maxradian - r - 1` is captured only through the cell
  each row ends up holding.
- numpy's `uint8` arithmetic in `255 - image[y, x]` cannot wrap, because pixels are bytes. The sums are unbounded
  naturals, as numpy widens them.
- The scripts run sequentially, so there is no concurrency to model.

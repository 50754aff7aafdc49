/**
 * Grayscale rasters as the scripts see them after cv2.cvtColor(..., COLOR_BGR2GRAY):
 * height rows of width 8-bit samples, indexed [y][x] with y = 0 at the top.
 */
module Raster {

  /** A numpy uint8 sample. */
  type Byte = v: int | 0 <= v < 256

  datatype Image = Image(width: nat, height: nat, rows: seq<seq<Byte>>) {

    /** numpy arrays are rectangular: height rows of width samples each. */
    predicate Valid()
    {
      |rows| == height && forall y :: 0 <= y < height ==> |rows[y]| == width
    }

    /** The bounds test `0 <= x < width and 0 <= y < height`. */
    predicate Contains(x: int, y: int)
    {
      0 <= x < width && 0 <= y < height
    }

    /** Every pixel is white (255), the colour the scripts read as no signal. */
    predicate White()
      requires Valid()
    {
      forall x, y :: 0 <= x < width && 0 <= y < height ==> rows[y][x] == 255
    }
  }

  /** `255 - pixel`: the scripts store 0 for no signal and 255 for the strongest signal. */
  function Invert(v: Byte): Byte
  {
    255 - v
  }

  /**
   * The intensity a gather transform stores for the source position (x, y):
   * the inverted pixel when (x, y) lies in the image, 0 otherwise.
   */
  function Sample(img: Image, x: int, y: int): Byte
    requires img.Valid()
  {
    if img.Contains(x, y) then Invert(img.rows[y][x]) else 0
  }

  /** A sample is 0 exactly when its position is outside the image or the pixel there is white. */
  lemma SampleIsZero(img: Image, x: int, y: int)
    requires img.Valid()
    ensures Sample(img, x, y) == 0 <==> !img.Contains(x, y) || img.rows[y][x] == 255
  {
  }

  /** numpy.sum of a row of samples (numpy widens the sum, so it never wraps around). */
  function Sum(s: seq<Byte>): nat
  {
    if s == [] then 0 else Sum(s[..|s| - 1]) + s[|s| - 1]
  }

  /** A sum of n samples is at most 255 n. */
  lemma {:induction false} SumBound(s: seq<Byte>)
    ensures Sum(s) <= 255 * |s|
  {
    if s != [] {
      SumBound(s[..|s| - 1]);
    }
  }

  /** A sum of samples is 0 exactly when every sample is 0. */
  lemma {:induction false} SumIsZero(s: seq<Byte>)
    ensures Sum(s) == 0 <==> forall i :: 0 <= i < |s| ==> s[i] == 0
  {
    if s != [] {
      var init := s[..|s| - 1];
      SumIsZero(init);
      assert forall i :: 0 <= i < |init| ==> init[i] == s[i];
    }
  }
}

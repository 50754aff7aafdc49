/**
 * Exact-arithmetic stand-ins for the numeric library calls of the scripts:
 * Python 2's round(), the rounded and the truncated Euclidean distance
 * between integer pixels, and the ranges of the trigonometric functions.
 */
module Numerics {

  /** round(v, 0) of Python 2 followed by int(): halves go away from zero. */
  function Round(v: real): (n: int)
    ensures (n as real) - 0.5 <= v <= (n as real) + 0.5
    ensures v >= 0.0 ==> n >= 0
    ensures v <= 0.0 ==> n <= 0
  {
    if v >= 0.0 then (v + 0.5).Floor else -((0.5 - v).Floor)
  }

  /** An exact half is rounded away from zero: up for positive values, down for negative ones. */
  lemma RoundHalvesAwayFromZero(v: real)
    ensures v > 0.0 ==> v < (Round(v) as real) + 0.5
    ensures v < 0.0 ==> (Round(v) as real) - 0.5 < v
  {
  }

  /** Rounding halves away from zero is symmetric, unlike floor(v + 0.5). */
  lemma RoundIsOdd(v: real)
    ensures Round(-v) == -Round(v)
  {
  }

  /** A value within [-bound, bound] rounds into [-bound, bound] for a whole bound. */
  lemma RoundWithin(v: real, bound: nat)
    requires -(bound as real) <= v <= bound as real
    ensures -(bound as int) <= Round(v) <= bound
  {
  }

  /** The magnitude of a whole number. */
  function Abs(k: int): nat
  {
    if k < 0 then -k else k
  }

  /** k squared, accumulated from odd numbers: Square(k) = 1 + 3 + ... + (2k - 1). */
  function Square(k: nat): nat
  {
    if k == 0 then 0 else Square(k - 1) + 2 * k - 1
  }

  /** Square is the product k * k. */
  lemma {:induction false} SquareIsProduct(k: nat)
    ensures Square(k) == k * k
  {
    if k > 0 {
      SquareIsProduct(k - 1);
    }
  }

  /** Squaring is monotone on whole numbers. */
  lemma {:induction false} SquareMonotone(a: nat, b: nat)
    requires a <= b
    ensures Square(a) <= Square(b)
    decreases b - a
  {
    if a < b {
      SquareMonotone(a, b - 1);
    }
  }

  /** The largest whole number whose square does not exceed n, searched upwards from r. */
  function FloorSqrtFrom(n: nat, r: nat): nat
    decreases n - r
  {
    if n < Square(r + 1) then r
    else
      SquareMonotone(1, r + 1);
      FloorSqrtFrom(n, r + 1)
  }

  /** The largest whole number whose square does not exceed n. */
  function FloorSqrt(n: nat): nat
  {
    FloorSqrtFrom(n, 0)
  }

  /** The search from any r whose square does not exceed n ends at the floor root. */
  lemma {:induction false} FloorSqrtFromBounds(n: nat, r: nat)
    requires Square(r) <= n
    ensures r <= FloorSqrtFrom(n, r)
    ensures Square(FloorSqrtFrom(n, r)) <= n < Square(FloorSqrtFrom(n, r) + 1)
    decreases n - r
  {
    if n >= Square(r + 1) {
      SquareMonotone(1, r + 1);
      FloorSqrtFromBounds(n, r + 1);
    }
  }

  /** FloorSqrt(n) squared is at most n, and its successor squared exceeds n. */
  lemma FloorSqrtBounds(n: nat)
    ensures Square(FloorSqrt(n)) <= n < Square(FloorSqrt(n) + 1)
  {
    FloorSqrtFromBounds(n, 0);
  }

  /** The squares of the odd neighbours of 2k, in terms of the square of k. */
  lemma OddSquares(k: nat)
    ensures Square(2 * k + 1) == 4 * Square(k) + 4 * k + 1
    ensures k > 0 ==> Square(2 * k - 1) == 4 * Square(k) - 4 * k + 1
  {
    SquareIsProduct(k);
    SquareIsProduct(2 * k + 1);
    if k > 0 {
      SquareIsProduct(2 * k - 1);
    }
  }

  /**
   * The whole number nearest to the square root of n, searched upwards from r:
   * r is nearest once n <= r * r + r, that is once 4n < (2r + 1)^2. The square
   * root of a whole number is never exactly half-way between two whole
   * numbers, so the nearest one is unique, whichever way ties would be broken.
   */
  function NearestSqrtFrom(n: nat, r: nat): nat
    decreases n - r
  {
    if n <= Square(r) + r then r else NearestSqrtFrom(n, r + 1)
  }

  /** The whole number nearest to the square root of n. */
  function NearestSqrt(n: nat): nat
  {
    NearestSqrtFrom(n, 0)
  }

  /** The search from any r not past the nearest root ends at the nearest root. */
  lemma {:induction false} NearestSqrtFromBounds(n: nat, r: nat)
    requires r > 0 ==> Square(2 * r - 1) <= 4 * n
    ensures r <= NearestSqrtFrom(n, r)
    ensures 4 * n < Square(2 * NearestSqrtFrom(n, r) + 1)
    ensures NearestSqrtFrom(n, r) > 0 ==> Square(2 * NearestSqrtFrom(n, r) - 1) <= 4 * n
    decreases n - r
  {
    OddSquares(r);
    if n > Square(r) + r {
      assert 2 * (r + 1) - 1 == 2 * r + 1;
      NearestSqrtFromBounds(n, r + 1);
    }
  }

  /** NearestSqrt(n) is within one half of the square root of n, and is 0 only for n = 0. */
  lemma NearestSqrtBounds(n: nat)
    ensures 4 * n < Square(2 * NearestSqrt(n) + 1)
    ensures NearestSqrt(n) > 0 ==> Square(2 * NearestSqrt(n) - 1) <= 4 * n
    ensures NearestSqrt(n) == 0 <==> n == 0
  {
    NearestSqrtFromBounds(n, 0);
  }

  /** FloorSqrt is determined by its contract. */
  lemma FloorSqrtUnique(n: nat, k: nat)
    requires Square(k) <= n < Square(k + 1)
    ensures FloorSqrt(n) == k
  {
    var r := FloorSqrt(n);
    FloorSqrtBounds(n);
    if r > k {
      SquareMonotone(k + 1, r);
    } else if r < k {
      SquareMonotone(r + 1, k);
    }
  }

  /**
   * NearestSqrt is determined by its contract. The proof does no induction;
   * Dafny's automatic induction on n and k only makes it slower.
   */
  lemma {:induction false} NearestSqrtUnique(n: nat, k: nat)
    requires 4 * n < Square(2 * k + 1)
    requires k > 0 ==> Square(2 * k - 1) <= 4 * n
    ensures NearestSqrt(n) == k
  {
    var r := NearestSqrt(n);
    NearestSqrtBounds(n);
    if r > k {
      SquareMonotone(2 * k + 1, 2 * r - 1);
    } else if r < k {
      SquareMonotone(2 * r + 1, 2 * k - 1);
    }
  }

  /** The rounded root of a perfect square is its root. */
  lemma NearestSqrtOfSquare(k: nat)
    ensures NearestSqrt(Square(k)) == k
  {
    OddSquares(k);
    NearestSqrtUnique(Square(k), k);
  }

  /** A whole number whose square is at most n is at most the rounded root of n. */
  lemma NearestSqrtDominates(n: nat, m: nat)
    requires Square(m) <= n
    ensures m <= NearestSqrt(n)
  {
    var r := NearestSqrt(n);
    NearestSqrtBounds(n);
    if m > r {
      SquareMonotone(2 * r + 1, 2 * m - 1);
      OddSquares(m);
    }
  }

  /** The squared Euclidean length of the offset (a, b); the signs are dropped first. */
  function SquaredLength(a: int, b: int): nat
    decreases (if a < 0 then 2 else 0) + (if b < 0 then 1 else 0)
  {
    if a < 0 then SquaredLength(-a, b)
    else if b < 0 then SquaredLength(a, -b)
    else Square(a) + Square(b)
  }

  /** The squared length is the sum of the squared magnitudes. */
  lemma {:induction false} SquaredLengthOfMagnitudes(a: int, b: int)
    ensures SquaredLength(a, b) == Square(Abs(a)) + Square(Abs(b))
    decreases (if a < 0 then 2 else 0) + (if b < 0 then 1 else 0)
  {
    if a < 0 {
      SquaredLengthOfMagnitudes(-a, b);
    } else if b < 0 {
      SquaredLengthOfMagnitudes(a, -b);
    }
  }

  /** int(round(math.hypot(a, b), 0)): the length of (a, b) rounded to the nearest whole number. */
  function RoundedHypot(a: int, b: int): nat
  {
    NearestSqrt(SquaredLength(a, b))
  }

  /** int(math.hypot(a, b)): the length of (a, b) truncated to a whole number. */
  function TruncatedHypot(a: int, b: int): nat
  {
    FloorSqrt(SquaredLength(a, b))
  }

  /** The rounded length is 0 only for the zero offset. */
  lemma RoundedHypotZero(a: int, b: int)
    ensures RoundedHypot(a, b) == 0 <==> a == 0 && b == 0
  {
    NearestSqrtBounds(SquaredLength(a, b));
    SquaredLengthOfMagnitudes(a, b);
    if a != 0 {
      SquareMonotone(1, Abs(a));
    } else if b != 0 {
      SquareMonotone(1, Abs(b));
    }
  }

  /** Neither coordinate of an offset is farther from 0 than its rounded length. */
  lemma RoundedHypotCoversCoordinate(a: int, b: int)
    ensures -(RoundedHypot(a, b) as int) <= b <= RoundedHypot(a, b)
  {
    SquaredLengthOfMagnitudes(a, b);
    NearestSqrtDominates(SquaredLength(a, b), Abs(b));
  }

  /** int(round(math.degrees(math.asin(...)))): a whole number of degrees within a quarter turn either way. */
  type AsinDegrees = d: int | -90 <= d <= 90

  /** A value of math.cos or math.sin. */
  type Ratio = c: real | -1.0 <= c <= 1.0

  /**
   * The trigonometry the scripts use, as values known only by their ranges:
   * asinDegrees(p, q) is int(round(degrees(asin(float(p) / float(q))))),
   * cosDegrees(d) is cos(radians(d)) and sinDegrees(d) is sin(radians(d)).
   */
  datatype Trig = Trig(
    asinDegrees: (int, int) -> AsinDegrees,
    cosDegrees: real -> Ratio,
    sinDegrees: real -> Ratio)

  /** A non-negative length scaled by a cosine or sine is at most the length. */
  lemma ScaledRatioAtMost(r: real, c: real)
    requires r >= 0.0 && c <= 1.0
    ensures r * c <= r
  {
  }

  /** A non-negative length scaled by a cosine or sine is at least minus the length. */
  lemma ScaledRatioAtLeast(r: real, c: real)
    requires r >= 0.0 && -1.0 <= c
    ensures -r <= r * c
  {
  }

  /** int(round(r * c, 0)): the whole-pixel offset along one axis of radius r at cosine or sine c. */
  function PolarOffset(r: nat, c: Ratio): int
  {
    Round((r as real) * c)
  }

  /** The offset along either axis stays within r of 0. */
  lemma PolarOffsetWithin(r: nat, c: Ratio)
    ensures -(r as int) <= PolarOffset(r, c) <= r
  {
    RoundedScaledRatioWithin(r, c);
  }

  /** The offset at radius 0 is 0 whatever the angle. */
  lemma PolarOffsetAtZero(c: Ratio)
    ensures PolarOffset(0, c) == 0
  {
    assert (0 as real) * c == 0.0;
  }

  /** Helper for PolarOffsetWithin: keeps the product r * c away from the unfolded offset. */
  lemma RoundedScaledRatioWithin(r: nat, c: Ratio)
    ensures -(r as int) <= Round((r as real) * c) <= r
  {
    ScaledRatioAtMost(r as real, c);
    ScaledRatioAtLeast(r as real, c);
    RoundWithin((r as real) * c, r);
  }
}

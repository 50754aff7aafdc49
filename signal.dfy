/**
 * The last step both integrating scripts share: the largest integral,
 * `max(Sy)`, and the relative signal `[float(item) / float(max(Sy)) for item in Sy]`.
 */
module Signal {
  import opened Wrappers

  /** The largest entry of a non-empty sequence of integrals. */
  function Max(s: seq<nat>): (m: nat)
    requires |s| > 0
    ensures m in s
    ensures forall i :: 0 <= i < |s| ==> s[i] <= m
  {
    if |s| == 1 then s[0]
    else
      var m := Max(s[..|s| - 1]);
      assert forall i :: 0 <= i < |s| - 1 ==> s[..|s| - 1][i] == s[i];
      if s[|s| - 1] > m then s[|s| - 1] else m
  }

  /** The largest entry is 0 exactly when every entry is 0. */
  lemma MaxIsZero(s: seq<nat>)
    requires |s| > 0
    ensures Max(s) == 0 <==> forall i :: 0 <= i < |s| ==> s[i] == 0
  {
  }

  /** Multiplying by a positive factor keeps the order of two reals, in both directions. */
  lemma ScalePreservesOrder(a: real, b: real, m: real)
    requires m > 0.0
    ensures a <= b <==> a * m <= b * m
  {
    if a <= b {
      assert (b - a) * m >= 0.0;
    } else {
      assert (a - b) * m > 0.0;
    }
  }

  /** Each integral of s divided by m, as Python's float division does it. */
  function Fractions(s: seq<nat>, m: nat): (v: seq<real>)
    requires 0 < m
    ensures |v| == |s|
    ensures forall i :: 0 <= i < |s| ==> v[i] == (s[i] as real) / (m as real)
  {
    if |s| == 0 then []
    else
      var front := s[..|s| - 1];
      assert forall i :: 0 <= i < |front| ==> front[i] == s[i];
      var v := Fractions(front, m) + [(s[|s| - 1] as real) / (m as real)];
      assert forall i :: 0 <= i < |front| ==> v[i] == Fractions(front, m)[i];
      v
  }

  /** A quotient of 1 by a positive divisor means the dividend is the divisor. */
  lemma QuotientOneMeansEqual(p: real, m: real)
    requires m > 0.0 && p / m == 1.0
    ensures p == m
  {
    assert p == (p / m) * m;
  }

  /** A positive number divided by itself is 1. */
  lemma QuotientOfSelf(m: real)
    requires m > 0.0
    ensures m / m == 1.0
  {
  }

  /** A whole number p <= m divided by m > 0 lies in [0, 1], and is 1 only for p == m. */
  lemma FractionInUnit(p: real, m: real)
    requires 0.0 <= p <= m && 0.0 < m
    ensures 0.0 <= p / m <= 1.0
    ensures p / m == 1.0 <==> p == m
  {
    var q := p / m;
    assert q * m == p;
    ScalePreservesOrder(q, 1.0, m);
    ScalePreservesOrder(0.0, q, m);
    if q == 1.0 {
      QuotientOneMeansEqual(p, m);
    }
    if p == m {
      QuotientOfSelf(m);
    }
  }

  /**
   * Every integral divided by the largest one: ValueError for no integrals,
   * ZeroDivisionError when the largest integral is 0.
   */
  function Normalise(s: seq<nat>): (res: Result<seq<real>, Failure>)
    ensures |s| == 0 ==> res == Failure(EmptySequence)
    ensures |s| > 0 ==> (res.Failure? <==> Max(s) == 0)
    ensures |s| > 0 && res.Failure? ==> res.error == DivisionByZero
    ensures res.Success? ==> |res.value| == |s|
    ensures res.Success? ==> forall i :: 0 <= i < |s| ==> res.value[i] == (s[i] as real) / (Max(s) as real)
  {
    if |s| == 0 then Failure(EmptySequence)
    else
      var m := Max(s);
      if m == 0 then Failure(DivisionByZero)
      else Success(Fractions(s, m))
  }

  /** Every normalised value lies in [0, 1]. */
  lemma NormalisedInUnit(s: seq<nat>, i: int)
    requires 0 <= i < |s| && Normalise(s).Success?
    ensures 0.0 <= Normalise(s).value[i] <= 1.0
  {
    FractionInUnit(s[i] as real, Max(s) as real);
  }

  /** Normalising fails exactly when there are no integrals or all of them are 0. */
  lemma NormaliseFails(s: seq<nat>)
    ensures Normalise(s).Failure? <==> forall i :: 0 <= i < |s| ==> s[i] == 0
  {
    if |s| > 0 {
      MaxIsZero(s);
    }
  }

  /** A normalised value is 1.0 exactly at the largest integrals, so the signal peaks at 1. */
  lemma NormalisedPeakIsOne(s: seq<nat>, i: int)
    requires 0 <= i < |s| && Normalise(s).Success?
    ensures Normalise(s).value[i] == 1.0 <==> s[i] == Max(s)
  {
    FractionInUnit(s[i] as real, Max(s) as real);
  }

  /** A normalised signal reaches 1.0 at some position. */
  lemma NormalisedReachesOne(s: seq<nat>)
    requires Normalise(s).Success?
    ensures exists i :: 0 <= i < |s| && Normalise(s).value[i] == 1.0
  {
    var i :| 0 <= i < |s| && s[i] == Max(s);
    NormalisedPeakIsOne(s, i);
  }

  /** Normalising keeps the order of the integrals, in both directions. */
  lemma NormalisePreservesOrder(s: seq<nat>, i: int, j: int)
    requires 0 <= i < |s| && 0 <= j < |s| && Normalise(s).Success?
    ensures s[i] <= s[j] <==> Normalise(s).value[i] <= Normalise(s).value[j]
  {
    DivisionPreservesOrder(s[i] as real, s[j] as real, Max(s) as real);
  }

  /** Dividing by a positive number keeps the order of two reals, in both directions. */
  lemma DivisionPreservesOrder(a: real, b: real, m: real)
    requires m > 0.0
    ensures a <= b <==> a / m <= b / m
  {
    var x, y := a / m, b / m;
    assert x * m == a && y * m == b;
    ScalePreservesOrder(x, y, m);
  }
}

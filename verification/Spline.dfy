/** The natural cubic spline: construction through a tridiagonal system, and evaluation by binary search. */
module Spline {
  import opened RealArithmetic
  import opened Searching
  import opened Tridiagonal

  datatype Error = EmptyPoints | TooFewPoints | SizeMismatch | NotSorted | OutOfRange | NotBuilt

  /** The coefficients of the cubic a dx^3 + b dx^2 + c dx + d on every segment. */
  datatype Coefficients = Coefficients(a: seq<real>, b: seq<real>, c: seq<real>, d: seq<real>)

  predicate Segments(s: Coefficients, n: nat) {
    n >= 1 && |s.a| == |s.b| == |s.c| == |s.d| == n - 1
  }

  function Cubic(a: real, b: real, c: real, d: real, dx: real): real {
    a * dx * dx * dx + b * dx * dx + c * dx + d
  }

  function CubicDiff(a: real, b: real, c: real, dx: real): real {
    3.0 * a * dx * dx + 2.0 * b * dx + c
  }

  function CubicQuadDiff(a: real, b: real, dx: real): real {
    6.0 * a * dx + 2.0 * b
  }

  /** Value, first and second derivative of segment i at distance dx from its left knot. */
  function PieceValue(s: Coefficients, n: nat, i: nat, dx: real): real
    requires Segments(s, n) && i < n - 1
  {
    Cubic(s.a[i], s.b[i], s.c[i], s.d[i], dx)
  }

  function PieceDiff(s: Coefficients, n: nat, i: nat, dx: real): real
    requires Segments(s, n) && i < n - 1
  {
    CubicDiff(s.a[i], s.b[i], s.c[i], dx)
  }

  function PieceQuadDiff(s: Coefficients, n: nat, i: nat, dx: real): real
    requires Segments(s, n) && i < n - 1
  {
    CubicQuadDiff(s.a[i], s.b[i], dx)
  }

  function Width(keys: seq<real>, i: nat): real
    requires i + 1 < |keys|
  {
    keys[i + 1] - keys[i]
  }

  /** The secant slope of segment i. */
  function Slope(keys: seq<real>, values: seq<real>, i: nat): real
    requires |values| == |keys| && i + 1 < |keys|
  {
    Div(values[i + 1] - values[i], Width(keys, i))
  }

  /** The spline passes through the value at both ends of segment i. */
  predicate Interpolates(s: Coefficients, keys: seq<real>, values: seq<real>, i: nat)
    requires |values| == |keys| && Segments(s, |keys|) && i + 1 < |keys|
  {
    && PieceValue(s, |keys|, i, 0.0) == values[i]
    && PieceValue(s, |keys|, i, Width(keys, i)) == values[i + 1]
  }

  /** First and second derivative agree from both sides of the interior knot i. */
  predicate SmoothAt(s: Coefficients, keys: seq<real>, i: nat)
    requires Segments(s, |keys|) && 0 < i && i + 1 < |keys|
  {
    && PieceDiff(s, |keys|, i - 1, Width(keys, i - 1)) == PieceDiff(s, |keys|, i, 0.0)
    && PieceQuadDiff(s, |keys|, i - 1, Width(keys, i - 1)) == PieceQuadDiff(s, |keys|, i, 0.0)
  }

  /** A natural cubic spline: twice continuously differentiable, with no curvature at either end. */
  predicate NaturalSpline(s: Coefficients, keys: seq<real>, values: seq<real>) {
    && |values| == |keys| >= 2 && Segments(s, |keys|)
    && (forall i :: 0 <= i < |keys| - 1 ==> Interpolates(s, keys, values, i))
    && (forall i :: 0 < i < |keys| - 1 ==> SmoothAt(s, keys, i))
    && PieceQuadDiff(s, |keys|, 0, 0.0) == 0.0
    && PieceQuadDiff(s, |keys|, |keys| - 2, Width(keys, |keys| - 2)) == 0.0
  }

  /**
   * What a natural spline is, in the coefficients: on every segment the cubic starts at the left value and ends at the
   * right one, its slope and curvature there are those the next segment starts with, and both ends have no curvature.
   */
  lemma NaturalSplineMeans(s: Coefficients, keys: seq<real>, values: seq<real>)
    requires |values| == |keys| >= 2 && |s.a| == |s.b| == |s.c| == |s.d| == |keys| - 1
    ensures NaturalSpline(s, keys, values)
            <==> && (forall i :: 0 <= i < |keys| - 1 ==> s.d[i] == values[i] && EndsAt(s, i, keys[i + 1] - keys[i], values[i + 1]))
                 && (forall i :: 0 < i < |keys| - 1 ==> ContinuesAt(s, i, keys[i] - keys[i - 1]))
                 && s.b[0] == 0.0 && 6.0 * s.a[|keys| - 2] * (keys[|keys| - 1] - keys[|keys| - 2]) + 2.0 * s.b[|keys| - 2] == 0.0
  {
    hide Cubic, CubicDiff, CubicQuadDiff, EndsAt, ContinuesAt, Interpolates, SmoothAt;
    if forall i :: 0 <= i < |keys| - 1 ==> s.d[i] == values[i] && EndsAt(s, i, keys[i + 1] - keys[i], values[i + 1]) {
      forall i | 0 <= i < |keys| - 1
        ensures Interpolates(s, keys, values, i)
      {
        InterpolatesMeans(s, keys, values, i);
      }
    }
    if forall i :: 0 < i < |keys| - 1 ==> ContinuesAt(s, i, keys[i] - keys[i - 1]) {
      forall i | 0 < i < |keys| - 1
        ensures SmoothAt(s, keys, i)
      {
        SmoothMeans(s, keys, i);
      }
    }
    if NaturalSpline(s, keys, values) {
      forall i | 0 <= i < |keys| - 1
        ensures s.d[i] == values[i] && EndsAt(s, i, keys[i + 1] - keys[i], values[i + 1])
      {
        InterpolatesMeans(s, keys, values, i);
      }
      forall i | 0 < i < |keys| - 1
        ensures ContinuesAt(s, i, keys[i] - keys[i - 1])
      {
        SmoothMeans(s, keys, i);
      }
    }
    Flat(s.a[0], s.b[0], s.c[0], s.d[0]);
    CurvatureMeans(s.a[|keys| - 2], s.b[|keys| - 2], keys[|keys| - 1] - keys[|keys| - 2]);
  }

  lemma InterpolatesMeans(s: Coefficients, keys: seq<real>, values: seq<real>, i: nat)
    requires |values| == |keys| && Segments(s, |keys|) && i + 1 < |keys|
    ensures Interpolates(s, keys, values, i) <==> s.d[i] == values[i] && EndsAt(s, i, keys[i + 1] - keys[i], values[i + 1])
  {
    Flat(s.a[i], s.b[i], s.c[i], s.d[i]);
  }

  lemma SmoothMeans(s: Coefficients, keys: seq<real>, i: nat)
    requires Segments(s, |keys|) && 0 < i && i + 1 < |keys|
    ensures SmoothAt(s, keys, i) <==> ContinuesAt(s, i, keys[i] - keys[i - 1])
  {
    Flat(s.a[i], s.b[i], s.c[i], s.d[i]);
  }

  lemma CurvatureMeans(a: real, b: real, h: real)
    ensures CubicQuadDiff(a, b, h) == 6.0 * a * h + 2.0 * b
  {
  }

  /** The cubic of segment i reaches the value y after h. */
  predicate EndsAt(s: Coefficients, i: nat, h: real, y: real)
    requires i < |s.a| == |s.b| == |s.c| == |s.d|
  {
    s.a[i] * h * h * h + s.b[i] * h * h + s.c[i] * h + s.d[i] == y
  }

  /** Slope and curvature at the end of segment i - 1, of width h, are those at the start of segment i. */
  predicate ContinuesAt(s: Coefficients, i: nat, h: real)
    requires 0 < i < |s.a| == |s.b| == |s.c| == |s.d|
  {
    && 3.0 * s.a[i - 1] * h * h + 2.0 * s.b[i - 1] * h + s.c[i - 1] == s.c[i]
    && 6.0 * s.a[i - 1] * h + 2.0 * s.b[i - 1] == 2.0 * s.b[i]
  }

  // ----- The tridiagonal system -----

  function SystemSide(keys: seq<real>): seq<real>
    requires |keys| >= 3
  {
    seq(|keys| - 3, i requires 0 <= i < |keys| - 3 => Width(keys, i + 1))
  }

  function SystemDiagonal(keys: seq<real>): seq<real>
    requires |keys| >= 3
  {
    seq(|keys| - 2, i requires 0 <= i < |keys| - 2 => 2.0 * (Width(keys, i) + Width(keys, i + 1)))
  }

  function SystemRight(keys: seq<real>, values: seq<real>): seq<real>
    requires |values| == |keys| >= 3
  {
    seq(|keys| - 2, i requires 0 <= i < |keys| - 2 => 6.0 * (Slope(keys, values, i + 1) - Slope(keys, values, i)))
  }

  /** What the construction divides by is nonzero. */
  predicate Solvable(keys: seq<real>) {
    && (forall i :: 0 <= i < |keys| - 1 ==> Width(keys, i) != 0.0)
    && (|keys| >= 3 ==> PivotsNonzero(SystemSide(keys), SystemDiagonal(keys), SystemSide(keys)))
  }

  /** Strictly increasing keys give a dominant, hence solvable, system. */
  lemma IncreasingSolvable(keys: seq<real>)
    requires Increasing(keys)
    ensures Solvable(keys)
  {
    if |keys| >= 3 {
      assert Dominant(SystemSide(keys), SystemDiagonal(keys), SystemSide(keys));
      DominantPivots(SystemSide(keys), SystemDiagonal(keys), SystemSide(keys));
    }
  }

  // ----- Moments: the second derivatives at the knots -----

  /** v holds the second derivatives at the knots of a natural spline. */
  predicate Moments(v: seq<real>, keys: seq<real>, values: seq<real>)
    requires |values| == |keys|
  {
    && |v| == |keys| >= 2 && v[0] == 0.0 && v[|v| - 1] == 0.0
    && (|keys| >= 3 ==>
          Solves(SystemSide(keys), SystemDiagonal(keys), SystemSide(keys), SystemRight(keys, values), v[1..|v| - 1]))
  }

  /** The leading and the linear coefficient of segment i in terms of the moments. */
  function LeadingFrom(v: seq<real>, keys: seq<real>, i: nat): real
    requires |keys| == |v| && i + 1 < |keys|
  {
    Div((v[i + 1] - v[i]) / 6.0, Width(keys, i))
  }

  function LinearFrom(v: seq<real>, keys: seq<real>, values: seq<real>, i: nat): real
    requires |values| == |keys| == |v| && i + 1 < |keys|
  {
    Slope(keys, values, i) - Width(keys, i) * (2.0 * v[i] + v[i + 1]) / 6.0
  }

  /** Segment i has the coefficients the moments give it. */
  predicate FromMoments(s: Coefficients, v: seq<real>, keys: seq<real>, values: seq<real>, i: nat)
    requires |values| == |keys| == |v| && Segments(s, |keys|) && i + 1 < |keys|
  {
    && s.a[i] == LeadingFrom(v, keys, i)
    && s.b[i] == v[i] / 2.0
    && s.c[i] == LinearFrom(v, keys, values, i)
    && s.d[i] == values[i]
  }

  /** A row of the system, read at the interior knot i. */
  lemma MomentRow(v: seq<real>, keys: seq<real>, values: seq<real>, i: nat)
    requires |values| == |keys| == |v| && 0 < i && i + 1 < |keys| && v[0] == 0.0 && v[|v| - 1] == 0.0
    ensures Row(SystemSide(keys), SystemDiagonal(keys), SystemSide(keys), v[1..|v| - 1], i - 1)
         == Width(keys, i - 1) * v[i - 1] + 2.0 * (Width(keys, i - 1) + Width(keys, i)) * v[i] + Width(keys, i) * v[i + 1]
  {
  }

  /** One cubic with end moments v and w: end values, end slopes and end curvatures. */
  lemma CubicFromMoments(h: real, v: real, w: real, slope: real, d: real)
    requires h != 0.0
    ensures var a, b, c := Div((w - v) / 6.0, h), v / 2.0, slope - h * (2.0 * v + w) / 6.0;
            && Cubic(a, b, c, d, h) == d + slope * h
            && CubicDiff(a, b, c, h) == slope + h * (v + 2.0 * w) / 6.0
            && CubicQuadDiff(a, b, h) == w
  {
    var a := Div((w - v) / 6.0, h);
    DivMul((w - v) / 6.0, h);
    assert a * h == (w - v) / 6.0;
    assert a * h * h == (w - v) / 6.0 * h;
    assert a * h * h * h == (w - v) / 6.0 * h * h;
  }

  lemma SegmentFromMoments(s: Coefficients, v: seq<real>, keys: seq<real>, values: seq<real>, i: nat)
    requires |values| == |keys| == |v| && Segments(s, |keys|) && i + 1 < |keys| && Width(keys, i) != 0.0
    requires FromMoments(s, v, keys, values, i)
    ensures var h, slope := Width(keys, i), Slope(keys, values, i);
            && Interpolates(s, keys, values, i)
            && PieceDiff(s, |keys|, i, 0.0) == slope - h * (2.0 * v[i] + v[i + 1]) / 6.0
            && PieceDiff(s, |keys|, i, h) == slope + h * (v[i] + 2.0 * v[i + 1]) / 6.0
            && PieceQuadDiff(s, |keys|, i, 0.0) == v[i] && PieceQuadDiff(s, |keys|, i, h) == v[i + 1]
  {
    var h, slope := Width(keys, i), Slope(keys, values, i);
    CubicFromMoments(h, v[i], v[i + 1], slope, values[i]);
    DivMul(values[i + 1] - values[i], h);
    Flat(s.a[i], s.b[i], s.c[i], s.d[i]);
  }

  lemma Flat(a: real, b: real, c: real, d: real)
    ensures Cubic(a, b, c, d, 0.0) == d && CubicDiff(a, b, c, 0.0) == c && CubicQuadDiff(a, b, 0.0) == 2.0 * b
  {
  }

  /** The slopes on both sides of a knot agree exactly when its row of the system holds. */
  lemma SlopesMeet(hl: real, hr: real, sl: real, sr: real, u: real, v: real, w: real)
    ensures sl + hl * (u + 2.0 * v) / 6.0 == sr - hr * (2.0 * v + w) / 6.0
       <==> hl * u + 2.0 * (hl + hr) * v + hr * w == 6.0 * (sr - sl)
  {
  }

  /** Coefficients computed from moments form a natural spline. */
  lemma MomentsGiveSpline(s: Coefficients, v: seq<real>, keys: seq<real>, values: seq<real>)
    requires |values| == |keys| >= 2 && Solvable(keys) && Segments(s, |keys|) && Moments(v, keys, values)
    requires forall i :: 0 <= i < |keys| - 1 ==> FromMoments(s, v, keys, values, i)
    ensures NaturalSpline(s, keys, values)
  {
    forall i | 0 <= i < |keys| - 1
      ensures Interpolates(s, keys, values, i)
    {
      SegmentFromMoments(s, v, keys, values, i);
    }
    forall i | 0 < i < |keys| - 1
      ensures SmoothAt(s, keys, i)
    {
      KnotIsSmooth(s, v, keys, values, i);
    }
    SegmentFromMoments(s, v, keys, values, 0);
    SegmentFromMoments(s, v, keys, values, |keys| - 2);
  }

  /** Between two segments from moments the second derivatives agree, and the first just when the row of the knot holds. */
  lemma KnotIsSmooth(s: Coefficients, v: seq<real>, keys: seq<real>, values: seq<real>, i: nat)
    requires |values| == |keys| == |v| && Segments(s, |keys|) && v[0] == 0.0 && v[|v| - 1] == 0.0
    requires 0 < i && i + 1 < |keys| && Width(keys, i - 1) != 0.0 && Width(keys, i) != 0.0
    requires FromMoments(s, v, keys, values, i - 1) && FromMoments(s, v, keys, values, i)
    ensures SmoothAt(s, keys, i)
       <==> Row(SystemSide(keys), SystemDiagonal(keys), SystemSide(keys), v[1..|v| - 1], i - 1) == SystemRight(keys, values)[i - 1]
  {
    SegmentFromMoments(s, v, keys, values, i - 1);
    SegmentFromMoments(s, v, keys, values, i);
    MomentRow(v, keys, values, i);
    SlopesMeet(Width(keys, i - 1), Width(keys, i), Slope(keys, values, i - 1), Slope(keys, values, i), v[i - 1], v[i], v[i + 1]);
  }

  // ----- Uniqueness -----

  /** The second derivatives of a spline at its knots. */
  function MomentsOf(s: Coefficients, n: nat): (v: seq<real>)
    requires Segments(s, n) && n >= 2
    ensures |v| == n
  {
    seq(n, i requires 0 <= i < n => if i < n - 1 then 2.0 * s.b[i] else 0.0)
  }

  /** A cubic with the end values and end curvatures of one from moments is that cubic. */
  lemma CubicIsFromMoments(a: real, b: real, c: real, d: real, h: real, w: real, slope: real)
    requires h != 0.0 && CubicQuadDiff(a, b, h) == w && Cubic(a, b, c, d, h) == d + slope * h
    ensures a == Div((w - 2.0 * b) / 6.0, h) && c == slope - h * (4.0 * b + w) / 6.0
  {
    DivMul((w - 2.0 * b) / 6.0, h);
    Cancel(a, Div((w - 2.0 * b) / 6.0, h), h);
    assert 6.0 * (a * h) == w - 2.0 * b;
    assert a * h * h == (w - 2.0 * b) / 6.0 * h;
    Cancel(c, slope - h * (4.0 * b + w) / 6.0, h);
  }

  lemma SplineSegmentIsFromMoments(s: Coefficients, keys: seq<real>, values: seq<real>, i: nat)
    requires NaturalSpline(s, keys, values) && Solvable(keys) && i + 1 < |keys|
    ensures FromMoments(s, MomentsOf(s, |keys|), keys, values, i)
  {
    var n, h := |keys|, Width(keys, i);
    assert Interpolates(s, keys, values, i);
    Flat(s.a[i], s.b[i], s.c[i], s.d[i]);
    DivMul(values[i + 1] - values[i], h);
    if i + 1 < n - 1 {
      assert SmoothAt(s, keys, i + 1);
      Flat(s.a[i + 1], s.b[i + 1], s.c[i + 1], s.d[i + 1]);
    }
    CubicIsFromMoments(s.a[i], s.b[i], s.c[i], s.d[i], h, MomentsOf(s, n)[i + 1], Slope(keys, values, i));
  }

  /** The second derivatives of every natural spline solve the system. */
  lemma SplineGivesMoments(s: Coefficients, keys: seq<real>, values: seq<real>)
    requires NaturalSpline(s, keys, values) && Solvable(keys)
    ensures Moments(MomentsOf(s, |keys|), keys, values)
  {
    var n, v := |keys|, MomentsOf(s, |keys|);
    Flat(s.a[0], s.b[0], s.c[0], s.d[0]);
    if n >= 3 {
      forall j | 0 <= j < n - 2
        ensures Row(SystemSide(keys), SystemDiagonal(keys), SystemSide(keys), v[1..n - 1], j) == SystemRight(keys, values)[j]
      {
        SplineSegmentIsFromMoments(s, keys, values, j);
        SplineSegmentIsFromMoments(s, keys, values, j + 1);
        assert SmoothAt(s, keys, j + 1);
        KnotIsSmooth(s, v, keys, values, j + 1);
      }
    }
  }

  /** Through given points there is only one natural spline. */
  lemma NaturalSplineUnique(s: Coefficients, t: Coefficients, keys: seq<real>, values: seq<real>)
    requires NaturalSpline(s, keys, values) && NaturalSpline(t, keys, values) && Solvable(keys)
    ensures s == t
  {
    var n := |keys|;
    var v, w := MomentsOf(s, n), MomentsOf(t, n);
    SplineGivesMoments(s, keys, values);
    SplineGivesMoments(t, keys, values);
    if n >= 3 {
      SolutionUnique(SystemSide(keys), SystemDiagonal(keys), SystemSide(keys), SystemRight(keys, values), v[1..n - 1], w[1..n - 1]);
    }
    assert v == w by {
      assert forall i :: 0 < i < n - 1 ==> v[i] == v[1..n - 1][i - 1] && w[i] == w[1..n - 1][i - 1];
    }
    forall i | 0 <= i < n - 1
      ensures s.a[i] == t.a[i] && s.b[i] == t.b[i] && s.c[i] == t.c[i] && s.d[i] == t.d[i]
    {
      SplineSegmentIsFromMoments(s, keys, values, i);
      SplineSegmentIsFromMoments(t, keys, values, i);
    }
  }
}

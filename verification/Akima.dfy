/** The Akima spline: cubic pieces through the points whose knot slopes weigh the neighbouring secants. */
module Akima {
  import opened Wrappers
  import opened RealArithmetic
  import opened Searching
  import opened Spline
  import opened SplineObject

  /** Below this the weights are taken as equal. */
  const EPSILON := 0.00001

  predicate DistinctNeighbours(keys: seq<real>) {
    forall i :: 0 <= i < |keys| - 1 ==> Width(keys, i) != 0.0
  }

  /** The slope at an inner knot from the four secants around it: outer left, left, right, outer right. */
  function Weighted(ll: real, l: real, r: real, rr: real): real {
    var denom := Abs(rr - r) + Abs(l - ll);
    if Abs(denom) < EPSILON then (l + r) / 2.0
    else Div(Abs(rr - r) * l + Abs(l - ll) * r, denom)
  }

  /** The slope of the spline at knot i. */
  function KnotSlope(keys: seq<real>, values: seq<real>, i: nat): real
    requires |values| == |keys| >= 2 && i < |keys|
  {
    var n := |keys|;
    if i == 0 then Slope(keys, values, 0)
    else if i == n - 1 then Slope(keys, values, n - 2)
    else if i == 1 || i == n - 2 then (Slope(keys, values, i - 1) + Slope(keys, values, i)) / 2.0
    else Weighted(Slope(keys, values, i - 2), Slope(keys, values, i - 1), Slope(keys, values, i), Slope(keys, values, i + 1))
  }

  predicate Between(x: real, u: real, v: real) {
    Min(u, v) <= x <= Max(u, v)
  }

  /** A weighted mean lies between what it averages. */
  lemma WeightedBetween(ll: real, l: real, r: real, rr: real)
    ensures Between(Weighted(ll, l, r, rr), l, r)
    ensures ll == l && Abs(rr - r) >= EPSILON ==> Weighted(ll, l, r, rr) == l
    ensures rr == r && Abs(l - ll) >= EPSILON ==> Weighted(ll, l, r, rr) == r
  {
    var u, v := Abs(rr - r), Abs(l - ll);
    var x := Div(u * l + v * r, u + v);
    if u + v >= EPSILON {
      DivMul(u * l + v * r, u + v);
      assert Weighted(ll, l, r, rr) == x;
      MeanBetween(u, v, l, r, x);
    } else {
      assert Weighted(ll, l, r, rr) == (l + r) / 2.0;
    }
  }

  lemma MeanBetween(u: real, v: real, l: real, r: real, x: real)
    requires u >= 0.0 && v >= 0.0 && u + v > 0.0 && x * (u + v) == u * l + v * r
    ensures Between(x, l, r)
    ensures v == 0.0 ==> x == l
    ensures u == 0.0 ==> x == r
  {
    if l <= r {
      MeanOrdered(u, v, l, r, x);
    } else {
      MeanOrdered(v, u, r, l, x);
    }
    if v == 0.0 {
      Cancel(x, l, u);
    }
    if u == 0.0 {
      Cancel(x, r, v);
    }
  }

  lemma MeanOrdered(u: real, v: real, l: real, r: real, x: real)
    requires u >= 0.0 && v >= 0.0 && u + v > 0.0 && x * (u + v) == u * l + v * r && l <= r
    ensures l <= x <= r
  {
    MulNonneg(u, r - l);
    MulNonneg(v, r - l);
    if x < l {
      MulPositive(u + v, l - x);
    }
    if x > r {
      MulPositive(u + v, x - r);
    }
  }

  /** The slope at every interior knot lies between the secants on its two sides; at an end it is the one secant. */
  lemma KnotSlopeBetween(keys: seq<real>, values: seq<real>, i: nat)
    requires |values| == |keys| >= 2 && i < |keys|
    ensures 0 < i < |keys| - 1 ==> Between(KnotSlope(keys, values, i), Slope(keys, values, i - 1), Slope(keys, values, i))
    ensures i == 0 ==> KnotSlope(keys, values, i) == Slope(keys, values, 0)
    ensures i == |keys| - 1 ==> KnotSlope(keys, values, i) == Slope(keys, values, i - 1)
  {
    if 1 < i < |keys| - 2 {
      WeightedBetween(Slope(keys, values, i - 2), Slope(keys, values, i - 1), Slope(keys, values, i), Slope(keys, values, i + 1));
    }
  }

  /** m[k] is the secant slope of segment k. */
  ghost predicate AreSecants(m: seq<real>, keys: seq<real>, values: seq<real>) {
    && |values| == |keys| == |m| + 1
    && forall k :: 0 <= k < |m| ==> keys[k + 1] != keys[k] && m[k] * (keys[k + 1] - keys[k]) == values[k + 1] - values[k]
  }

  /**
   * The slope x at every knot, in terms of the secants and of nothing else: the one secant at an end; the mean of the two
   * secants next to an end, and where the neighbouring secants differ by less than 0.00001 in all; elsewhere the point
   * whose distances to the two secants are inversely as the jumps of the secants on the other side.
   */
  lemma KnotSlopeLaws(keys: seq<real>, values: seq<real>, m: seq<real>, i: nat)
    requires AreSecants(m, keys, values) && |keys| >= 2 && i < |keys|
    ensures var n, x := |keys|, KnotSlope(keys, values, i);
            && (i == 0 ==> x == m[0])
            && (i == n - 1 ==> x == m[n - 2])
            && (i == 1 < n - 1 || 0 < i == n - 2 ==> x - m[i - 1] == m[i] - x)
            && (1 < i < n - 2 ==>
                  var u, v := Abs(m[i + 1] - m[i]), Abs(m[i - 1] - m[i - 2]);
                  && (u + v >= 0.00001 ==> u * (x - m[i - 1]) == v * (m[i] - x))
                  && (u + v < 0.00001 ==> x - m[i - 1] == m[i] - x))
  {
    hide Weighted, Slope;
    forall k: nat | k < |m|
      ensures Slope(keys, values, k) == m[k]
    {
      SecantIsSlope(keys, values, m, k);
    }
    if 1 < i < |keys| - 2 {
      WeightedMeans(m[i - 2], m[i - 1], m[i], m[i + 1]);
    }
  }

  lemma SecantIsSlope(keys: seq<real>, values: seq<real>, m: seq<real>, k: nat)
    requires AreSecants(m, keys, values) && k < |m|
    ensures Slope(keys, values, k) == m[k]
  {
    assert keys[k + 1] != keys[k] && m[k] * (keys[k + 1] - keys[k]) == values[k + 1] - values[k];
    Secant(values[k + 1] - values[k], Width(keys, k), m[k]);
  }

  lemma WeightedMeans(ll: real, l: real, r: real, rr: real)
    ensures var x, u, v := Weighted(ll, l, r, rr), Abs(rr - r), Abs(l - ll);
            && (u + v >= 0.00001 ==> u * (x - l) == v * (r - x))
            && (u + v < 0.00001 ==> x - l == r - x)
  {
    var u, v := Abs(rr - r), Abs(l - ll);
    if u + v >= 0.00001 {
      DivMul(u * l + v * r, u + v);
      WeightedBalance(u, v, l, r, Weighted(ll, l, r, rr));
    }
  }

  lemma WeightedBalance(u: real, v: real, l: real, r: real, x: real)
    requires x * (u + v) == u * l + v * r
    ensures u * (x - l) == v * (r - x)
  {
  }

  // ----- Values of a line, of a parabola, and in a mirror -----

  /** Values on a line give its slope at every knot, however the keys are spaced. */
  lemma LineSlopes(keys: seq<real>, values: seq<real>, slope: real, offset: real, i: nat)
    requires |values| == |keys| >= 2 && i < |keys| && DistinctNeighbours(keys)
    requires forall k :: 0 <= k < |keys| ==> values[k] == Line(slope, offset, keys[k])
    ensures KnotSlope(keys, values, i) == slope
  {
    hide Line, Slope, KnotSlope;
    forall k: nat | k < |keys| - 1
      ensures Slope(keys, values, k) == slope
    {
      LineSecant(keys, values, slope, offset, k);
    }
    KnotSlopeBetween(keys, values, i);
  }

  function Line(slope: real, offset: real, x: real): real {
    slope * x + offset
  }

  lemma LineSecant(keys: seq<real>, values: seq<real>, slope: real, offset: real, k: nat)
    requires |values| == |keys| && k + 1 < |keys| && Width(keys, k) != 0.0
    requires values[k] == Line(slope, offset, keys[k]) && values[k + 1] == Line(slope, offset, keys[k + 1])
    ensures Slope(keys, values, k) == slope
  {
    Secant(values[k + 1] - values[k], Width(keys, k), slope);
  }

  lemma LinePiece(slope: real, y: real, h: real)
    ensures Cubic(0.0, 0.0, slope, y, h) == y + slope * h && CubicDiff(0.0, 0.0, slope, h) == slope
  {
  }

  lemma LineShifted(slope: real, offset: real, x: real, dx: real)
    ensures Cubic(0.0, 0.0, slope, Line(slope, offset, x), dx) == Line(slope, offset, x + dx)
  {
  }

  lemma Secant(rise: real, h: real, slope: real)
    requires h != 0.0 && rise == slope * h
    ensures Div(rise, h) == slope
  {
    DivMul(rise, h);
    Cancel(Div(rise, h), slope, h);
  }

  /** The parabola a x^2 + b x + c. */
  function Parabola(a: real, b: real, c: real, x: real): real {
    a * x * x + b * x + c
  }

  /** Equally spaced values of a parabola. */
  predicate OnParabola(keys: seq<real>, values: seq<real>, h: real, a: real, b: real, c: real) {
    && |values| == |keys| >= 2 && h != 0.0
    && (forall k :: 0 <= k < |keys| - 1 ==> keys[k + 1] - keys[k] == h)
    && forall k :: 0 <= k < |keys| ==> values[k] == Parabola(a, b, c, keys[k])
  }

  lemma ParabolaSecant(keys: seq<real>, values: seq<real>, h: real, a: real, b: real, c: real, k: nat)
    requires OnParabola(keys, values, h, a, b, c) && k < |keys| - 1
    ensures Width(keys, k) == h && Slope(keys, values, k) == a * (2.0 * keys[k] + h) + b
  {
    assert keys[k + 1] - keys[k] == h;
    ParabolaRise(a, b, c, keys[k], h);
    assert keys[k + 1] == keys[k] + h;
    Secant(values[k + 1] - values[k], h, a * (2.0 * keys[k] + h) + b);
  }

  lemma ParabolaRise(a: real, b: real, c: real, x: real, h: real)
    ensures Parabola(a, b, c, x + h) - Parabola(a, b, c, x) == (a * (2.0 * x + h) + b) * h
  {
  }

  /** Equally spaced values of a parabola give its exact slope at every inner knot. */
  lemma ParabolaSlopes(keys: seq<real>, values: seq<real>, h: real, a: real, b: real, c: real, i: nat)
    requires OnParabola(keys, values, h, a, b, c) && 0 < i < |keys| - 1
    ensures KnotSlope(keys, values, i) == 2.0 * a * keys[i] + b
  {
    hide Parabola, Slope, Weighted;
    var jump := 2.0 * a * h;
    NeighbourSlopes(keys, values, h, a, b, c, i);
    if 1 < i < |keys| - 2 {
      NeighbourSlopes(keys, values, h, a, b, c, i - 1);
      NeighbourSlopes(keys, values, h, a, b, c, i + 1);
      EvenWeights(Slope(keys, values, i - 2), Slope(keys, values, i - 1), Slope(keys, values, i), Slope(keys, values, i + 1), jump);
    }
  }

  lemma NeighbourSlopes(keys: seq<real>, values: seq<real>, h: real, a: real, b: real, c: real, i: nat)
    requires OnParabola(keys, values, h, a, b, c) && 0 < i < |keys| - 1
    ensures Slope(keys, values, i) - Slope(keys, values, i - 1) == 2.0 * a * h
    ensures Slope(keys, values, i - 1) + Slope(keys, values, i) == 2.0 * (2.0 * a * keys[i] + b)
  {
    ParabolaSecant(keys, values, h, a, b, c, i - 1);
    ParabolaSecant(keys, values, h, a, b, c, i);
    assert keys[i - 1 + 1] - keys[i - 1] == h;
    MeanSecant(a, b, keys[i - 1], h);
  }

  lemma MeanSecant(a: real, b: real, x: real, h: real)
    ensures (a * (2.0 * (x + h) + h) + b) - (a * (2.0 * x + h) + b) == 2.0 * a * h
    ensures (a * (2.0 * x + h) + b) + (a * (2.0 * (x + h) + h) + b) == 2.0 * (2.0 * a * (x + h) + b)
  {
  }

  lemma EvenWeights(ll: real, l: real, r: real, rr: real, jump: real)
    requires l - ll == r - l == rr - r == jump
    ensures 2.0 * Weighted(ll, l, r, rr) == l + r
  {
    var x, u := Weighted(ll, l, r, rr), Abs(jump);
    WeightedMeans(ll, l, r, rr);
    if u + u >= 0.00001 {
      Cancel(x - l, r - x, u);
    }
  }

  /** The reversed keys with opposite sign, and the values in reverse. */
  predicate Mirrored(keys: seq<real>, values: seq<real>, keys': seq<real>, values': seq<real>) {
    && |values| == |keys| == |keys'| == |values'| >= 2
    && forall k :: 0 <= k < |keys| ==> keys'[k] == -keys[|keys| - 1 - k] && values'[k] == values[|keys| - 1 - k]
  }

  /** Looking at the points in a mirror turns every slope round. */
  lemma MirrorSlopes(keys: seq<real>, values: seq<real>, keys': seq<real>, values': seq<real>, i: nat)
    requires Mirrored(keys, values, keys', values') && DistinctNeighbours(keys) && i < |keys|
    ensures KnotSlope(keys', values', i) == -KnotSlope(keys, values, |keys| - 1 - i)
  {
    hide Slope, Weighted;
    var n := |keys|;
    forall k: nat | k < n - 1
      ensures Slope(keys', values', k) == -Slope(keys, values, n - 2 - k)
    {
      MirrorSecant(keys, values, keys', values', k);
    }
    if 1 < i < n - 2 {
      var j := n - 1 - i;
      MirrorWeighted(Slope(keys, values, j - 2), Slope(keys, values, j - 1), Slope(keys, values, j), Slope(keys, values, j + 1));
    }
  }

  lemma MirrorSecant(keys: seq<real>, values: seq<real>, keys': seq<real>, values': seq<real>, k: nat)
    requires Mirrored(keys, values, keys', values') && DistinctNeighbours(keys) && k < |keys| - 1
    ensures Width(keys', k) == Width(keys, |keys| - 2 - k)
    ensures Slope(keys', values', k) == -Slope(keys, values, |keys| - 2 - k)
  {
    var j := |keys| - 2 - k;
    assert Width(keys, j) != 0.0;
    DivMul(values[j + 1] - values[j], Width(keys, j));
    Secant(values'[k + 1] - values'[k], Width(keys', k), -Slope(keys, values, j));
  }

  lemma MirrorWeighted(ll: real, l: real, r: real, rr: real)
    ensures Weighted(-rr, -r, -l, -ll) == -Weighted(ll, l, r, rr)
  {
    var u, v := Abs(rr - r), Abs(l - ll);
    var x, y := Weighted(ll, l, r, rr), Weighted(-rr, -r, -l, -ll);
    WeightedMeans(ll, l, r, rr);
    WeightedMeans(-rr, -r, -l, -ll);
    if u + v >= 0.00001 {
      assert v * (y + r) == u * (-l - y);
      assert (u + v) * y == -(u * l + v * r) == -((u + v) * x);
      Cancel(y, -x, u + v);
    }
  }

  // ----- The pieces -----

  /** Piece i has the base values and the knot slopes at both of its ends. */
  predicate HermitePiece(s: Coefficients, keys: seq<real>, values: seq<real>, i: nat)
    requires |values| == |keys| >= 2 && Segments(s, |keys|) && i + 1 < |keys|
  {
    && Interpolates(s, keys, values, i)
    && PieceDiff(s, |keys|, i, 0.0) == KnotSlope(keys, values, i)
    && PieceDiff(s, |keys|, i, Width(keys, i)) == KnotSlope(keys, values, i + 1)
  }

  predicate AkimaSpline(s: Coefficients, keys: seq<real>, values: seq<real>) {
    |values| == |keys| >= 2 && Segments(s, |keys|) && forall i :: 0 <= i < |keys| - 1 ==> HermitePiece(s, keys, values, i)
  }

  /** The pieces meet at every interior knot with equal value and equal slope, and the slope is between the secants. */
  lemma PiecesMeet(s: Coefficients, keys: seq<real>, values: seq<real>, i: nat)
    requires AkimaSpline(s, keys, values) && 0 < i < |keys| - 1
    ensures PieceValue(s, |keys|, i - 1, Width(keys, i - 1)) == values[i] == PieceValue(s, |keys|, i, 0.0)
    ensures PieceDiff(s, |keys|, i - 1, Width(keys, i - 1)) == PieceDiff(s, |keys|, i, 0.0)
    ensures Between(PieceDiff(s, |keys|, i, 0.0), Slope(keys, values, i - 1), Slope(keys, values, i))
  {
    assert HermitePiece(s, keys, values, i - 1) && HermitePiece(s, keys, values, i);
    KnotSlopeBetween(keys, values, i);
  }

  /** Coefficients a and b of one piece, from its width, its secant and the slopes at its ends. */
  function LeadingPair(h: real, m: real, s: real, t: real): (real, real) {
    (Div(s + t - 2.0 * m, Pow2(h)), Div(3.0 * m - 2.0 * s - t, h))
  }

  /** A cubic with value y and slope s on the left has value y + m h and slope t on the right just with these coefficients. */
  lemma CubicFromSlopes(a: real, b: real, s: real, y: real, h: real, m: real, t: real)
    requires h != 0.0
    ensures Cubic(a, b, s, y, h) == y + m * h && CubicDiff(a, b, s, h) == t <==> (a, b) == LeadingPair(h, m, s, t)
  {
    Pow2Positive(h);
    var a', b' := Div(s + t - 2.0 * m, Pow2(h)), Div(3.0 * m - 2.0 * s - t, h);
    DivMul(s + t - 2.0 * m, Pow2(h));
    DivMul(3.0 * m - 2.0 * s - t, h);
    if (a, b) == (a', b') {
      CubicEnds(a, b, s, y, h, m, t);
    } else if Cubic(a, b, s, y, h) == y + m * h && CubicDiff(a, b, s, h) == t {
      CubicUnique(a, b, s, y, h, m, t);
      Cancel(a, a', Pow2(h));
      Cancel(b, b', h);
    }
  }

  lemma CubicEnds(a: real, b: real, s: real, y: real, h: real, m: real, t: real)
    requires a * Pow2(h) == s + t - 2.0 * m && b * h == 3.0 * m - 2.0 * s - t
    ensures Cubic(a, b, s, y, h) == y + m * h && CubicDiff(a, b, s, h) == t
  {
    assert a * h * h == s + t - 2.0 * m;
    assert a * h * h * h == (s + t - 2.0 * m) * h;
    assert b * h * h == (3.0 * m - 2.0 * s - t) * h;
  }

  lemma CubicUnique(a: real, b: real, s: real, y: real, h: real, m: real, t: real)
    requires h != 0.0 && Cubic(a, b, s, y, h) == y + m * h && CubicDiff(a, b, s, h) == t
    ensures a * Pow2(h) == s + t - 2.0 * m && b * h == 3.0 * m - 2.0 * s - t
  {
    assert (a * h * h + b * h + s) * h == m * h;
    Cancel(a * h * h + b * h + s, m, h);
  }

  /** The secant of segment i rises from its left value to its right value. */
  lemma Rise(keys: seq<real>, values: seq<real>, i: nat)
    requires |values| == |keys| && i + 1 < |keys| && Width(keys, i) != 0.0
    ensures values[i] + Slope(keys, values, i) * Width(keys, i) == values[i + 1]
  {
    DivMul(values[i + 1] - values[i], Width(keys, i));
  }

  /** The Akima spline through given points is unique. */
  lemma AkimaUnique(s: Coefficients, t: Coefficients, keys: seq<real>, values: seq<real>)
    requires AkimaSpline(s, keys, values) && AkimaSpline(t, keys, values) && DistinctNeighbours(keys)
    ensures s == t
  {
    forall i | 0 <= i < |keys| - 1
      ensures s.a[i] == t.a[i] && s.b[i] == t.b[i] && s.c[i] == t.c[i] && s.d[i] == t.d[i]
    {
      assert Width(keys, i) != 0.0 && HermitePiece(s, keys, values, i) && HermitePiece(t, keys, values, i);
      PieceDetermined(s, keys, values, i);
      PieceDetermined(t, keys, values, i);
    }
  }

  /** A piece has the base values and knot slopes at its ends just when it has these coefficients. */
  lemma PieceDetermined(s: Coefficients, keys: seq<real>, values: seq<real>, i: nat)
    requires |values| == |keys| >= 2 && Segments(s, |keys|) && i < |keys| - 1 && Width(keys, i) != 0.0
    ensures HermitePiece(s, keys, values, i) <==>
              && (s.a[i], s.b[i])
                 == LeadingPair(Width(keys, i), Slope(keys, values, i), KnotSlope(keys, values, i), KnotSlope(keys, values, i + 1))
              && s.c[i] == KnotSlope(keys, values, i) && s.d[i] == values[i]
  {
    hide KnotSlope, Slope, Cubic, CubicDiff, LeadingPair;
    Flat(s.a[i], s.b[i], s.c[i], s.d[i]);
    Rise(keys, values, i);
    CubicFromSlopes(s.a[i], s.b[i], s.c[i], s.d[i], Width(keys, i), Slope(keys, values, i), KnotSlope(keys, values, i + 1));
  }

  /** The spline of values on a line is the line. */
  lemma LineReproduced(s: Coefficients, keys: seq<real>, values: seq<real>, slope: real, offset: real, i: nat, dx: real)
    requires AkimaSpline(s, keys, values) && DistinctNeighbours(keys) && i < |keys| - 1
    requires forall k :: 0 <= k < |keys| ==> values[k] == Line(slope, offset, keys[k])
    ensures PieceValue(s, |keys|, i, dx) == Line(slope, offset, keys[i] + dx)
  {
    hide KnotSlope, Slope, LeadingPair, Line, Cubic, CubicDiff;
    var h := Width(keys, i);
    assert h != 0.0 && HermitePiece(s, keys, values, i);
    LineSecant(keys, values, slope, offset, i);
    LineSlopes(keys, values, slope, offset, i);
    LineSlopes(keys, values, slope, offset, i + 1);
    PieceDetermined(s, keys, values, i);
    LinePiece(slope, values[i], h);
    CubicFromSlopes(0.0, 0.0, slope, values[i], h, slope, slope);
    LineShifted(slope, offset, keys[i], dx);
  }

  /** Between knots 1 and n - 2 the spline of equally spaced values of a parabola is the parabola. */
  lemma ParabolaReproduced(s: Coefficients, keys: seq<real>, values: seq<real>, h: real, a: real, b: real, c: real, i: nat, dx: real)
    requires AkimaSpline(s, keys, values) && OnParabola(keys, values, h, a, b, c) && 0 < i < |keys| - 2
    ensures PieceValue(s, |keys|, i, dx) == Parabola(a, b, c, keys[i] + dx)
  {
    hide KnotSlope, Slope, Parabola, LeadingPair, Cubic, CubicDiff;
    var x := keys[i];
    ParabolaSecant(keys, values, h, a, b, c, i);
    ParabolaSlopes(keys, values, h, a, b, c, i);
    ParabolaSlopes(keys, values, h, a, b, c, i + 1);
    StepOfParabola(keys, values, h, a, b, c, i);
    assert HermitePiece(s, keys, values, i);
    PieceDetermined(s, keys, values, i);
    ParabolaPiece(a, b, c, x, h);
    var m, u, v := a * (2.0 * x + h) + b, 2.0 * a * x + b, 2.0 * a * (x + h) + b;
    assert Slope(keys, values, i) == m && KnotSlope(keys, values, i) == u;
    assert KnotSlope(keys, values, i + 1) == v by {
      assert keys[i + 1] == x + h;
    }
    CubicFromSlopes(0.0, a, u, values[i], h, m, v);
    assert s.a[i] == 0.0 && s.b[i] == a && s.c[i] == u && s.d[i] == values[i];
    ParabolaShifted(a, b, c, x, dx);
  }

  lemma StepOfParabola(keys: seq<real>, values: seq<real>, h: real, a: real, b: real, c: real, i: nat)
    requires OnParabola(keys, values, h, a, b, c) && i < |keys| - 1
    ensures h != 0.0 && keys[i + 1] == keys[i] + h && values[i] == Parabola(a, b, c, keys[i])
  {
    assert keys[i + 1] - keys[i] == h;
  }

  lemma ParabolaPiece(a: real, b: real, c: real, x: real, h: real)
    ensures var y := Parabola(a, b, c, x);
            && Cubic(0.0, a, 2.0 * a * x + b, y, h) == y + (a * (2.0 * x + h) + b) * h
            && CubicDiff(0.0, a, 2.0 * a * x + b, h) == 2.0 * a * (x + h) + b
  {
  }

  lemma ParabolaShifted(a: real, b: real, c: real, x: real, dx: real)
    ensures Cubic(0.0, a, 2.0 * a * x + b, Parabola(a, b, c, x), dx) == Parabola(a, b, c, x + dx)
  {
  }

  /** The spline of the mirrored points is the mirrored spline. */
  lemma MirrorSpline(s: Coefficients, t: Coefficients, keys: seq<real>, values: seq<real>,
                     keys': seq<real>, values': seq<real>, i: nat, dx: real)
    requires AkimaSpline(s, keys, values) && AkimaSpline(t, keys', values') && Mirrored(keys, values, keys', values')
    requires DistinctNeighbours(keys) && i < |keys| - 1
    ensures PieceValue(t, |keys|, i, dx) == PieceValue(s, |keys|, |keys| - 2 - i, Width(keys, |keys| - 2 - i) - dx)
  {
    hide KnotSlope, Slope, LeadingPair, Cubic, CubicDiff;
    var j := |keys| - 2 - i;
    var h := Width(keys, j);
    assert h != 0.0 && HermitePiece(s, keys, values, j) && HermitePiece(t, keys', values', i);
    MirrorSecant(keys, values, keys', values', i);
    MirrorSlopes(keys, values, keys', values', i);
    MirrorSlopes(keys, values, keys', values', i + 1);
    MirrorPiece(s.a[j], s.b[j], s.c[j], s.d[j], t.a[i], t.b[i], t.c[i], t.d[i], h, dx);
  }

  /** Two cubics with mirrored values and opposite slopes at both ends mirror each other. */
  lemma MirrorPiece(a: real, b: real, c: real, d: real, a': real, b': real, c': real, d': real, h: real, dx: real)
    requires h != 0.0
    requires Cubic(a', b', c', d', 0.0) == Cubic(a, b, c, d, h) && Cubic(a', b', c', d', h) == Cubic(a, b, c, d, 0.0)
    requires CubicDiff(a', b', c', 0.0) == -CubicDiff(a, b, c, h) && CubicDiff(a', b', c', h) == -CubicDiff(a, b, c, 0.0)
    ensures Cubic(a', b', c', d', dx) == Cubic(a, b, c, d, h - dx)
  {
    var s, y := -CubicDiff(a, b, c, h), Cubic(a, b, c, d, h);
    TurnedRound(a, b, c, d, h, 0.0);
    TurnedRound(a, b, c, d, h, h);
    TurnedRound(a, b, c, d, h, dx);
    Flat(a', b', c', d');
    var m := (d - y) / h;
    DivOfProduct(d - y, h);
    assert y + m * h == d;
    CubicFromSlopes(a', b', s, y, h, m, -c);
    CubicFromSlopes(-a, 3.0 * a * h + b, s, y, h, m, -c);
  }

  lemma DivOfProduct(x: real, h: real)
    requires h != 0.0
    ensures x / h * h == x
  {
  }

  lemma TurnedRound(a: real, b: real, c: real, d: real, h: real, dx: real)
    ensures Cubic(-a, 3.0 * a * h + b, -CubicDiff(a, b, c, h), Cubic(a, b, c, d, h), dx) == Cubic(a, b, c, d, h - dx)
    ensures CubicDiff(-a, 3.0 * a * h + b, -CubicDiff(a, b, c, h), dx) == -CubicDiff(a, b, c, h - dx)
    ensures Cubic(a, b, c, d, 0.0) == d && CubicDiff(a, b, c, 0.0) == c
  {
  }

  // ----- Queries -----

  /** The piece the cursor moves to for a query: the first from j on that does not end before it, if there is one. */
  function Advance(keys: seq<real>, j: nat, query: real): (r: Option<nat>)
    ensures r.Some? ==> j <= r.value < |keys| - 1 && query <= keys[r.value + 1]
    ensures r.Some? ==> forall k :: j < k <= r.value ==> keys[k] < query
    ensures r.None? ==> forall k :: j < k < |keys| ==> keys[k] < query
    decreases |keys| - j
  {
    if j + 1 >= |keys| then None
    else if keys[j + 1] < query then Advance(keys, j + 1, query)
    else Some(j)
  }

  /** The pieces for a list of queries; the cursor never moves back. */
  function Cursor(keys: seq<real>, j: nat, queries: seq<real>): (r: Option<seq<nat>>)
    ensures r.Some? ==> |r.value| == |queries| && forall i :: 0 <= i < |queries| ==> j <= r.value[i] < |keys| - 1
    decreases |queries|
  {
    if queries == [] then Some([])
    else
      match Advance(keys, j, queries[0])
      case None => None
      case Some(first) => Prepend([first], Cursor(keys, first, queries[1..]))
  }

  function Prepend(pieces: seq<nat>, others: Option<seq<nat>>): (r: Option<seq<nat>>)
    ensures pieces == [] ==> r == others
    ensures others.Some? ==> r.Some? && |r.value| == |pieces| + |others.value|
  {
    match others
    case None => None
    case Some(more) =>
      assert pieces == [] ==> pieces + more == more;
      Some(pieces + more)
  }

  lemma PrependTwice(pieces: seq<nat>, j: nat, others: Option<seq<nat>>)
    ensures Prepend(pieces, Prepend([j], others)) == Prepend(pieces + [j], others)
  {
    if others.Some? {
      assert pieces + ([j] + others.value) == pieces + [j] + others.value;
    }
  }

  /** Moving the cursor to a query finds the segment of that query, unless the query lies beyond the last key. */
  lemma AdvanceIsSearch(keys: seq<real>, j: nat, query: real)
    requires Increasing(keys) && j < |keys| - 1 && (j > 0 ==> keys[j] < query)
    ensures Advance(keys, j, query).None? <==> query > keys[|keys| - 1]
    ensures Advance(keys, j, query).Some? ==>
              var i := Advance(keys, j, query).value;
              i == SegmentIndex(keys, query) && (i > 0 ==> keys[i] < query)
  {
  }

  /** Sorted queries get exactly the segments a search from scratch gives them, unless one lies beyond the last key. */
  lemma {:induction false} CursorIsSearch(keys: seq<real>, j: nat, queries: seq<real>)
    requires Increasing(keys) && |keys| >= 2 && j < |keys| - 1
    requires IsNotDecreasing(queries) && (j > 0 && queries != [] ==> keys[j] < queries[0])
    ensures Cursor(keys, j, queries).None? <==> exists i :: 0 <= i < |queries| && queries[i] > keys[|keys| - 1]
    ensures Cursor(keys, j, queries).Some? ==>
              forall i :: 0 <= i < |queries| ==> Cursor(keys, j, queries).value[i] == SegmentIndex(keys, queries[i])
    decreases |queries|
  {
    hide Advance, SegmentIndex;
    if queries == [] {
    } else {
      var rest := queries[1..];
      AdvanceIsSearch(keys, j, queries[0]);
      match Advance(keys, j, queries[0]) {
        case None =>
        case Some(first) =>
          assert rest != [] ==> queries[0] <= queries[1];
          CursorIsSearch(keys, first, rest);
          assert forall i :: 0 < i < |queries| ==> queries[i] == rest[i - 1];
          forall i | 0 <= i < |rest| && rest[i] > keys[|keys| - 1]
            ensures queries[i + 1] > keys[|keys| - 1]
          {
          }
      }
    }
  }

  /** From any position the cursor moves on to the segment of the query, or stays when it is past that segment. */
  lemma AdvanceIsMax(keys: seq<real>, j: nat, query: real)
    requires Increasing(keys) && j < |keys| - 1 && query <= keys[|keys| - 1]
    ensures var i := SegmentIndex(keys, query);
            Advance(keys, j, query) == Some(if i < j then j else i)
  {
  }

  /** The query's segment, and that of every later query, is not before position j and those of the queries before it. */
  predicate NeverBack(keys: seq<real>, j: nat, queries: seq<real>)
    requires |keys| >= 2
  {
    && (queries != [] ==> j <= SegmentIndex(keys, queries[0]))
    && forall i :: 0 < i < |queries| ==> SegmentIndex(keys, queries[i - 1]) <= SegmentIndex(keys, queries[i])
  }

  predicate PiecesFit(keys: seq<real>, queries: seq<real>, pieces: seq<nat>)
    requires |keys| >= 2 && |pieces| == |queries|
  {
    forall i :: 0 <= i < |queries| ==> pieces[i] == SegmentIndex(keys, queries[i])
  }

  /**
   * The source does not check that queries are sorted. For queries in any order, none beyond the last key, the cursor
   * gives the segments of a search from scratch if and only if no segment lies before that of the previous query.
   */
  lemma {:induction false} CursorInAnyOrder(keys: seq<real>, j: nat, queries: seq<real>)
    requires Increasing(keys) && |keys| >= 2 && j < |keys| - 1
    requires forall i :: 0 <= i < |queries| ==> queries[i] <= keys[|keys| - 1]
    ensures Cursor(keys, j, queries).Some?
    ensures PiecesFit(keys, queries, Cursor(keys, j, queries).value) <==> NeverBack(keys, j, queries)
    decreases |queries|
  {
    hide Advance, SegmentIndex;
    if queries == [] {
    } else {
      var rest, first := queries[1..], SegmentIndex(keys, queries[0]);
      var next := if first < j then j else first;
      AdvanceIsMax(keys, j, queries[0]);
      CursorInAnyOrder(keys, next, rest);
      var pieces := Cursor(keys, next, rest).value;
      assert Cursor(keys, j, queries).value == [next] + pieces;
      assert PiecesFit(keys, queries, [next] + pieces) <==> next == first && PiecesFit(keys, rest, pieces) by {
        FirstPieceFits(keys, queries, next, pieces);
      }
      NeverBackFrom(keys, j, queries);
    }
  }

  lemma FirstPieceFits(keys: seq<real>, queries: seq<real>, first: nat, pieces: seq<nat>)
    requires |keys| >= 2 && queries != [] && |pieces| == |queries| - 1
    ensures PiecesFit(keys, queries, [first] + pieces)
       <==> first == SegmentIndex(keys, queries[0]) && PiecesFit(keys, queries[1..], pieces)
  {
    hide SegmentIndex;
    var all, rest := [first] + pieces, queries[1..];
    if PiecesFit(keys, queries, all) {
      forall i | 0 <= i < |rest|
        ensures pieces[i] == SegmentIndex(keys, rest[i])
      {
        assert all[i + 1] == SegmentIndex(keys, queries[i + 1]);
      }
    }
    if first == SegmentIndex(keys, queries[0]) && PiecesFit(keys, rest, pieces) {
      forall i | 0 <= i < |queries|
        ensures all[i] == SegmentIndex(keys, queries[i])
      {
        if i > 0 {
          assert pieces[i - 1] == SegmentIndex(keys, rest[i - 1]);
        }
      }
    }
  }

  lemma NeverBackFrom(keys: seq<real>, j: nat, queries: seq<real>)
    requires |keys| >= 2 && queries != []
    ensures var first := SegmentIndex(keys, queries[0]);
            NeverBack(keys, j, queries) <==> j <= first && NeverBack(keys, first, queries[1..])
  {
    hide SegmentIndex;
    var rest, first := queries[1..], SegmentIndex(keys, queries[0]);
    if NeverBack(keys, j, queries) {
      forall i | 0 < i < |rest|
        ensures SegmentIndex(keys, rest[i - 1]) <= SegmentIndex(keys, rest[i])
      {
        assert SegmentIndex(keys, queries[i + 1 - 1]) <= SegmentIndex(keys, queries[i + 1]);
      }
      if rest != [] {
        assert SegmentIndex(keys, queries[1 - 1]) <= SegmentIndex(keys, queries[1]);
      }
    }
    if j <= first && NeverBack(keys, first, rest) {
      forall i | 0 < i < |queries|
        ensures SegmentIndex(keys, queries[i - 1]) <= SegmentIndex(keys, queries[i])
      {
        if i > 1 {
          assert SegmentIndex(keys, rest[i - 1 - 1]) <= SegmentIndex(keys, rest[i - 1]);
        }
      }
    }
  }

  /** A query before the previous one is evaluated in that one's piece. */
  lemma UnsortedQueryMisplaced()
    ensures Cursor([0.0, 1.0, 2.0], 0, [1.5, 0.5]) == Some([1, 1]) && SegmentIndex([0.0, 1.0, 2.0], 0.5) == 0
  {
    var keys := [0.0, 1.0, 2.0];
    assert Advance(keys, 0, 1.5) == Some(1) && Advance(keys, 1, 0.5) == Some(1);
    assert [1.5, 0.5][1..] == [0.5] && [0.5][1..] == [];
    assert Cursor(keys, 1, []) == Some([]) && [1] + [] == [1];
    assert Cursor(keys, 1, [0.5]) == Some([1]);
    assert [1] + [1] == [1, 1];
    assert SegmentIndex(keys, 0.5) == 0;
  }

  // ----- The loops of splineByAkima -----

  method Secants(keys: seq<real>, values: seq<real>) returns (m: seq<real>)
    requires |values| == |keys| >= 2 && DistinctNeighbours(keys)
    ensures |m| == |keys| - 1 && forall k :: 0 <= k < |m| ==> m[k] == Slope(keys, values, k)
  {
    m := [];
    for i := 0 to |keys| - 1
      invariant |m| == i && forall k :: 0 <= k < i ==> m[k] == Slope(keys, values, k)
    {
      assert Width(keys, i) != 0.0;
      m := m + [(values[i + 1] - values[i]) / (keys[i + 1] - keys[i])];
    }
  }

  method KnotSlopes(keys: seq<real>, values: seq<real>, m: seq<real>) returns (s: seq<real>)
    requires |values| == |keys| >= 2 && |m| == |keys| - 1 && forall k :: 0 <= k < |m| ==> m[k] == Slope(keys, values, k)
    ensures |s| == |keys| && forall k :: 0 <= k < |s| ==> s[k] == KnotSlope(keys, values, k)
  {
    s := [];
    for i := 0 to |keys|
      invariant |s| == i && forall k :: 0 <= k < i ==> s[k] == KnotSlope(keys, values, k)
    {
      if i == 0 {
        s := s + [m[0]];
      } else if i == |keys| - 1 {
        s := s + [m[|keys| - 2]];
      } else if i == 1 || i == |keys| - 2 {
        s := s + [(m[i - 1] + m[i]) / 2.0];
      } else {
        s := s + [Weighted(m[i - 2], m[i - 1], m[i], m[i + 1])];
      }
    }
  }

  method PieceCoefficients(keys: seq<real>, values: seq<real>, m: seq<real>, s: seq<real>) returns (r: Coefficients)
    requires |values| == |keys| == |s| >= 2 && |m| == |keys| - 1
    ensures Segments(r, |keys|)
    ensures forall k :: 0 <= k < |m| ==>
              (r.a[k], r.b[k]) == LeadingPair(Width(keys, k), m[k], s[k], s[k + 1]) && r.c[k] == s[k] && r.d[k] == values[k]
  {
    var a: seq<real>, b: seq<real>, c: seq<real>, d: seq<real> := [], [], [], [];
    for i := 0 to |keys| - 1
      invariant |a| == |b| == |c| == |d| == i
      invariant forall k :: 0 <= k < i ==>
                  (a[k], b[k]) == LeadingPair(Width(keys, k), m[k], s[k], s[k + 1]) && c[k] == s[k] && d[k] == values[k]
    {
      var pair := LeadingPair(keys[i + 1] - keys[i], m[i], s[i], s[i + 1]);
      a := a + [pair.0];
      b := b + [pair.1];
      c := c + [s[i]];
      d := d + [values[i]];
    }
    r := Coefficients(a, b, c, d);
  }

  /**
   * The Akima spline evaluated at the query keys. The source does not validate its keys: they must have distinct
   * neighbours, and a single key is undefined behaviour. It throws when there are no keys, when values are missing, or
   * when a query runs past the last key.
   */
  method SplineByAkima(keys: seq<real>, values: seq<real>, queries: seq<real>)
    returns (r: Result<seq<real>, Error>, ghost s: Coefficients)
    requires |keys| != 1 && DistinctNeighbours(keys)
    ensures keys == [] || |values| < |keys| ==> r == Err(OutOfRange)
    ensures keys != [] && |values| >= |keys| ==> AkimaSpline(s, keys, values[..|keys|])
    ensures keys != [] && |values| >= |keys| ==>
              match Cursor(keys, 0, queries)
              case None => r == Err(OutOfRange)
              case Some(pieces) =>
                r.Ok? && |r.value| == |queries|
                && forall i :: 0 <= i < |queries| ==>
                     r.value[i] == AnswerAt(s, keys, pieces[i], queries[i])
  {
    if keys == [] || |values| < |keys| {
      s := Coefficients([], [], [], []);
      return Err(OutOfRange), s;
    }
    var base := values[..|keys|];
    var m := Secants(keys, base);
    var slopes := KnotSlopes(keys, base, m);
    var c := PieceCoefficients(keys, base, m, slopes);
    forall i | 0 <= i < |keys| - 1
      ensures HermitePiece(c, keys, base, i)
    {
      assert Width(keys, i) != 0.0;
      PieceDetermined(c, keys, base, i);
    }
    s := c;
    var answers := EvaluateQueries(c, keys, queries);
    return answers, s;
  }

  /** The inner loop: moves the cursor to the piece of a query, or to the last key when the query lies beyond it. */
  method Seek(keys: seq<real>, start: nat, query: real) returns (j: nat)
    requires start < |keys|
    ensures j < |keys|
    ensures Advance(keys, start, query) == if j + 1 == |keys| then None else Some(j)
  {
    j := start;
    while j + 1 < |keys| && keys[j + 1] < query
      invariant j < |keys|
      invariant Advance(keys, start, query) == Advance(keys, j, query)
    {
      j := j + 1;
    }
  }

  /** The value of piece j at a query. */
  function AnswerAt(c: Coefficients, keys: seq<real>, j: nat, query: real): real
    requires Segments(c, |keys|) && j < |keys| - 1
  {
    PieceValue(c, |keys|, j, query - keys[j])
  }

  /** Sorted queries up to the last key are all answered, each with the value of the spline at the query. */
  lemma SortedQueriesAnswered(c: Coefficients, keys: seq<real>, queries: seq<real>)
    requires Increasing(keys) && |keys| >= 2 && Segments(c, |keys|) && IsNotDecreasing(queries)
    requires forall i :: 0 <= i < |queries| ==> queries[i] <= keys[|keys| - 1]
    ensures Cursor(keys, 0, queries).Some?
    ensures forall i :: 0 <= i < |queries| ==>
              AnswerAt(c, keys, Cursor(keys, 0, queries).value[i], queries[i]) == Evaluate(c, keys, queries[i])
  {
    hide Cursor, SegmentIndex, PieceValue;
    CursorIsSearch(keys, 0, queries);
  }

  /** The query loop. The cursor is kept from one query to the next. */
  method EvaluateQueries(c: Coefficients, keys: seq<real>, queries: seq<real>) returns (r: Result<seq<real>, Error>)
    requires |keys| >= 2 && Segments(c, |keys|)
    ensures match Cursor(keys, 0, queries)
            case None => r == Err(OutOfRange)
            case Some(pieces) =>
              r.Ok? && |r.value| == |queries|
              && forall i :: 0 <= i < |queries| ==> r.value[i] == AnswerAt(c, keys, pieces[i], queries[i])
  {
    hide AnswerAt;
    var res: seq<real> := [];
    var j := 0;
    ghost var pieces: seq<nat> := [];
    assert queries[0..] == queries;
    for i := 0 to |queries|
      invariant |res| == |pieces| == i && 0 <= j < |keys| - 1
      invariant forall k :: 0 <= k < i ==> 0 <= pieces[k] < |keys| - 1
      invariant forall k :: 0 <= k < i ==> res[k] == AnswerAt(c, keys, pieces[k], queries[k])
      invariant Cursor(keys, 0, queries) == Prepend(pieces, Cursor(keys, j, queries[i..]))
    {
      assert queries[i..][0] == queries[i] && queries[i..][1..] == queries[i + 1..];
      j := Seek(keys, j, queries[i]);
      if j + 1 == |keys| {
        return Err(OutOfRange);
      }
      res := res + [AnswerAt(c, keys, j, queries[i])];
      PrependTwice(pieces, j, Cursor(keys, j, queries[i + 1..]));
      pieces := pieces + [j];
    }
    return Ok(res);
  }
}

/** The spline object: construction, segment lookup, scalar and vector getters, and the validation of query keys. */
module SplineObject {
  import opened Wrappers
  import opened Searching
  import opened Tridiagonal
  import opened Spline

  // ----- Segment lookup and evaluation -----

  /** The segment a key is evaluated in: the one that ends at or after it, clamped to the first and last segment. */
  function SegmentIndex(keys: seq<real>, key: real): (i: nat)
    requires |keys| >= 2
    ensures i <= |keys| - 2
    ensures Increasing(keys) ==> (i > 0 ==> keys[i] < key) && (i < |keys| - 2 ==> key <= keys[i + 1])
  {
    var lower := LowerBound(keys, key);
    if lower - 1 < 0 then 0 else if lower - 1 > |keys| - 2 then |keys| - 2 else lower - 1
  }

  function Evaluate(s: Coefficients, keys: seq<real>, key: real): real
    requires |keys| >= 2 && Segments(s, |keys|)
  {
    var i := SegmentIndex(keys, key);
    PieceValue(s, |keys|, i, key - keys[i])
  }

  function EvaluateDiff(s: Coefficients, keys: seq<real>, key: real): real
    requires |keys| >= 2 && Segments(s, |keys|)
  {
    var i := SegmentIndex(keys, key);
    PieceDiff(s, |keys|, i, key - keys[i])
  }

  function EvaluateQuadDiff(s: Coefficients, keys: seq<real>, key: real): real
    requires |keys| >= 2 && Segments(s, |keys|)
  {
    var i := SegmentIndex(keys, key);
    PieceQuadDiff(s, |keys|, i, key - keys[i])
  }

  /**
   * At every knot, the last one and those looked up in the segment on their left included, the spline takes the base
   * value, and its derivatives are those of the segment on the right where there is one.
   */
  lemma KnotValues(s: Coefficients, keys: seq<real>, values: seq<real>, k: nat)
    requires NaturalSpline(s, keys, values) && Increasing(keys) && k < |keys|
    ensures Evaluate(s, keys, keys[k]) == values[k]
    ensures k < |keys| - 1 ==> EvaluateDiff(s, keys, keys[k]) == PieceDiff(s, |keys|, k, 0.0)
    ensures k < |keys| - 1 ==> EvaluateQuadDiff(s, keys, keys[k]) == PieceQuadDiff(s, |keys|, k, 0.0)
  {
    var i := SegmentIndex(keys, keys[k]);
    assert Interpolates(s, keys, values, i);
    if k > 0 {
      assert i == k - 1;
      if k < |keys| - 1 {
        assert SmoothAt(s, keys, k);
      }
    }
  }

  /**
   * Between keys of one segment the three getters are value, slope and curvature of one cubic with leading coefficient a:
   * each is the Taylor expansion of the others.
   */
  lemma GettersAreDerivatives(s: Coefficients, keys: seq<real>, u: real, w: real)
    requires |keys| >= 2 && Segments(s, |keys|) && SegmentIndex(keys, u) == SegmentIndex(keys, w)
    ensures var h, a := w - u, s.a[SegmentIndex(keys, u)];
            && Evaluate(s, keys, w)
               == Evaluate(s, keys, u) + h * EvaluateDiff(s, keys, u) + h * h / 2.0 * EvaluateQuadDiff(s, keys, u) + h * h * h * a
            && EvaluateDiff(s, keys, w) == EvaluateDiff(s, keys, u) + h * EvaluateQuadDiff(s, keys, u) + 3.0 * h * h * a
            && EvaluateQuadDiff(s, keys, w) == EvaluateQuadDiff(s, keys, u) + 6.0 * h * a
  {
    hide SegmentIndex, Cubic, CubicDiff, CubicQuadDiff;
    var i, h := SegmentIndex(keys, u), w - u;
    var x := u - keys[i];
    assert w - keys[i] == x + h;
    Taylor(s.a[i], s.b[i], s.c[i], s.d[i], x, h);
    assert Evaluate(s, keys, w) == Cubic(s.a[i], s.b[i], s.c[i], s.d[i], x + h);
    assert EvaluateDiff(s, keys, w) == CubicDiff(s.a[i], s.b[i], s.c[i], x + h);
    assert EvaluateQuadDiff(s, keys, w) == CubicQuadDiff(s.a[i], s.b[i], x + h);
  }

  lemma Taylor(a: real, b: real, c: real, d: real, x: real, h: real)
    ensures Cubic(a, b, c, d, x + h)
         == Cubic(a, b, c, d, x) + h * CubicDiff(a, b, c, x) + h * h / 2.0 * CubicQuadDiff(a, b, x) + h * h * h * a
    ensures CubicDiff(a, b, c, x + h) == CubicDiff(a, b, c, x) + h * CubicQuadDiff(a, b, x) + 3.0 * h * h * a
    ensures CubicQuadDiff(a, b, x + h) == CubicQuadDiff(a, b, x) + 6.0 * h * a
  {
  }

  /** The straight line through affine values, as spline coefficients. */
  function LineCoefficients(slope: real, values: seq<real>): Coefficients
    requires |values| >= 1
  {
    var zeros := seq(|values| - 1, _ => 0.0);
    Coefficients(zeros, zeros, seq(|values| - 1, _ => slope), values[..|values| - 1])
  }

  lemma LineIsNatural(slope: real, offset: real, keys: seq<real>, values: seq<real>)
    requires |values| == |keys| >= 2 && forall i :: 0 <= i < |keys| ==> values[i] == slope * keys[i] + offset
    ensures NaturalSpline(LineCoefficients(slope, values), keys, values)
  {
    var s := LineCoefficients(slope, values);
    forall i | 0 <= i < |keys| - 1
      ensures Interpolates(s, keys, values, i)
    {
      assert slope * (keys[i + 1] - keys[i]) + values[i] == values[i + 1];
    }
    forall i | 0 < i < |keys| - 1
      ensures SmoothAt(s, keys, i)
    {
    }
  }

  /** When the base values are affine in the keys, every query, inside the range or not, returns the affine value. */
  lemma AffineReproduced(s: Coefficients, slope: real, offset: real, keys: seq<real>, values: seq<real>, key: real)
    requires NaturalSpline(s, keys, values) && Solvable(keys)
    requires forall i :: 0 <= i < |keys| ==> values[i] == slope * keys[i] + offset
    ensures Evaluate(s, keys, key) == slope * key + offset
    ensures EvaluateDiff(s, keys, key) == slope && EvaluateQuadDiff(s, keys, key) == 0.0
  {
    hide SegmentIndex, Interpolates, SmoothAt, Solvable;
    LineIsNatural(slope, offset, keys, values);
    NaturalSplineUnique(s, LineCoefficients(slope, values), keys, values);
    var i := SegmentIndex(keys, key);
    assert slope * (key - keys[i]) + (slope * keys[i] + offset) == slope * key + offset;
  }

  // ----- Validation of keys -----

  /** What is thrown for base keys and values that cannot be built from. */
  function ValidateKeysAndValues(keys: seq<real>, values: seq<real>): Option<Error> {
    if keys == [] || values == [] then Some(EmptyPoints)
    else if |keys| < 2 || |values| < 2 then Some(TooFewPoints)
    else if |keys| != |values| then Some(SizeMismatch)
    else None
  }

  /** A spline is built from just as many values as keys, at least two of each; each other input has its own error. */
  lemma ValidExactly(keys: seq<real>, values: seq<real>)
    ensures ValidateKeysAndValues(keys, values).None? <==> |keys| == |values| >= 2
    ensures ValidateKeysAndValues(keys, values) == Some(EmptyPoints) <==> |keys| == 0 || |values| == 0
    ensures ValidateKeysAndValues(keys, values) == Some(TooFewPoints)
            <==> |keys| > 0 && |values| > 0 && (|keys| == 1 || |values| == 1)
    ensures ValidateKeysAndValues(keys, values) == Some(SizeMismatch) <==> |keys| >= 2 && |values| >= 2 && |keys| != |values|
  {
  }

  predicate IsIncreasing(x: seq<real>) {
    forall i :: 0 <= i < |x| - 1 ==> x[i] < x[i + 1]
  }

  predicate IsNotDecreasing(x: seq<real>) {
    forall i :: 0 <= i < |x| - 1 ==> x[i] <= x[i + 1]
  }

  /** Neighbours in order put the whole sequence in order. */
  lemma {:induction false} NeighboursSuffice(x: seq<real>, i: nat, j: nat)
    requires i <= j < |x|
    ensures IsNotDecreasing(x) ==> x[i] <= x[j]
    ensures IsIncreasing(x) && i < j ==> x[i] < x[j]
  {
    if i == j {
    } else {
      NeighboursSuffice(x, i, j - 1);
    }
  }

  /** How far, in key units, a query may lie outside the base keys. */
  const KEY_EPSILON := 0.001

  /** The query keys with the first one raised and the last one lowered into the base range, or what is thrown. */
  function ValidateKeys(keys: seq<real>, queries: seq<real>): (r: Result<seq<real>, Error>)
    ensures r.Ok? ==> |r.value| == |queries| >= 1 && |keys| >= 2
  {
    if keys == [] || queries == [] then Err(EmptyPoints)
    else if |keys| < 2 then Err(TooFewPoints)
    else if !IsIncreasing(keys) || !IsNotDecreasing(queries) then Err(NotSorted)
    else if queries[0] < keys[0] - KEY_EPSILON || keys[|keys| - 1] + KEY_EPSILON < queries[|queries| - 1] then Err(OutOfRange)
    else
      var raised := queries[0 := Max(queries[0], keys[0])];
      Ok(raised[|raised| - 1 := Min(raised[|raised| - 1], keys[|keys| - 1])])
  }

  /**
   * Queries are accepted just when there are some, the base keys are at least two and strictly increasing, the queries are
   * sorted, and none lies further than 0.001 outside. Then the first is raised to the first key, if below it, and the
   * last lowered to the last key, if above it, and no other is changed.
   */
  lemma AcceptedKeysExactly(keys: seq<real>, queries: seq<real>)
    ensures ValidateKeys(keys, queries).Ok?
            <==> && |keys| >= 2 && |queries| >= 1
                 && (forall i :: 0 <= i < |keys| - 1 ==> keys[i] < keys[i + 1])
                 && (forall i :: 0 <= i < |queries| - 1 ==> queries[i] <= queries[i + 1])
                 && queries[0] >= keys[0] - 0.001 && queries[|queries| - 1] <= keys[|keys| - 1] + 0.001
    ensures keys == [] || queries == [] ==> ValidateKeys(keys, queries) == Err(EmptyPoints)
    ensures |keys| == 1 && queries != [] ==> ValidateKeys(keys, queries) == Err(TooFewPoints)
    ensures ValidateKeys(keys, queries).Ok? ==>
              var q := ValidateKeys(keys, queries).value;
              var low, high, last := keys[0], keys[|keys| - 1], |queries| - 1;
              && |q| == |queries|
              && (forall i :: 0 < i < last ==> q[i] == queries[i])
              && (last > 0 ==> q[0] == if queries[0] < low then low else queries[0])
              && (last > 0 ==> q[last] == if queries[last] > high then high else queries[last])
              && (last == 0 ==> q[0] == if queries[0] < low then low else if queries[0] > high then high else queries[0])
  {
    if |keys| >= 2 && IsIncreasing(keys) {
      NeighboursSuffice(keys, 0, |keys| - 1);
    }
  }

  predicate Within(keys: seq<real>, key: real)
    requires keys != []
  {
    keys[0] <= key <= keys[|keys| - 1]
  }

  /** No query but the first lies below the base range, and none but the last above it. */
  predicate OnlyEndsOutside(keys: seq<real>, queries: seq<real>)
    requires keys != []
  {
    forall i :: 0 <= i < |queries| ==>
      (i > 0 ==> keys[0] <= queries[i]) && (i < |queries| - 1 ==> queries[i] <= keys[|keys| - 1])
  }

  /**
   * Only the two end queries are cropped: the validated keys all lie in the base range if and only if none but the
   * first query lies below it and none but the last above it, and just then they are still sorted. Queries inside the
   * range come back as they are.
   */
  lemma CropExactly(keys: seq<real>, queries: seq<real>)
    requires ValidateKeys(keys, queries).Ok?
    ensures var q := ValidateKeys(keys, queries).value;
            && ((forall i :: 0 <= i < |q| ==> Within(keys, q[i]))
                <==> OnlyEndsOutside(keys, queries))
            && (IsNotDecreasing(q) <==> OnlyEndsOutside(keys, queries))
            && forall i :: 0 <= i < |q| && Within(keys, queries[i]) ==> q[i] == queries[i]
  {
    var q := ValidateKeys(keys, queries).value;
    NeighboursSuffice(keys, 0, |keys| - 1);
    if forall i :: 0 <= i < |q| ==> Within(keys, q[i]) {
      forall i | 0 <= i < |queries|
        ensures (i > 0 ==> keys[0] <= queries[i]) && (i < |queries| - 1 ==> queries[i] <= keys[|keys| - 1])
      {
        assert Within(keys, q[i]);
      }
    }
    CropKeepsOrder(keys, queries);
  }

  lemma CropKeepsOrder(keys: seq<real>, queries: seq<real>)
    requires ValidateKeys(keys, queries).Ok?
    ensures IsNotDecreasing(ValidateKeys(keys, queries).value) <==> OnlyEndsOutside(keys, queries)
  {
    var q, last := ValidateKeys(keys, queries).value, |queries| - 1;
    NeighboursSuffice(keys, 0, |keys| - 1);
    forall i: nat | i <= last
      ensures queries[0] <= queries[i] <= queries[last] && (i > 0 ==> queries[1] <= queries[i])
      ensures i < last ==> queries[i] <= queries[last - 1]
    {
      NeighboursSuffice(queries, 0, i);
      NeighboursSuffice(queries, i, last);
      if i > 0 {
        NeighboursSuffice(queries, 1, i);
      }
      if i < last {
        NeighboursSuffice(queries, i, last - 1);
      }
    }
    if last > 0 && IsNotDecreasing(q) {
      assert q[0] <= q[1] && q[last - 1] <= q[last];
    }
  }

  /** Two queries just below the range: the second one is left outside, and the result is no longer sorted. */
  lemma CropLeavesSecondOutside()
    ensures var q := ValidateKeys([0.0, 1.0], [-0.0005, -0.0004, 1.0]);
            q == Ok([0.0, -0.0004, 1.0]) && !Within([0.0, 1.0], q.value[1]) && !IsNotDecreasing(q.value)
  {
    var queries := [-0.0005, -0.0004, 1.0];
    assert IsIncreasing([0.0, 1.0]) && IsNotDecreasing(queries);
    assert queries[0 := 0.0][2 := 1.0] == [0.0, -0.0004, 1.0];
    assert [0.0, -0.0004, 1.0][0] > [0.0, -0.0004, 1.0][1];
  }

  // ----- The object -----

  class SplineInterpolation {
    var a: seq<real>
    var b: seq<real>
    var c: seq<real>
    var d: seq<real>
    var baseKeys: seq<real>

    constructor ()
      ensures Valid() && baseKeys == []
    {
      a, b, c, d, baseKeys := [], [], [], [], [];
    }

    function Pieces(): Coefficients
      reads this
    {
      Coefficients(a, b, c, d)
    }

    /** Not built yet, or one set of coefficients a segment. */
    predicate Valid()
      reads this
    {
      baseKeys == [] || (|baseKeys| >= 2 && Segments(Pieces(), |baseKeys|))
    }

    /** Builds the one natural cubic spline through the points. The division needs solvable, say increasing, keys. */
    method CalcSplineCoefficients(keys: seq<real>, values: seq<real>) returns (r: Result<(), Error>)
      requires ValidateKeysAndValues(keys, values).None? ==> Solvable(keys)
      modifies this
      ensures match ValidateKeysAndValues(keys, values)
              case Some(error) => r == Err(error) && Pieces() == old(Pieces()) && baseKeys == old(baseKeys)
              case None => r == Ok(()) && baseKeys == keys && NaturalSpline(Pieces(), keys, values) && Valid()
    {
      var error := ValidateKeysAndValues(keys, values);
      if error.Some? {
        return Err(error.value);
      }
      var n := |keys|;
      if n == 2 {
        a, b, d := [0.0], [0.0], [values[0]];
        assert Width(keys, 0) != 0.0;
        c := [(values[1] - values[0]) / (keys[1] - keys[0])];
        baseKeys := keys;
        TwoPoints(Pieces(), keys, values);
        return Ok(());
      }
      var s := SolveSpline(keys, values);
      a, b, c, d := s.a, s.b, s.c, s.d;
      baseKeys := keys;
      return Ok(());
    }

    function GetSplineInterpolatedValue(key: real): (r: Result<real, Error>)
      requires Valid()
      reads this
      ensures baseKeys == [] ==> r == Err(NotBuilt)
      ensures baseKeys != [] ==> r == Ok(Evaluate(Pieces(), baseKeys, key))
    {
      if |baseKeys| < 2 then Err(NotBuilt)
      else
        var i := SegmentIndex(baseKeys, key);
        var dx := key - baseKeys[i];
        Ok(Cubic(a[i], b[i], c[i], d[i], dx))
    }

    function GetSplineInterpolatedDiffValue(key: real): (r: Result<real, Error>)
      requires Valid()
      reads this
      ensures baseKeys == [] ==> r == Err(NotBuilt)
      ensures baseKeys != [] ==> r == Ok(EvaluateDiff(Pieces(), baseKeys, key))
    {
      if |baseKeys| < 2 then Err(NotBuilt)
      else
        var i := SegmentIndex(baseKeys, key);
        var dx := key - baseKeys[i];
        Ok(CubicDiff(a[i], b[i], c[i], dx))
    }

    function GetSplineInterpolatedQuadDiffValue(key: real): (r: Result<real, Error>)
      requires Valid()
      reads this
      ensures baseKeys == [] ==> r == Err(NotBuilt)
      ensures baseKeys != [] ==> r == Ok(EvaluateQuadDiff(Pieces(), baseKeys, key))
    {
      if |baseKeys| < 2 then Err(NotBuilt)
      else
        var i := SegmentIndex(baseKeys, key);
        var dx := key - baseKeys[i];
        Ok(CubicQuadDiff(a[i], b[i], dx))
    }

    /** One value a query key, evaluated at the validated key. */
    method GetSplineInterpolatedValues(queries: seq<real>) returns (r: Result<seq<real>, Error>)
      requires Valid()
      ensures match ValidateKeys(baseKeys, queries)
              case Err(error) => r == Err(error)
              case Ok(q) => r.Ok? && |r.value| == |queries|
                            && forall i :: 0 <= i < |queries| ==> r.value[i] == Evaluate(Pieces(), baseKeys, q[i])
    {
      var validated := ValidateKeys(baseKeys, queries);
      if validated.Err? {
        return Err(validated.error);
      }
      var interpolated: seq<real> := [];
      for i := 0 to |validated.value|
        invariant |interpolated| == i
        invariant forall k :: 0 <= k < i ==> interpolated[k] == Evaluate(Pieces(), baseKeys, validated.value[k])
      {
        interpolated := interpolated + [GetSplineInterpolatedValue(validated.value[i]).value];
      }
      return Ok(interpolated);
    }
  }

  /** The part of the construction for three points and more: solve for the moments, then read off the coefficients. */
  method SolveSpline(keys: seq<real>, values: seq<real>) returns (s: Coefficients)
    requires |values| == |keys| >= 3 && Solvable(keys)
    ensures NaturalSpline(s, keys, values)
  {
    var n := |keys|;
    var side, diagonal, right := SystemSide(keys), SystemDiagonal(keys), SystemRight(keys, values);
    var inner := SolveTridiagonalMatrixAlgorithm(side, diagonal, side, right);
    var v := [0.0] + inner + [0.0];
    assert v[1..|v| - 1] == inner;
    s := CoefficientsFrom(v, keys, values);
    MomentsGiveSpline(s, v, keys, values);
  }

  function CoefficientsFrom(v: seq<real>, keys: seq<real>, values: seq<real>): (s: Coefficients)
    requires |v| == |values| == |keys| >= 1
    ensures Segments(s, |keys|) && forall i :: 0 <= i < |keys| - 1 ==> FromMoments(s, v, keys, values, i)
  {
    var m := |keys| - 1;
    Coefficients(
      seq(m, i requires 0 <= i < m => LeadingFrom(v, keys, i)),
      seq(m, i requires 0 <= i < m => v[i] / 2.0),
      seq(m, i requires 0 <= i < m => LinearFrom(v, keys, values, i)),
      values[..m])
  }

  /** Two points are joined by a straight line. */
  lemma TwoPoints(s: Coefficients, keys: seq<real>, values: seq<real>)
    requires |values| == |keys| == 2 && Solvable(keys)
    requires s == Coefficients([0.0], [0.0], [Slope(keys, values, 0)], [values[0]])
    ensures NaturalSpline(s, keys, values)
  {
    assert Width(keys, 0) != 0.0;
    MomentsGiveSpline(s, [0.0, 0.0], keys, values);
  }
}

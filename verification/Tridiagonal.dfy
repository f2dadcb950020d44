/** The Thomas algorithm for tridiagonal systems. */
module Tridiagonal {
  import opened RealArithmetic
  import opened Searching

  /** a is the subdiagonal, b the diagonal, c the superdiagonal of a system with |b| rows. */
  predicate Tri(a: seq<real>, b: seq<real>, c: seq<real>) {
    |b| >= 1 && |a| >= |b| - 1 && |c| >= |b| - 1
  }

  /** Row i of the system applied to x. */
  function Row(a: seq<real>, b: seq<real>, c: seq<real>, x: seq<real>, i: nat): real
    requires Tri(a, b, c) && |x| == |b| && i < |b|
  {
    (if i > 0 then a[i - 1] * x[i - 1] else 0.0) + b[i] * x[i] + (if i < |b| - 1 then c[i] * x[i + 1] else 0.0)
  }

  predicate Solves(a: seq<real>, b: seq<real>, c: seq<real>, d: seq<real>, x: seq<real>)
    requires Tri(a, b, c)
  {
    |x| == |d| == |b| && forall i :: 0 <= i < |b| ==> Row(a, b, c, x, i) == d[i]
  }

  /** What it means to solve the system, written out. */
  lemma SolvesMeans(a: seq<real>, b: seq<real>, c: seq<real>, d: seq<real>, x: seq<real>)
    requires Tri(a, b, c)
    ensures Solves(a, b, c, d, x)
            <==> && |x| == |d| == |b|
                 && forall i :: 0 <= i < |b| ==>
                      (if i > 0 then a[i - 1] * x[i - 1] else 0.0) + b[i] * x[i]
                      + (if i < |b| - 1 then c[i] * x[i + 1] else 0.0) == d[i]
  {
    if |x| == |d| == |b| {
      forall i: nat | i < |b|
        ensures Row(a, b, c, x, i) == (if i > 0 then a[i - 1] * x[i - 1] else 0.0) + b[i] * x[i]
                                      + (if i < |b| - 1 then c[i] * x[i + 1] else 0.0)
      {
      }
    }
  }

  /** The diagonal entry b less what eliminating the row above takes from it. */
  function Eliminated(b: real, a: real, ratio: real): real {
    b - a * ratio
  }

  /** The divisor of row i in the forward sweep. */
  function Pivot(a: seq<real>, b: seq<real>, c: seq<real>, i: nat): real
    requires Tri(a, b, c) && i < |b|
  {
    if i == 0 then b[0] else Eliminated(b[i], a[i - 1], Div(c[i - 1], Pivot(a, b, c, i - 1)))
  }

  predicate PivotsNonzero(a: seq<real>, b: seq<real>, c: seq<real>)
    requires Tri(a, b, c)
  {
    forall i :: 0 <= i < |b| ==> Pivot(a, b, c, i) != 0.0
  }

  // ----- Diagonal dominance -----

  /** In every row the diagonal outweighs the other entries together. */
  predicate Dominant(a: seq<real>, b: seq<real>, c: seq<real>)
    requires Tri(a, b, c)
  {
    forall i :: 0 <= i < |b| ==> Abs(b[i]) > Below(a, i) + Beyond(b, c, i)
  }

  function Below(a: seq<real>, i: nat): real
    requires i <= |a|
  {
    if i > 0 then Abs(a[i - 1]) else 0.0
  }

  function Beyond(b: seq<real>, c: seq<real>, i: nat): real
    requires i < |b| && |c| >= |b| - 1
  {
    if i < |b| - 1 then Abs(c[i]) else 0.0
  }

  /** A factor of magnitude at most 1 does not enlarge. */
  lemma Sandwich(a: real, q: real)
    requires -1.0 <= q <= 1.0
    ensures Abs(a * q) <= Abs(a)
  {
    MulNonneg(Abs(a), 1.0 - q);
    MulNonneg(Abs(a), 1.0 + q);
  }

  lemma QuotientWithin(q: real, p: real)
    requires Abs(q * p) < Abs(p)
    ensures -1.0 <= q <= 1.0
  {
    if q > 1.0 && p > 0.0 {
      MulPositive(q - 1.0, p);
    } else if q > 1.0 {
      MulPositive(q - 1.0, -p);
    } else if q < -1.0 && p > 0.0 {
      MulPositive(-1.0 - q, p);
    } else if q < -1.0 {
      MulPositive(-1.0 - q, -p);
    }
  }

  lemma RatioBound(a: real, c: real, p: real)
    requires Abs(c) < Abs(p)
    ensures Abs(a * Div(c, p)) <= Abs(a)
  {
    DivMul(c, p);
    QuotientWithin(Div(c, p), p);
    Sandwich(a, Div(c, p));
  }

  /** One step of the sweep keeps the pivot dominant. */
  lemma PivotBound(b: real, a: real, c: real, p: real, rest: real)
    requires Abs(c) < Abs(p) && Abs(b) > Abs(a) + rest
    ensures Abs(Eliminated(b, a, Div(c, p))) > rest
  {
    RatioBound(a, c, p);
    DifferenceBound(b, a * Div(c, p), Abs(a), rest);
  }

  lemma DifferenceBound(b: real, t: real, bound: real, rest: real)
    requires Abs(t) <= bound && Abs(b) > bound + rest
    ensures Abs(b - t) > rest
  {
  }

  /** Every pivot of a dominant system outweighs the superdiagonal entry of its row, and so is nonzero. */
  lemma {:induction false} DominantPivot(a: seq<real>, b: seq<real>, c: seq<real>, i: nat)
    requires Tri(a, b, c) && Dominant(a, b, c) && i < |b|
    ensures Abs(Pivot(a, b, c, i)) > Beyond(b, c, i)
  {
    hide Eliminated;
    if i == 0 {
    } else {
      DominantPivot(a, b, c, i - 1);
      PivotBound(b[i], a[i - 1], c[i - 1], Pivot(a, b, c, i - 1), Beyond(b, c, i));
    }
  }

  lemma DominantPivots(a: seq<real>, b: seq<real>, c: seq<real>)
    requires Tri(a, b, c) && Dominant(a, b, c)
    ensures PivotsNonzero(a, b, c)
  {
    forall i | 0 <= i < |b|
      ensures Pivot(a, b, c, i) != 0.0
    {
      DominantPivot(a, b, c, i);
    }
  }

  // ----- The solver -----

  /** The right-hand side of row i after the forward sweep. */
  function Reduced(a: seq<real>, b: seq<real>, c: seq<real>, d: seq<real>, i: nat): real
    requires Tri(a, b, c) && |d| == |b| && i < |b|
  {
    Div(if i == 0 then d[0] else d[i] - a[i - 1] * Reduced(a, b, c, d, i - 1), Pivot(a, b, c, i))
  }

  lemma Reciprocal(u: real, p: real)
    requires p != 0.0
    ensures u * (1.0 / p) == Div(u, p)
  {
    DivMul(1.0, p);
    DivMul(u, p);
    Cancel(u * (1.0 / p), Div(u, p), p);
  }

  lemma ReducedPivot(a: seq<real>, b: seq<real>, c: seq<real>, d: seq<real>, i: nat)
    requires Tri(a, b, c) && |d| == |b| && i < |b| && Pivot(a, b, c, i) != 0.0
    ensures Reduced(a, b, c, d, i) * Pivot(a, b, c, i) == if i == 0 then d[0] else d[i] - a[i - 1] * Reduced(a, b, c, d, i - 1)
  {
    DivMul(if i == 0 then d[0] else d[i] - a[i - 1] * Reduced(a, b, c, d, i - 1), Pivot(a, b, c, i));
  }

  /** The body of the first loop: one row of the forward sweep. */
  method SweepRow(a: seq<real>, b: seq<real>, c: seq<real>, d: seq<real>, i: nat, cPrev: real, dPrev: real)
    returns (cPrime: real, dPrime: real)
    requires Tri(a, b, c) && |d| == |b| && 0 < i < |b| && Pivot(a, b, c, i) != 0.0
    requires cPrev == Div(c[i - 1], Pivot(a, b, c, i - 1)) && dPrev == Reduced(a, b, c, d, i - 1)
    ensures i < |b| - 1 ==> cPrime == Div(c[i], Pivot(a, b, c, i))
    ensures dPrime == Reduced(a, b, c, d, i)
  {
    var m := 1.0 / (b[i] - a[i - 1] * cPrev);
    cPrime := if i < |d| - 1 then c[i] * m else 0.0;
    dPrime := (d[i] - a[i - 1] * dPrev) * m;
    Reciprocal(d[i] - a[i - 1] * dPrev, Pivot(a, b, c, i));
    if i < |b| - 1 {
      Reciprocal(c[i], Pivot(a, b, c, i));
    }
  }

  /** Row i is what back substitution makes of it: value here, beyond in the next position. */
  predicate Substituted(a: seq<real>, b: seq<real>, c: seq<real>, d: seq<real>, i: nat, here: real, beyond: real)
    requires Tri(a, b, c) && |d| == |b| && i < |b|
  {
    here == Reduced(a, b, c, d, i) - if i < |b| - 1 then Div(c[i], Pivot(a, b, c, i)) * beyond else 0.0
  }

  /** The body of the second loop: one row of the back substitution. */
  method SubstituteRow(a: seq<real>, b: seq<real>, c: seq<real>, d: seq<real>, i: nat, cPrime: real, dPrime: real, beyond: real)
    returns (x: real)
    requires Tri(a, b, c) && |d| == |b| && i < |b| - 1
    requires cPrime == Div(c[i], Pivot(a, b, c, i)) && dPrime == Reduced(a, b, c, d, i)
    ensures Substituted(a, b, c, d, i, x, beyond)
  {
    x := dPrime - cPrime * beyond;
  }

  /** The first loop: cPrime and dPrime are the superdiagonal and right-hand side of the reduced system. */
  method ForwardSweep(a: seq<real>, b: seq<real>, c: seq<real>, d: seq<real>) returns (cPrime: seq<real>, dPrime: seq<real>)
    requires Tri(a, b, c) && |d| == |b| >= 2 && PivotsNonzero(a, b, c)
    ensures |cPrime| == |dPrime| == |b|
    ensures forall k :: 0 <= k < |b| - 1 ==> cPrime[k] == Div(c[k], Pivot(a, b, c, k))
    ensures forall k :: 0 <= k < |b| ==> dPrime[k] == Reduced(a, b, c, d, k)
  {
    var n := |d|;
    assert Pivot(a, b, c, 0) == b[0] != 0.0 && Reduced(a, b, c, d, 0) == d[0] / b[0] && Div(c[0], b[0]) == c[0] / b[0];
    cPrime, dPrime := seq(n, _ => 0.0), seq(n, _ => 0.0);
    cPrime := cPrime[0 := c[0] / b[0]];
    dPrime := dPrime[0 := d[0] / b[0]];
    for i := 1 to n
      invariant |cPrime| == |dPrime| == n
      invariant forall k :: 0 <= k < i && k < n - 1 ==> cPrime[k] == Div(c[k], Pivot(a, b, c, k))
      invariant forall k :: 0 <= k < i ==> dPrime[k] == Reduced(a, b, c, d, k)
    {
      assert Pivot(a, b, c, i) != 0.0;
      var upper, right := SweepRow(a, b, c, d, i, cPrime[i - 1], dPrime[i - 1]);
      cPrime := cPrime[i := upper];
      dPrime := dPrime[i := right];
    }
  }

  /** Forward sweep and back substitution. The result solves every row. */
  method SolveTridiagonalMatrixAlgorithm(a: seq<real>, b: seq<real>, c: seq<real>, d: seq<real>) returns (x: seq<real>)
    requires Tri(a, b, c) && |d| == |b| && PivotsNonzero(a, b, c)
    ensures Solves(a, b, c, d, x)
  {
    hide Row, Substituted;
    var n := |d|;
    if n == 1 {
      OneRow(a, b, c, d);
      return [d[0] / b[0]];
    }
    var cPrime, dPrime := ForwardSweep(a, b, c, d);
    LastRow(a, b, c, d);
    x := seq(n, _ => 0.0);
    x := x[n - 1 := dPrime[n - 1]];
    for i := n - 1 downto 0
      invariant |x| == n
      invariant Substituted(a, b, c, d, n - 1, x[n - 1], 0.0)
      invariant forall k :: i <= k < n - 1 ==> Substituted(a, b, c, d, k, x[k], x[k + 1])
    {
      var here := SubstituteRow(a, b, c, d, i, cPrime[i], dPrime[i], x[i + 1]);
      x := x[i := here];
    }
    forall i | 0 <= i < n
      ensures Row(a, b, c, x, i) == d[i]
    {
      assert Pivot(a, b, c, i) != 0.0;
      SubstitutedRow(a, b, c, d, x, i);
    }
  }

  lemma OneRow(a: seq<real>, b: seq<real>, c: seq<real>, d: seq<real>)
    requires Tri(a, b, c) && |d| == |b| == 1 && PivotsNonzero(a, b, c)
    ensures b[0] != 0.0 && Solves(a, b, c, d, [d[0] / b[0]])
  {
    assert Pivot(a, b, c, 0) != 0.0;
  }

  lemma LastRow(a: seq<real>, b: seq<real>, c: seq<real>, d: seq<real>)
    requires Tri(a, b, c) && |d| == |b|
    ensures Substituted(a, b, c, d, |b| - 1, Reduced(a, b, c, d, |b| - 1), 0.0)
  {
  }

  /** The superdiagonal term of row i and what back substitution subtracts for it. */
  lemma BeyondTerm(a: seq<real>, b: seq<real>, c: seq<real>, d: seq<real>, i: nat, here: real, beyond: real) returns (t: real)
    requires Tri(a, b, c) && |d| == |b| && i < |b| && Pivot(a, b, c, i) != 0.0
    requires Substituted(a, b, c, d, i, here, beyond)
    ensures here == Reduced(a, b, c, d, i) - t
    ensures Pivot(a, b, c, i) * t == if i < |b| - 1 then c[i] * beyond else 0.0
  {
    t := 0.0;
    if i < |b| - 1 {
      t := Div(c[i], Pivot(a, b, c, i)) * beyond;
      DivScale(c[i], Pivot(a, b, c, i), beyond);
    }
  }

  lemma SubstitutedRow(a: seq<real>, b: seq<real>, c: seq<real>, d: seq<real>, x: seq<real>, i: nat)
    requires Tri(a, b, c) && |d| == |x| == |b| && i < |b| && Pivot(a, b, c, i) != 0.0
    requires if i < |b| - 1 then Substituted(a, b, c, d, i, x[i], x[i + 1]) else Substituted(a, b, c, d, i, x[i], 0.0)
    requires i > 0 ==> Substituted(a, b, c, d, i - 1, x[i - 1], x[i])
    ensures Row(a, b, c, x, i) == d[i]
  {
    hide Substituted, Reduced, Pivot;
    var cx := if i < |b| - 1 then c[i] * x[i + 1] else 0.0;
    var t := BeyondTerm(a, b, c, d, i, x[i], if i < |b| - 1 then x[i + 1] else 0.0);
    ReducedPivot(a, b, c, d, i);
    if i == 0 {
      FirstPivot(a, b, c);
      FirstRowAlgebra(b[0], Reduced(a, b, c, d, 0), t, x[0], d[0], cx);
    } else {
      InnerRow(a, b, c, d, i, x[i - 1], x[i], t, cx);
    }
  }

  lemma InnerRow(a: seq<real>, b: seq<real>, c: seq<real>, d: seq<real>, i: nat, xl: real, x: real, t: real, cx: real)
    requires Tri(a, b, c) && |d| == |b| && 0 < i < |b|
    requires x == Reduced(a, b, c, d, i) - t && Pivot(a, b, c, i) * t == cx
    requires Reduced(a, b, c, d, i) * Pivot(a, b, c, i) == d[i] - a[i - 1] * Reduced(a, b, c, d, i - 1)
    requires Substituted(a, b, c, d, i - 1, xl, x)
    ensures a[i - 1] * xl + b[i] * x + cx == d[i]
  {
    RowAlgebra(a[i - 1], b[i], cx, d[i], xl, x, Pivot(a, b, c, i), Reduced(a, b, c, d, i - 1),
               Div(c[i - 1], Pivot(a, b, c, i - 1)), Reduced(a, b, c, d, i), t);
  }

  lemma FirstPivot(a: seq<real>, b: seq<real>, c: seq<real>)
    requires Tri(a, b, c)
    ensures Pivot(a, b, c, 0) == b[0]
  {
  }

  lemma FirstRowAlgebra(p: real, e: real, t: real, x: real, d: real, cx: real)
    requires x == e - t && e * p == d && p * t == cx
    ensures p * x + cx == d
  {
  }

  /** Substituting back undoes the elimination of one row; cx is the superdiagonal term of the row. */
  lemma RowAlgebra(a: real, b: real, cx: real, d: real, xl: real, x: real, p: real, el: real, ql: real, e: real, t: real)
    requires p == b - a * ql && e * p == d - a * el && p * t == cx
    requires xl == el - ql * x
    requires x == e - t
    ensures a * xl + b * x + cx == d
  {
    assert a * xl == a * el - (a * ql) * x;
    assert p * x == p * e - p * t;
  }

  lemma DivScale(c: real, p: real, x: real)
    requires p != 0.0
    ensures p * (Div(c, p) * x) == c * x
  {
    DivMul(c, p);
  }

  /** A system with nonzero pivots has no other solution. */
  lemma SolutionUnique(a: seq<real>, b: seq<real>, c: seq<real>, d: seq<real>, x: seq<real>, y: seq<real>)
    requires Tri(a, b, c) && PivotsNonzero(a, b, c) && Solves(a, b, c, d, x) && Solves(a, b, c, d, y)
    ensures x == y
  {
    forall i | 0 <= i < |b|
      ensures x[i] == y[i]
    {
      SameFrom(a, b, c, d, x, y, i);
    }
  }

  lemma {:induction false} SameFrom(a: seq<real>, b: seq<real>, c: seq<real>, d: seq<real>, x: seq<real>, y: seq<real>, i: nat)
    requires Tri(a, b, c) && PivotsNonzero(a, b, c) && Solves(a, b, c, d, x) && Solves(a, b, c, d, y) && i < |b|
    ensures x[i] == y[i]
    decreases |b| - i
  {
    EliminatedDifference(a, b, c, d, x, y, i);
    if i < |b| - 1 {
      SameFrom(a, b, c, d, x, y, i + 1);
    }
    assert Pivot(a, b, c, i) != 0.0;
  }

  /** After elimination row i of the difference of two solutions involves positions i and i + 1 only. */
  lemma {:induction false} EliminatedDifference(a: seq<real>, b: seq<real>, c: seq<real>, d: seq<real>, x: seq<real>, y: seq<real>, i: nat)
    requires Tri(a, b, c) && PivotsNonzero(a, b, c) && Solves(a, b, c, d, x) && Solves(a, b, c, d, y) && i < |b|
    ensures Pivot(a, b, c, i) * (x[i] - y[i]) + (if i < |b| - 1 then c[i] * (x[i + 1] - y[i + 1]) else 0.0) == 0.0
  {
    assert Row(a, b, c, x, i) == d[i] == Row(a, b, c, y, i);
    if i == 0 {
    } else {
      EliminatedDifference(a, b, c, d, x, y, i - 1);
      var p, q := Pivot(a, b, c, i - 1), Div(c[i - 1], Pivot(a, b, c, i - 1));
      assert p != 0.0 && q * p == c[i - 1];
      ScaleAway(p, x[i - 1] - y[i - 1], q, x[i] - y[i], a[i - 1]);
    }
  }

  lemma ScaleAway(p: real, u: real, q: real, w: real, a: real)
    requires p != 0.0 && p * u + (q * p) * w == 0.0
    ensures a * u == -(a * q) * w
  {
    assert p * (u + q * w) == 0.0;
    assert u == -q * w;
  }
}

/** The dense Kalman filter: prediction, and the measurement update through a Cholesky solve. */
module KalmanFilters {
  import opened Wrappers
  import opened Matrices
  import opened Covariance

  datatype Estimate = Estimate(x: Matrix, p: Matrix)

  /** The Cholesky (LLT) solver: solve(s, b) is the solution of s * z == b, or a failed decomposition. */
  type LltSolver = (Matrix, Matrix) -> Option<Matrix>

  /** On a symmetric s the decomposition succeeds exactly when s is positive definite, and then it solves. */
  ghost predicate IsLltSolver(solve: LltSolver) {
    forall s: Matrix, b: Matrix :: Square(s) && s.rows == b.rows ==>
      && (solve(s, b).Some? ==> solve(s, b).value.rows == b.rows && solve(s, b).value.cols == b.cols)
      && (Symmetric(s) ==> (solve(s, b).Some? <==> PositiveDefinite(s)))
      && (Symmetric(s) && solve(s, b).Some? ==> Mul(s, solve(s, b).value) == b)
  }

  /** The estimate is one column, and its covariance has the same dimension. */
  predicate Shaped(e: Estimate) {
    e.x.cols == 1 && Square(e.p) && e.p.rows == e.x.rows
  }

  predicate PredictAccepts(e: Estimate, xNext: Matrix, a: Matrix, q: Matrix) {
    e.x.rows == xNext.rows && a.cols == e.p.rows && q.cols == q.rows && a.rows == q.cols
  }

  function Predicted(e: Estimate, xNext: Matrix, a: Matrix, q: Matrix): Estimate
    requires Square(e.p) && PredictAccepts(e, xNext, a, q)
  {
    Estimate(xNext, Add(Congruence(a, e.p), q))
  }

  predicate UpdateAccepts(e: Estimate, y: Matrix, c: Matrix, r: Matrix) {
    c.cols == e.p.cols && r.rows == r.cols == c.rows && y.rows == c.rows
  }

  /** The covariance c p c' + r of the innovation. */
  function InnovationCovariance(p: Matrix, c: Matrix, r: Matrix): (s: Matrix)
    requires Square(p) && c.cols == p.rows && Square(r) && r.rows == c.rows
    ensures s.rows == s.cols == c.rows
  {
    Add(r, Mul(c, Mul(p, Transpose(c))))
  }

  /** k is the Kalman gain: s k' == (p c')', where s is the covariance of the innovation. */
  predicate IsGain(k: Matrix, p: Matrix, c: Matrix, r: Matrix) {
    && Square(p) && c.cols == p.rows && Square(r) && r.rows == c.rows
    && k.rows == p.rows && k.cols == c.rows
    && Mul(InnovationCovariance(p, c, r), Transpose(k)) == Transpose(Mul(p, Transpose(c)))
  }

  /** The gain the solver hands back, or None when the decomposition of the innovation covariance fails. */
  function KalmanGain(p: Matrix, c: Matrix, r: Matrix, solve: LltSolver): (k: Option<Matrix>)
    requires Square(p) && c.cols == p.rows && Square(r) && r.rows == c.rows && IsLltSolver(solve)
    ensures k.Some? ==> k.value.rows == p.rows && k.value.cols == c.rows
  {
    match solve(InnovationCovariance(p, c, r), Transpose(Mul(p, Transpose(c))))
    case None => None
    case Some(kt) => Some(Transpose(kt))
  }

  function Corrected(e: Estimate, y: Matrix, yPred: Matrix, c: Matrix, r: Matrix, solve: LltSolver)
      : (u: Option<Estimate>)
    requires Shaped(e) && UpdateAccepts(e, y, c, r)
    requires y.rows == yPred.rows && y.cols == yPred.cols == 1
    requires IsLltSolver(solve)
    ensures u.Some? ==> Shaped(u.value) && u.value.x.rows == e.x.rows
  {
    match KalmanGain(e.p, c, r, solve)
    case None => None
    case Some(k) => Some(Estimate(Add(e.x, Mul(k, Sub(y, yPred))), Sub(e.p, Mul(k, Mul(c, e.p)))))
  }

  /**
   * For symmetric p and r: the innovation is y - yPred for any prediction, the state gains k times the innovation, and
   * the covariance loses k c p, with k s == p c' for the innovation covariance s == r + c p c'.
   */
  lemma CorrectedMeans(e: Estimate, y: Matrix, yPred: Matrix, c: Matrix, r: Matrix, solve: LltSolver) returns (k: Matrix)
    requires Shaped(e) && y.rows == yPred.rows == c.rows == r.rows == r.cols && y.cols == yPred.cols == 1 && c.cols == e.p.rows
    requires IsLltSolver(solve) && Symmetric(e.p) && Symmetric(r) && Corrected(e, y, yPred, c, r, solve).Some?
    ensures k.rows == e.p.rows && k.cols == c.rows
    ensures Mul(k, Add(r, Mul(c, Mul(e.p, Transpose(c))))) == Mul(e.p, Transpose(c))
    ensures var u := Corrected(e, y, yPred, c, r, solve).value;
            u.x == Add(e.x, Mul(k, Sub(y, yPred))) && u.p == Sub(e.p, Mul(k, Mul(c, e.p)))
  {
    hide Mul, Add, Sub, Transpose;
    k := KalmanGain(e.p, c, r, solve).value;
    SolvedGain(e.p, c, r, solve);
    GainIdentities(k, e.p, c, r);
  }

  // ----- What the update does to the covariance -----

  lemma InnovationSymmetric(p: Matrix, c: Matrix, r: Matrix)
    requires Symmetric(p) && c.cols == p.rows && Symmetric(r) && r.rows == c.rows
    ensures InnovationCovariance(p, c, r) == Add(r, Congruence(c, p))
    ensures Symmetric(InnovationCovariance(p, c, r))
  {
    MulAssoc(c, p, Transpose(c));
    CongruenceKeepsSymmetry(c, p);
    TransposeAdd(r, Congruence(c, p));
  }

  /** Congruence by a difference, entry by entry. */
  lemma CongruenceSub(m: Matrix, n: Matrix, p: Matrix)
    requires Square(p) && m.cols == n.cols == p.rows && m.rows == n.rows
    ensures forall i, j ::
              At(Congruence(Sub(m, n), p), i, j)
              == At(Congruence(m, p), i, j) - At(Mul(Mul(n, p), Transpose(m)), i, j)
                 - At(Mul(Mul(m, p), Transpose(n)), i, j) + At(Congruence(n, p), i, j)
  {
    MulSubRight(m, n, p);
    TransposeSub(m, n);
    MulSubLeft(Sub(Mul(m, p), Mul(n, p)), Transpose(m), Transpose(n));
    MulSubRight(Mul(m, p), Mul(n, p), Transpose(m));
    MulSubRight(Mul(m, p), Mul(n, p), Transpose(n));
  }

  /** The error covariance (I - l c) p (I - l c)' + l r l' of a correction with an arbitrary gain l. */
  function Joseph(l: Matrix, p: Matrix, c: Matrix, r: Matrix): (j: Matrix)
    requires Square(p) && c.cols == p.rows && Square(r) && r.rows == c.rows
    requires l.rows == p.rows && l.cols == c.rows
    ensures j.rows == j.cols == p.rows
  {
    Add(Congruence(Sub(Identity(p.rows), Mul(l, c)), p), Congruence(l, r))
  }

  lemma JosephExpanded(l: Matrix, p: Matrix, c: Matrix, r: Matrix)
    requires Symmetric(p) && c.cols == p.rows && Symmetric(r) && r.rows == c.rows
    requires l.rows == p.rows && l.cols == c.rows
    ensures forall i, j ::
              At(Joseph(l, p, c, r), i, j)
              == At(p, i, j) - At(Mul(l, Mul(c, p)), i, j) - At(Mul(Mul(p, Transpose(c)), Transpose(l)), i, j)
                 + At(Congruence(l, InnovationCovariance(p, c, r)), i, j)
  {
    var one, lc := Identity(p.rows), Mul(l, c);
    CongruenceSub(one, lc, p);
    Extensional(Transpose(one), one);
    MulIdentity(p);
    MulIdentity(Mul(lc, p));
    MulAssoc(l, c, p);
    TransposeMul(l, c);
    MulAssoc(p, Transpose(c), Transpose(l));
    // l c p (l c)' == l (c p c') l'
    MulAssoc(Mul(l, Mul(c, p)), Transpose(c), Transpose(l));
    MulAssoc(l, Mul(c, p), Transpose(c));
    InnovationSymmetric(p, c, r);
    MulAddLeft(l, r, Congruence(c, p));
    MulAddRight(Mul(l, r), Mul(l, Congruence(c, p)), Transpose(l));
  }

  /** With the Kalman gain k: k s == p c', and k c p == k s k'. */
  lemma GainIdentities(k: Matrix, p: Matrix, c: Matrix, r: Matrix)
    requires Symmetric(p) && Symmetric(r) && IsGain(k, p, c, r)
    ensures Mul(k, InnovationCovariance(p, c, r)) == Mul(p, Transpose(c))
    ensures Mul(InnovationCovariance(p, c, r), Transpose(k)) == Mul(c, p)
    ensures Mul(k, Mul(c, p)) == Congruence(k, InnovationCovariance(p, c, r)) == Mul(Mul(p, Transpose(c)), Transpose(k))
  {
    var s := InnovationCovariance(p, c, r);
    InnovationSymmetric(p, c, r);
    TransposeMul(s, Transpose(k));
    TransposeTranspose(k);
    TransposeTranspose(Mul(p, Transpose(c)));
    TransposeMul(p, Transpose(c));
    TransposeTranspose(c);
    MulAssoc(k, s, Transpose(k));
  }

  /** Any other gain l costs exactly (l - k) s (l - k)' more error covariance than the Kalman gain k. */
  lemma GainIsOptimal(l: Matrix, k: Matrix, p: Matrix, c: Matrix, r: Matrix)
    requires Symmetric(p) && Symmetric(r) && IsGain(k, p, c, r)
    requires l.rows == p.rows && l.cols == c.rows
    ensures Joseph(l, p, c, r)
      == Add(Sub(p, Mul(k, Mul(c, p))), Congruence(Sub(l, k), InnovationCovariance(p, c, r)))
  {
    var s := InnovationCovariance(p, c, r);
    JosephExpanded(l, p, c, r);
    GainIdentities(k, p, c, r);
    CongruenceSub(l, k, s);
    MulAssoc(l, s, Transpose(k));
    Extensional(Joseph(l, p, c, r), Add(Sub(p, Mul(k, Mul(c, p))), Congruence(Sub(l, k), s)));
  }

  /** The short form p - k c p that the update computes is the Joseph form. */
  lemma JosephForm(k: Matrix, p: Matrix, c: Matrix, r: Matrix)
    requires Symmetric(p) && Symmetric(r) && IsGain(k, p, c, r)
    ensures Sub(p, Mul(k, Mul(c, p))) == Joseph(k, p, c, r)
  {
    JosephExpanded(k, p, c, r);
    GainIdentities(k, p, c, r);
    Extensional(Sub(p, Mul(k, Mul(c, p))), Joseph(k, p, c, r));
  }

  /** Whenever the gain exists, the corrected covariance is a covariance, and no larger than the one before. */
  lemma GainKeepsCovariance(k: Matrix, p: Matrix, c: Matrix, r: Matrix)
    requires IsCovariance(p) && IsCovariance(r) && IsGain(k, p, c, r)
    ensures IsCovariance(Sub(p, Mul(k, Mul(c, p))))
    ensures PositiveSemidefinite(Sub(p, Sub(p, Mul(k, Mul(c, p)))))
  {
    JosephForm(k, p, c, r);
    CongruenceKeepsCovariance(Sub(Identity(p.rows), Mul(k, c)), p);
    CongruenceKeepsCovariance(k, r);
    AddKeepsCovariance(Congruence(Sub(Identity(p.rows), Mul(k, c)), p), Congruence(k, r));
    InnovationSymmetric(p, c, r);
    CongruenceKeepsCovariance(c, p);
    AddKeepsCovariance(r, Congruence(c, p));
    GainIdentities(k, p, c, r);
    CongruenceKeepsCovariance(k, InnovationCovariance(p, c, r));
    Extensional(Sub(p, Sub(p, Mul(k, Mul(c, p)))), Mul(k, Mul(c, p)));
  }

  /** No gain whatever leaves less error covariance than the Kalman gain does. */
  lemma GainBeatsEveryOther(k: Matrix, p: Matrix, c: Matrix, r: Matrix, l: Matrix)
    requires IsCovariance(p) && IsCovariance(r) && IsGain(k, p, c, r)
    requires l.rows == p.rows && l.cols == c.rows
    ensures PositiveSemidefinite(Sub(Joseph(l, p, c, r), Sub(p, Mul(k, Mul(c, p)))))
  {
    InnovationIsCovariance(p, c, r);
    GainIsOptimal(l, k, p, c, r);
    ExcessIsSemidefinite(Sub(p, Mul(k, Mul(c, p))), Sub(l, k), InnovationCovariance(p, c, r));
  }

  lemma ExcessIsSemidefinite(best: Matrix, d: Matrix, s: Matrix)
    requires Square(best) && PositiveSemidefinite(s) && d.cols == s.rows && d.rows == best.rows
    ensures PositiveSemidefinite(Sub(Add(best, Congruence(d, s)), best))
  {
    CongruenceKeepsSemidefinite(d, s);
    Extensional(Sub(Add(best, Congruence(d, s)), best), Congruence(d, s));
  }

  lemma InnovationIsCovariance(p: Matrix, c: Matrix, r: Matrix)
    requires IsCovariance(p) && c.cols == p.rows && IsCovariance(r) && r.rows == c.rows
    ensures IsCovariance(InnovationCovariance(p, c, r))
    ensures PositiveDefinite(r) ==> PositiveDefinite(InnovationCovariance(p, c, r))
  {
    InnovationSymmetric(p, c, r);
    CongruenceKeepsCovariance(c, p);
    AddKeepsCovariance(r, Congruence(c, p));
    if PositiveDefinite(r) {
      AddDefinite(Congruence(c, p), r);
    }
  }

  /** For symmetric p and r the solver hands back the Kalman gain, and it does so for every definite noise r. */
  lemma SolvedGain(p: Matrix, c: Matrix, r: Matrix, solve: LltSolver)
    requires Symmetric(p) && c.cols == p.rows && Symmetric(r) && r.rows == c.rows && IsLltSolver(solve)
    ensures KalmanGain(p, c, r, solve).Some? ==> IsGain(KalmanGain(p, c, r, solve).value, p, c, r)
    ensures PositiveSemidefinite(p) && PositiveSemidefinite(r) && PositiveDefinite(r) ==>
              KalmanGain(p, c, r, solve).Some?
  {
    InnovationSymmetric(p, c, r);
    if KalmanGain(p, c, r, solve).Some? {
      TransposeTranspose(solve(InnovationCovariance(p, c, r), Transpose(Mul(p, Transpose(c)))).value);
    }
    if PositiveSemidefinite(p) && PositiveSemidefinite(r) && PositiveDefinite(r) {
      InnovationIsCovariance(p, c, r);
    }
  }

  /**
   * One dense update of a covariance: the result is the Joseph form for the gain used, a covariance no larger than
   * the one before, and no other gain l would have left less. An update with definite noise r is never rejected.
   */
  lemma CorrectedIsOptimal(e: Estimate, y: Matrix, yPred: Matrix, c: Matrix, r: Matrix, solve: LltSolver, l: Matrix)
    requires Shaped(e) && UpdateAccepts(e, y, c, r) && y.rows == yPred.rows && y.cols == yPred.cols == 1
    requires IsLltSolver(solve) && IsCovariance(e.p) && IsCovariance(r)
    requires l.rows == e.p.rows && l.cols == c.rows
    ensures PositiveDefinite(r) ==> Corrected(e, y, yPred, c, r, solve).Some?
    ensures var u := Corrected(e, y, yPred, c, r, solve);
            u.Some? ==>
              && u.value.p == Joseph(KalmanGain(e.p, c, r, solve).value, e.p, c, r)
              && IsCovariance(u.value.p)
              && PositiveSemidefinite(Sub(e.p, u.value.p))
              && PositiveSemidefinite(Sub(Joseph(l, e.p, c, r), u.value.p))
  {
    SolvedGain(e.p, c, r, solve);
    match KalmanGain(e.p, c, r, solve) {
      case None =>
      case Some(k) =>
        JosephForm(k, e.p, c, r);
        GainKeepsCovariance(k, e.p, c, r);
        GainBeatsEveryOther(k, e.p, c, r, l);
    }
  }

  /** A transition with two rows and one column passes the entry check, and state and covariance no longer fit together. */
  lemma NonSquareTransitionAccepted()
    ensures var e, a, q := Estimate(Zero(1, 1), Zero(1, 1)), Zero(2, 1), Zero(2, 2);
            Shaped(e) && PredictAccepts(e, Zero(1, 1), a, q) && !Shaped(Predicted(e, Zero(1, 1), a, q))
  {
    assert Predicted(Estimate(Zero(1, 1), Zero(1, 1)), Zero(1, 1), Zero(2, 1), Zero(2, 2)).p.rows == 2;
  }

  /** The filter object: predict and update overwrite the estimate in place. */
  class KalmanFilter {
    var x: Matrix
    var p: Matrix

    constructor (x0: Matrix, p0: Matrix)
      ensures x == x0 && p == p0
    {
      x, p := x0, p0;
    }

    function State(): Estimate
      reads this
    {
      Estimate(x, p)
    }

    method Predict(xNext: Matrix, a: Matrix, q: Matrix) returns (ok: bool)
      requires Square(p)
      modifies this
      ensures ok <==> old(x).rows == xNext.rows && a.cols == old(p).rows && q.rows == q.cols == a.rows
      ensures State() == if ok then Predicted(old(State()), xNext, a, q) else old(State())
      // the entry check lets a transition through that is not square, and then x and p no longer fit together
      ensures ok && old(Shaped(State())) ==> (Shaped(State()) <==> Square(a) && xNext.cols == 1)
    {
      if x.rows != xNext.rows || a.cols != p.rows || q.cols != q.rows || a.rows != q.cols {
        return false;
      }
      x := xNext;
      var ap := Mul(a, p);
      p := Mul(ap, Transpose(a));
      p := Add(p, q);
      return true;
    }

    method UpdateWithPrediction(y: Matrix, yPred: Matrix, c: Matrix, r: Matrix, solve: LltSolver) returns (ok: bool)
      requires Shaped(State()) && y.cols == yPred.cols == 1 && IsLltSolver(solve)
      modifies this
      ensures ok <==> c.cols == old(p).cols && r.rows == r.cols == c.rows == y.rows && y.rows == yPred.rows
                      && Corrected(old(State()), y, yPred, c, r, solve).Some?
      ensures if ok then Corrected(old(State()), y, yPred, c, r, solve) == Some(State()) else State() == old(State())
    {
      if p.cols != c.cols || r.rows != r.cols || r.rows != c.rows || y.rows != yPred.rows || y.rows != c.rows {
        return false;
      }
      var pct := Mul(p, Transpose(c));
      var s := r;
      s := Add(s, Mul(c, pct));
      var kt := solve(s, Transpose(pct));
      if kt.None? {
        return false;
      }
      var k := Transpose(kt.value);
      x := Add(x, Mul(k, Sub(y, yPred)));
      var cp := Mul(c, p);
      p := Sub(p, Mul(k, cp));
      return true;
    }

    method Update(y: Matrix, c: Matrix, r: Matrix, solve: LltSolver) returns (ok: bool)
      requires Shaped(State()) && y.cols == 1 && IsLltSolver(solve)
      modifies this
      ensures ok <==> c.cols == old(p).cols && r.rows == r.cols == c.rows == y.rows
                      && Corrected(old(State()), y, Mul(c, old(x)), c, r, solve).Some?
      ensures if ok then Corrected(old(State()), y, Mul(c, old(x)), c, r, solve) == Some(State())
              else State() == old(State())
    {
      if c.cols != x.rows {
        return false;
      }
      ok := UpdateWithPrediction(y, Mul(c, x), c, r, solve);
    }
  }
}

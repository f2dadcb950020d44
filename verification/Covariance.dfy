/** Symmetric positive semidefinite matrices: the shape a covariance must keep. */
module Covariance {
  import opened Matrices

  predicate Square(p: Matrix) {
    p.rows == p.cols
  }

  predicate Symmetric(p: Matrix) {
    Square(p) && Transpose(p) == p
  }

  predicate ColumnFor(p: Matrix, v: Matrix) {
    v.rows == p.rows && v.cols == 1
  }

  /** The quadratic form v' p v. */
  function Quad(p: Matrix, v: Matrix): real
    requires Square(p) && ColumnFor(p, v)
  {
    At(Mul(Transpose(v), Mul(p, v)), 0, 0)
  }

  ghost predicate PositiveSemidefinite(p: Matrix) {
    Square(p) && forall v: Matrix :: ColumnFor(p, v) ==> Quad(p, v) >= 0.0
  }

  ghost predicate PositiveDefinite(p: Matrix) {
    Square(p) && forall v: Matrix :: ColumnFor(p, v) && v != Zero(p.rows, 1) ==> Quad(p, v) > 0.0
  }

  ghost predicate IsCovariance(p: Matrix) {
    Symmetric(p) && PositiveSemidefinite(p)
  }

  /** m p m', the covariance of m applied to a vector of covariance p. */
  function Congruence(m: Matrix, p: Matrix): (r: Matrix)
    requires Square(p) && m.cols == p.rows
    ensures r.rows == r.cols == m.rows
  {
    Mul(Mul(m, p), Transpose(m))
  }

  lemma QuadCongruence(m: Matrix, p: Matrix, v: Matrix)
    requires Square(p) && m.cols == p.rows && v.rows == m.rows && v.cols == 1
    ensures Quad(Congruence(m, p), v) == Quad(p, Mul(Transpose(m), v))
  {
    var w := Mul(Transpose(m), v);
    MulAssoc(Mul(m, p), Transpose(m), v);
    MulAssoc(m, p, w);
    MulAssoc(Transpose(v), m, Mul(p, w));
    TransposeMul(Transpose(m), v);
    TransposeTranspose(m);
  }

  lemma QuadAdd(p: Matrix, q: Matrix, v: Matrix)
    requires Square(p) && Square(q) && p.rows == q.rows && ColumnFor(p, v)
    ensures Quad(Add(p, q), v) == Quad(p, v) + Quad(q, v)
  {
    MulAddRight(p, q, v);
    MulAddLeft(Transpose(v), Mul(p, v), Mul(q, v));
  }

  /** Congruence takes covariances to covariances. */
  lemma CongruenceKeepsCovariance(m: Matrix, p: Matrix)
    requires IsCovariance(p) && m.cols == p.rows
    ensures IsCovariance(Congruence(m, p))
  {
    CongruenceKeepsSymmetry(m, p);
    CongruenceKeepsSemidefinite(m, p);
  }

  lemma CongruenceKeepsSymmetry(m: Matrix, p: Matrix)
    requires Symmetric(p) && m.cols == p.rows
    ensures Symmetric(Congruence(m, p))
  {
    TransposeMul(Mul(m, p), Transpose(m));
    TransposeTranspose(m);
    TransposeMul(m, p);
    MulAssoc(m, p, Transpose(m));
  }

  lemma CongruenceKeepsSemidefinite(m: Matrix, p: Matrix)
    requires PositiveSemidefinite(p) && m.cols == p.rows
    ensures PositiveSemidefinite(Congruence(m, p))
  {
    forall v: Matrix | ColumnFor(Congruence(m, p), v)
      ensures Quad(Congruence(m, p), v) >= 0.0
    {
      QuadCongruence(m, p, v);
    }
  }

  lemma AddKeepsCovariance(p: Matrix, q: Matrix)
    requires IsCovariance(p) && IsCovariance(q) && p.rows == q.rows
    ensures IsCovariance(Add(p, q))
  {
    TransposeAdd(p, q);
    forall v: Matrix | ColumnFor(Add(p, q), v)
      ensures Quad(Add(p, q), v) >= 0.0
    {
      QuadAdd(p, q, v);
    }
  }

  /** Adding positive definite noise to a covariance gives a positive definite matrix. */
  lemma AddDefinite(p: Matrix, r: Matrix)
    requires PositiveSemidefinite(p) && PositiveDefinite(r) && p.rows == r.rows
    ensures PositiveDefinite(Add(r, p))
  {
    forall v: Matrix | ColumnFor(Add(r, p), v) && v != Zero(r.rows, 1)
      ensures Quad(Add(r, p), v) > 0.0
    {
      QuadAdd(r, p, v);
    }
  }

  lemma ZeroIsCovariance(n: nat)
    ensures IsCovariance(Zero(n, n))
  {
    Extensional(Transpose(Zero(n, n)), Zero(n, n));
    forall v: Matrix | ColumnFor(Zero(n, n), v)
      ensures Quad(Zero(n, n), v) >= 0.0
    {
      SubAdd(Zero(n, n), Zero(n, n), Zero(n, n));
      Extensional(Add(Zero(n, n), Zero(n, n)), Zero(n, n));
      QuadAdd(Zero(n, n), Zero(n, n), v);
    }
  }
}

/**
 * Linear systems with a symmetric positive definite matrix have a solution, so a solver with the contract that the
 * filters rest on exists.
 */
module DefiniteSystems {
  import opened Wrappers
  import opened RealSum
  import opened Matrices
  import opened Covariance
  import opened KalmanFilters

  /** The matrix without its last row and column. */
  function Leading(s: Matrix): (a: Matrix)
    requires Square(s) && s.rows > 0
    ensures a.rows == a.cols == s.rows - 1
  {
    Block(s, 0, 0, s.rows - 1, s.rows - 1)
  }

  /** The last column without its last entry. */
  function Border(s: Matrix): (v: Matrix)
    requires Square(s) && s.rows > 0
    ensures v.rows == s.rows - 1 && v.cols == 1
  {
    Block(s, 0, s.rows - 1, s.rows - 1, 1)
  }

  /** The last row without its last entry. */
  function LastRow(s: Matrix): (r: Matrix)
    requires Square(s) && s.rows > 0
    ensures r.rows == 1 && r.cols == s.rows - 1
  {
    Block(s, s.rows - 1, 0, 1, s.rows - 1)
  }

  /** top - w c above the row c. */
  function Bordered(top: Matrix, w: Matrix, c: Matrix): (x: Matrix)
    requires top.rows == w.rows && w.cols == c.rows == 1 && c.cols == top.cols
    ensures x.rows == top.rows + 1 && x.cols == top.cols
    ensures forall i, j :: 0 <= i < x.rows && 0 <= j < x.cols ==>
              At(x, i, j) == if i < top.rows then At(top, i, j) - At(c, 0, j) * At(w, i, 0) else At(c, 0, j)
  {
    Tabulate(top.rows + 1, top.cols,
             (i, j) => if i < top.rows then At(top, i, j) - At(c, 0, j) * At(w, i, 0) else At(c, 0, j))
  }

  /** One entry of the product with a bordered matrix; r is row i of s without its last entry. */
  lemma BorderedEntry(s: Matrix, r: Matrix, top: Matrix, w: Matrix, c: Matrix, i: nat, h: nat, j: nat)
    requires top.rows == w.rows && w.cols == c.rows == 1 && c.cols == top.cols && s.cols == top.rows + 1
    requires r.cols == top.rows && i < s.rows && h < r.rows && j < top.cols
    requires forall k :: 0 <= k < r.cols ==> At(s, i, k) == At(r, h, k)
    ensures At(Mul(s, Bordered(top, w, c)), i, j)
         == At(Mul(r, top), h, j) - At(c, 0, j) * At(Mul(r, w), h, 0) + At(s, i, top.rows) * At(c, 0, j)
  {
    hide At, Mul, Bordered;
    var n, x := top.rows, Bordered(top, w, c);
    var f, g, scale := Terms(r, top, h, j), Terms(r, w, h, 0), -At(c, 0, j);
    forall k | 0 <= k < n
      ensures Terms(s, x, i, j)(k) == f(k) + scale * g(k)
    {
      Distribute(At(r, h, k), At(top, k, j), At(c, 0, j), At(w, k, 0));
    }
    SumCombined(n, Terms(s, x, i, j), f, scale, g);
    assert Terms(s, x, i, j)(n) == At(s, i, n) * At(c, 0, j);
    Distribute(1.0, At(Mul(r, top), h, j), At(c, 0, j), At(Mul(r, w), h, 0));
  }

  lemma SumCombined(n: nat, e: int -> real, f: int -> real, scale: real, g: int -> real)
    requires forall k :: 0 <= k < n ==> e(k) == f(k) + scale * g(k)
    ensures Sum(n, e) == Sum(n, f) + scale * Sum(n, g)
  {
    var h := k => scale * g(k);
    SumExt(n, e, k => f(k) + h(k));
    SumAdd(n, f, h);
    SumScale(n, scale, g);
  }

  lemma Distribute(r: real, t: real, c: real, w: real)
    ensures r * (t - c * w) == r * t + -c * (r * w)
  {
    assert r * (c * w) == c * (r * w);
  }

  /** What is left of the last diagonal entry when the rest of s is eliminated; w solves Leading(s) w == Border(s). */
  function Schur(s: Matrix, w: Matrix): real
    requires Square(s) && s.rows > 0 && w.rows == s.rows - 1 && w.cols == 1
  {
    At(s, s.rows - 1, s.rows - 1) - At(Mul(LastRow(s), w), 0, 0)
  }

  /** When w and top solve the leading system, s times the bordered matrix is known. */
  lemma BorderedProduct(s: Matrix, top: Matrix, w: Matrix, c: Matrix, i: nat, j: nat)
    requires Square(s) && s.rows > 0 && top.rows == w.rows == s.rows - 1 && w.cols == c.rows == 1 && c.cols == top.cols
    requires Mul(Leading(s), w) == Border(s) && i < s.rows && j < top.cols
    ensures At(Mul(s, Bordered(top, w, c)), i, j)
         == if i < s.rows - 1 then At(Mul(Leading(s), top), i, j)
            else At(Mul(LastRow(s), top), 0, j) + Schur(s, w) * At(c, 0, j)
  {
    hide Mul;
    if i < s.rows - 1 {
      BorderedEntry(s, Leading(s), top, w, c, i, i, j);
      assert At(Mul(Leading(s), w), i, 0) == At(s, i, s.rows - 1);
    } else {
      BorderedEntry(s, LastRow(s), top, w, c, i, 0, j);
    }
  }

  /** v above a last entry x. */
  function Extended(v: Matrix, x: real): (u: Matrix)
    requires v.cols == 1
    ensures u.rows == v.rows + 1 && u.cols == 1
    ensures forall i :: 0 <= i < u.rows ==> At(u, i, 0) == if i < v.rows then At(v, i, 0) else x
  {
    Tabulate(v.rows + 1, 1, (i, j) => if i < v.rows then At(v, i, 0) else x)
  }

  /** The leading part of a definite matrix is definite. */
  lemma LeadingDefinite(s: Matrix)
    requires Symmetric(s) && PositiveDefinite(s) && s.rows > 0
    ensures Symmetric(Leading(s)) && PositiveDefinite(Leading(s))
  {
    var a, n := Leading(s), s.rows - 1;
    forall i, j | 0 <= i < n && 0 <= j < n
      ensures At(Transpose(a), i, j) == At(a, i, j)
    {
      assert At(Transpose(s), i, j) == At(s, i, j);
    }
    Extensional(Transpose(a), a);
    forall v: Matrix | ColumnFor(a, v) && v != Zero(n, 1)
      ensures Quad(a, v) > 0.0
    {
      var u := Extended(v, 0.0);
      if u == Zero(n + 1, 1) {
        assert forall i, j :: 0 <= i < n && 0 <= j < 1 ==> At(u, i, 0) == At(v, i, j);
        Extensional(v, Zero(n, 1));
      }
      QuadExtended(s, v);
    }
  }

  lemma QuadExtended(s: Matrix, v: Matrix)
    requires Square(s) && s.rows > 0 && ColumnFor(Leading(s), v)
    ensures Quad(s, Extended(v, 0.0)) == Quad(Leading(s), v)
  {
    hide At, Mul, Extended, Leading, Transpose;
    var a, u, n := Leading(s), Extended(v, 0.0), s.rows - 1;
    var f, g := Terms(Transpose(u), Mul(s, u), 0, 0), Terms(Transpose(v), Mul(a, v), 0, 0);
    forall k: nat | k < n
      ensures f(k) == g(k)
    {
      ProductExtended(s, v, k);
    }
    SumExt(n, f, g);
    assert f(n) == 0.0;
  }

  lemma ProductExtended(s: Matrix, v: Matrix, k: nat)
    requires Square(s) && s.rows > 0 && ColumnFor(Leading(s), v) && k < s.rows - 1
    ensures At(Mul(s, Extended(v, 0.0)), k, 0) == At(Mul(Leading(s), v), k, 0)
  {
    SumExt(s.rows - 1, Terms(s, Extended(v, 0.0), k, 0), Terms(Leading(s), v, k, 0));
  }

  lemma SchurPositive(s: Matrix, w: Matrix)
    requires Symmetric(s) && PositiveDefinite(s) && s.rows > 0 && w.rows == s.rows - 1 && w.cols == 1
    requires Mul(Leading(s), w) == Border(s)
    ensures Schur(s, w) > 0.0
  {
    hide At, Mul, Bordered;
    var n, one := s.rows - 1, Tabulate(1, 1, (i, j) => 1.0);
    var u := Bordered(Zero(n, 1), w, one);
    forall i: nat | i < s.rows
      ensures At(Mul(s, u), i, 0) == if i < n then 0.0 else Schur(s, w)
    {
      EliminatedColumn(s, w, one, i);
    }
    assert At(u, n, 0) == 1.0;
    QuadPicks(s, u, n, Schur(s, w));
    assert At(Zero(s.rows, 1), n, 0) == 0.0;
  }

  lemma EliminatedColumn(s: Matrix, w: Matrix, one: Matrix, i: nat)
    requires Square(s) && s.rows > 0 && w.rows == s.rows - 1 && w.cols == 1 && Mul(Leading(s), w) == Border(s)
    requires one.rows == one.cols == 1 && At(one, 0, 0) == 1.0 && i < s.rows
    ensures At(Mul(s, Bordered(Zero(s.rows - 1, 1), w, one)), i, 0) == if i < s.rows - 1 then 0.0 else Schur(s, w)
  {
    hide Schur, Bordered;
    var n, zero := s.rows - 1, Zero(s.rows - 1, 1);
    BorderedProduct(s, zero, w, one, i, 0);
    if i < n {
      SumZero(n, Terms(Leading(s), zero, i, 0));
    } else {
      SumZero(n, Terms(LastRow(s), zero, 0, 0));
    }
  }

  /** The quadratic form when s u has one nonzero entry. */
  lemma QuadPicks(s: Matrix, u: Matrix, n: nat, value: real)
    requires Square(s) && ColumnFor(s, u) && n < s.rows && At(u, n, 0) == 1.0
    requires forall i :: 0 <= i < s.rows ==> At(Mul(s, u), i, 0) == if i == n then value else 0.0
    ensures Quad(s, u) == value
  {
    var su := Mul(s, u);
    var f := Terms(Transpose(u), su, 0, 0);
    forall k | 0 <= k < s.rows && k != n
      ensures f(k) == 0.0
    {
      assert At(su, k, 0) == 0.0;
    }
    SumPick(s.rows, n, f);
  }

  /** Every system with a symmetric positive definite matrix has a solution, found by bordering. */
  lemma {:induction false} DefiniteSolvable(s: Matrix, b: Matrix) returns (x: Matrix)
    requires Symmetric(s) && PositiveDefinite(s) && b.rows == s.rows
    ensures x.rows == b.rows && x.cols == b.cols && Mul(s, x) == b
    decreases s.rows
  {
    hide At, Mul, Schur, Bordered, PositiveDefinite, Leading, Border, LastRow;
    if s.rows == 0 {
      x := b;
      Extensional(Mul(s, x), b);
    } else {
      var n := s.rows - 1;
      LeadingDefinite(s);
      var w := DefiniteSolvable(Leading(s), Border(s));
      var top := DefiniteSolvable(Leading(s), Block(b, 0, 0, n, b.cols));
      SchurPositive(s, w);
      var c := Quotients(b, Mul(LastRow(s), top), Schur(s, w));
      x := Bordered(top, w, c);
      SolvedByBordering(s, b, top, w, c);
    }
  }

  /** The last row of b less r, divided by d. */
  function Quotients(b: Matrix, r: Matrix, d: real): (c: Matrix)
    requires b.rows > 0 && r.rows == 1 && r.cols == b.cols && d != 0.0
    ensures c.rows == 1 && c.cols == b.cols
    ensures forall j :: 0 <= j < b.cols ==> d * At(c, 0, j) == At(b, b.rows - 1, j) - At(r, 0, j)
  {
    var c := Tabulate(1, b.cols, (i, j) => (At(b, b.rows - 1, j) - At(r, 0, j)) / d);
    assert forall j :: 0 <= j < b.cols ==> At(c, 0, j) == (At(b, b.rows - 1, j) - At(r, 0, j)) / d;
    c
  }

  lemma SolvedByBordering(s: Matrix, b: Matrix, top: Matrix, w: Matrix, c: Matrix)
    requires Square(s) && s.rows > 0 && b.rows == s.rows && top.rows == w.rows == s.rows - 1
    requires w.cols == c.rows == 1 && c.cols == top.cols == b.cols
    requires Mul(Leading(s), w) == Border(s) && Mul(Leading(s), top) == Block(b, 0, 0, s.rows - 1, b.cols)
    requires forall j :: 0 <= j < b.cols ==>
               Schur(s, w) * At(c, 0, j) == At(b, s.rows - 1, j) - At(Mul(LastRow(s), top), 0, j)
    ensures Mul(s, Bordered(top, w, c)) == b
  {
    hide Mul, Schur;
    forall i, j | 0 <= i < b.rows && 0 <= j < b.cols
      ensures At(Mul(s, Bordered(top, w, c)), i, j) == At(b, i, j)
    {
      BorderedProduct(s, top, w, c, i, j);
      if i < s.rows - 1 {
        assert At(Mul(Leading(s), top), i, j) == At(Block(b, 0, 0, s.rows - 1, b.cols), i, j);
      }
    }
    Extensional(Mul(s, Bordered(top, w, c)), b);
  }

  /** A definite system has no other solution. */
  lemma DefiniteUnique(s: Matrix, x: Matrix, y: Matrix)
    requires PositiveDefinite(s) && x.rows == y.rows == s.rows && x.cols == y.cols && Mul(s, x) == Mul(s, y)
    ensures x == y
  {
    forall i, j | 0 <= i < x.rows && 0 <= j < x.cols
      ensures At(x, i, j) == At(y, i, j)
    {
      var d := Tabulate(s.rows, 1, (k, l) => At(x, k, j) - At(y, k, j));
      ColumnVanishes(s, x, y, d, j);
      assert At(d, i, 0) == 0.0;
    }
    Extensional(x, y);
  }

  lemma ColumnVanishes(s: Matrix, x: Matrix, y: Matrix, d: Matrix, j: nat)
    requires PositiveDefinite(s) && x.rows == y.rows == s.rows && x.cols == y.cols && Mul(s, x) == Mul(s, y)
    requires j < x.cols && ColumnFor(s, d) && forall k :: 0 <= k < s.rows ==> At(d, k, 0) == At(x, k, j) - At(y, k, j)
    ensures d == Zero(s.rows, 1)
  {
    forall i | 0 <= i < s.rows
      ensures At(Mul(s, d), i, 0) == 0.0
    {
      DifferenceVanishes(s, x, y, d, i, j);
    }
    SumZero(s.rows, Terms(Transpose(d), Mul(s, d), 0, 0));
    assert Quad(s, d) == 0.0;
  }

  lemma DifferenceVanishes(s: Matrix, x: Matrix, y: Matrix, d: Matrix, i: nat, j: nat)
    requires x.rows == y.rows == s.cols && x.cols == y.cols && Mul(s, x) == Mul(s, y) && i < s.rows && j < x.cols
    requires d.rows == s.cols && d.cols == 1 && forall k :: 0 <= k < s.cols ==> At(d, k, 0) == At(x, k, j) - At(y, k, j)
    ensures At(Mul(s, d), i, 0) == 0.0
  {
    var f, g := Terms(s, x, i, j), Terms(s, y, i, j);
    SumCombined(s.cols, Terms(s, d, i, 0), f, -1.0, g);
    assert At(Mul(s, x), i, j) == At(Mul(s, y), i, j);
  }

  /** Solving for some columns of the right-hand side gives those columns of the solution. */
  lemma SolvedColumns(s: Matrix, b: Matrix, col: nat, w: nat, solve: LltSolver)
    requires IsLltSolver(solve) && Symmetric(s) && s.rows == b.rows && col + w <= b.cols
    ensures solve(s, b).Some? <==> solve(s, Block(b, 0, col, b.rows, w)).Some?
    ensures solve(s, b).Some? ==>
              && solve(s, b).value.rows == b.rows && solve(s, b).value.cols == b.cols
              && solve(s, Block(b, 0, col, b.rows, w)).value == Block(solve(s, b).value, 0, col, b.rows, w)
  {
    hide At, Block, Mul, PositiveDefinite;
    if solve(s, b).Some? {
      var bw, z := Block(b, 0, col, b.rows, w), solve(s, b).value;
      BlockOfProduct(s, z, 0, col, s.rows, w);
      WholeBlock(s);
      DefiniteUnique(s, solve(s, bw).value, Block(z, 0, col, b.rows, w));
    }
  }

  // ----- A solver -----

  ghost predicate Solution(s: Matrix, b: Matrix, x: Matrix) {
    Square(s) && s.rows == b.rows && x.rows == b.rows && x.cols == b.cols && Mul(s, x) == b
  }

  /** The solution of a symmetric positive definite system; nothing for any other. */
  ghost function Solve(s: Matrix, b: Matrix): Option<Matrix> {
    if Symmetric(s) && PositiveDefinite(s) && exists x: Matrix :: Solution(s, b, x) then
      var x: Matrix :| Solution(s, b, x);
      Some(x)
    else None
  }

  /** A solver as the filters assume it exists. */
  lemma LltSolverExists()
    ensures exists solve: LltSolver :: IsLltSolver(solve)
  {
    var solve: LltSolver := (s, b) => Solve(s, b);
    forall s: Matrix, b: Matrix | Square(s) && s.rows == b.rows && Symmetric(s) && PositiveDefinite(s)
      ensures solve(s, b).Some?
    {
      var x := DefiniteSolvable(s, b);
      assert Solution(s, b, x);
    }
    assert IsLltSolver(solve);
  }
}

/** Dense real matrices with symbolic dimensions, and the algebra the filters rest on. */
module Matrices {
  import opened RealSum

  datatype RawMatrix = Matrix(rows: nat, cols: nat, elements: seq<seq<real>>)

  type Matrix = m: RawMatrix |
      |m.elements| == m.rows && forall i :: 0 <= i < m.rows ==> |m.elements[i]| == m.cols
    witness RawMatrix.Matrix(0, 0, [])

  /** The entry in row i and column j; outside the matrix it reads 0. */
  function At(m: Matrix, i: int, j: int): real {
    if 0 <= i < m.rows && 0 <= j < m.cols then m.elements[i][j] else 0.0
  }

  function Tabulate(rows: nat, cols: nat, f: (int, int) -> real): (m: Matrix)
    ensures m.rows == rows && m.cols == cols
    ensures forall i, j :: 0 <= i < rows && 0 <= j < cols ==> At(m, i, j) == f(i, j)
  {
    RawMatrix.Matrix(rows, cols, seq(rows, i => seq(cols, j => f(i, j))))
  }

  /** Two matrices of one shape with equal entries are equal. */
  lemma Extensional(a: Matrix, b: Matrix)
    requires a.rows == b.rows && a.cols == b.cols
    requires forall i, j :: 0 <= i < a.rows && 0 <= j < a.cols ==> At(a, i, j) == At(b, i, j)
    ensures a == b
  {
    forall i | 0 <= i < a.rows
      ensures a.elements[i] == b.elements[i]
    {
      forall j | 0 <= j < a.cols
        ensures a.elements[i][j] == b.elements[i][j]
      {
        assert At(a, i, j) == At(b, i, j);
      }
    }
  }

  function Zero(rows: nat, cols: nat): (m: Matrix)
    ensures m.rows == rows && m.cols == cols
    ensures forall i, j :: At(m, i, j) == 0.0
  {
    Tabulate(rows, cols, (i, j) => 0.0)
  }

  function Identity(n: nat): (m: Matrix)
    ensures m.rows == n && m.cols == n
    ensures forall i, j :: 0 <= i < n && 0 <= j < n ==> At(m, i, j) == if i == j then 1.0 else 0.0
  {
    Tabulate(n, n, (i, j) => if i == j then 1.0 else 0.0)
  }

  function Add(a: Matrix, b: Matrix): (m: Matrix)
    requires a.rows == b.rows && a.cols == b.cols
    ensures m.rows == a.rows && m.cols == a.cols
    ensures forall i, j :: At(m, i, j) == At(a, i, j) + At(b, i, j)
  {
    Tabulate(a.rows, a.cols, (i, j) => At(a, i, j) + At(b, i, j))
  }

  function Sub(a: Matrix, b: Matrix): (m: Matrix)
    requires a.rows == b.rows && a.cols == b.cols
    ensures m.rows == a.rows && m.cols == a.cols
    ensures forall i, j :: At(m, i, j) == At(a, i, j) - At(b, i, j)
  {
    Tabulate(a.rows, a.cols, (i, j) => At(a, i, j) - At(b, i, j))
  }

  function Transpose(a: Matrix): (m: Matrix)
    ensures m.rows == a.cols && m.cols == a.rows
    ensures forall i, j :: At(m, i, j) == At(a, j, i)
  {
    Tabulate(a.cols, a.rows, (i, j) => At(a, j, i))
  }

  /** The products whose sum is entry (i, j) of a * b. */
  function Terms(a: Matrix, b: Matrix, i: int, j: int): int -> real {
    k => At(a, i, k) * At(b, k, j)
  }

  function Mul(a: Matrix, b: Matrix): (m: Matrix)
    requires a.cols == b.rows
    ensures m.rows == a.rows && m.cols == b.cols
    ensures forall i, j :: 0 <= i < a.rows && 0 <= j < b.cols ==> At(m, i, j) == Sum(a.cols, Terms(a, b, i, j))
  {
    Tabulate(a.rows, b.cols, (i, j) => Sum(a.cols, Terms(a, b, i, j)))
  }

  /** The rows x cols block whose top-left entry is (row, col). */
  function Block(a: Matrix, row: nat, col: nat, rows: nat, cols: nat): (m: Matrix)
    requires row + rows <= a.rows && col + cols <= a.cols
    ensures m.rows == rows && m.cols == cols
    ensures forall i, j :: 0 <= i < rows && 0 <= j < cols ==> At(m, i, j) == At(a, row + i, col + j)
  {
    Tabulate(rows, cols, (i, j) => At(a, row + i, col + j))
  }

  predicate InBlock(i: int, j: int, row: nat, col: nat, b: Matrix) {
    row <= i < row + b.rows && col <= j < col + b.cols
  }

  /** a with the block whose top-left entry is (row, col) overwritten by b. */
  function SetBlock(a: Matrix, row: nat, col: nat, b: Matrix): (m: Matrix)
    requires row + b.rows <= a.rows && col + b.cols <= a.cols
    ensures m.rows == a.rows && m.cols == a.cols
    ensures forall i, j :: 0 <= i < a.rows && 0 <= j < a.cols ==>
      At(m, i, j) == if InBlock(i, j, row, col, b) then At(b, i - row, j - col) else At(a, i, j)
  {
    Tabulate(a.rows, a.cols, (i, j) => if InBlock(i, j, row, col, b) then At(b, i - row, j - col) else At(a, i, j))
  }

  lemma MulAssoc(a: Matrix, b: Matrix, c: Matrix)
    requires a.cols == b.rows && b.cols == c.rows
    ensures Mul(Mul(a, b), c) == Mul(a, Mul(b, c))
  {
    forall i, j | 0 <= i < a.rows && 0 <= j < c.cols
      ensures At(Mul(Mul(a, b), c), i, j) == At(Mul(a, Mul(b, c)), i, j)
    {
      MulAssocEntry(a, b, c, i, j);
    }
    Extensional(Mul(Mul(a, b), c), Mul(a, Mul(b, c)));
  }

  /** The product a_il b_lk c_kj; entry (i, j) of a * b * c is its double sum over l and k. */
  function Triple(a: Matrix, b: Matrix, c: Matrix, i: int, j: int, k: int, l: int): real {
    At(a, i, l) * At(b, l, k) * At(c, k, j)
  }

  lemma MulAssocEntry(a: Matrix, b: Matrix, c: Matrix, i: int, j: int)
    requires a.cols == b.rows && b.cols == c.rows
    requires 0 <= i < a.rows && 0 <= j < c.cols
    ensures At(Mul(Mul(a, b), c), i, j) == At(Mul(a, Mul(b, c)), i, j)
  {
    var f := (k, l) => Triple(a, b, c, i, j, k, l);
    forall k | 0 <= k < b.cols
      ensures Terms(Mul(a, b), c, i, j)(k) == Sum(a.cols, l => f(k, l))
    {
      LeftTriples(a, b, c, i, j, k);
      SumExt(a.cols, l => Triple(a, b, c, i, j, k, l), l => f(k, l));
    }
    forall l | 0 <= l < a.cols
      ensures Terms(a, Mul(b, c), i, j)(l) == Sum(b.cols, k => f(k, l))
    {
      RightTriples(a, b, c, i, j, l);
      SumExt(b.cols, k => Triple(a, b, c, i, j, k, l), k => f(k, l));
    }
    SumExt(b.cols, Terms(Mul(a, b), c, i, j), k => Sum(a.cols, l => f(k, l)));
    SumExt(a.cols, Terms(a, Mul(b, c), i, j), l => Sum(b.cols, k => f(k, l)));
    SumSwap(b.cols, a.cols, f);
  }

  lemma Rotate(x: real, y: real, z: real)
    ensures z * (x * y) == x * y * z == x * (y * z)
  {
  }

  lemma LeftTriples(a: Matrix, b: Matrix, c: Matrix, i: int, j: int, k: int)
    requires a.cols == b.rows && 0 <= i < a.rows && 0 <= k < b.cols
    ensures Terms(Mul(a, b), c, i, j)(k) == Sum(a.cols, l => Triple(a, b, c, i, j, k, l))
  {
    var scaled, triples := l => At(c, k, j) * Terms(a, b, i, k)(l), l => Triple(a, b, c, i, j, k, l);
    SumScale(a.cols, At(c, k, j), Terms(a, b, i, k));
    forall l | 0 <= l < a.cols
      ensures scaled(l) == triples(l)
    {
      Rotate(At(a, i, l), At(b, l, k), At(c, k, j));
    }
    SumExt(a.cols, scaled, triples);
  }

  lemma RightTriples(a: Matrix, b: Matrix, c: Matrix, i: int, j: int, l: int)
    requires b.cols == c.rows && 0 <= l < b.rows && 0 <= j < c.cols
    ensures Terms(a, Mul(b, c), i, j)(l) == Sum(b.cols, k => Triple(a, b, c, i, j, k, l))
  {
    var scaled, triples := k => At(a, i, l) * Terms(b, c, l, j)(k), k => Triple(a, b, c, i, j, k, l);
    SumScale(b.cols, At(a, i, l), Terms(b, c, l, j));
    forall k | 0 <= k < b.cols
      ensures scaled(k) == triples(k)
    {
      Rotate(At(a, i, l), At(b, l, k), At(c, k, j));
    }
    SumExt(b.cols, scaled, triples);
  }

  lemma TransposeMul(a: Matrix, b: Matrix)
    requires a.cols == b.rows
    ensures Transpose(Mul(a, b)) == Mul(Transpose(b), Transpose(a))
  {
    forall i, j | 0 <= i < b.cols && 0 <= j < a.rows
      ensures At(Transpose(Mul(a, b)), i, j) == At(Mul(Transpose(b), Transpose(a)), i, j)
    {
      SumExt(a.cols, Terms(a, b, j, i), Terms(Transpose(b), Transpose(a), i, j));
    }
    Extensional(Transpose(Mul(a, b)), Mul(Transpose(b), Transpose(a)));
  }

  lemma TransposeTranspose(a: Matrix)
    ensures Transpose(Transpose(a)) == a
  {
    Extensional(Transpose(Transpose(a)), a);
  }

  lemma TransposeAdd(a: Matrix, b: Matrix)
    requires a.rows == b.rows && a.cols == b.cols
    ensures Transpose(Add(a, b)) == Add(Transpose(a), Transpose(b))
  {
    Extensional(Transpose(Add(a, b)), Add(Transpose(a), Transpose(b)));
  }

  lemma TransposeSub(a: Matrix, b: Matrix)
    requires a.rows == b.rows && a.cols == b.cols
    ensures Transpose(Sub(a, b)) == Sub(Transpose(a), Transpose(b))
  {
    Extensional(Transpose(Sub(a, b)), Sub(Transpose(a), Transpose(b)));
  }

  lemma MulIdentity(a: Matrix)
    ensures Mul(a, Identity(a.cols)) == a && Mul(Identity(a.rows), a) == a
  {
    forall i, j | 0 <= i < a.rows && 0 <= j < a.cols
      ensures At(Mul(a, Identity(a.cols)), i, j) == At(a, i, j) == At(Mul(Identity(a.rows), a), i, j)
    {
      SumPick(a.cols, j, Terms(a, Identity(a.cols), i, j));
      SumPick(a.rows, i, Terms(Identity(a.rows), a, i, j));
    }
    Extensional(Mul(a, Identity(a.cols)), a);
    Extensional(Mul(Identity(a.rows), a), a);
  }

  /** A sum with at most one nonzero term. */
  lemma SumPick(n: nat, at: nat, f: int -> real)
    requires at < n
    requires forall k :: 0 <= k < n && k != at ==> f(k) == 0.0
    ensures Sum(n, f) == f(at)
  {
    SumWindow(n, at, 1, f);
    assert Sum(1, k => f(at + k)) == f(at);
  }

  lemma MulAddRight(a: Matrix, b: Matrix, c: Matrix)
    requires a.rows == b.rows && a.cols == b.cols == c.rows
    ensures Mul(Add(a, b), c) == Add(Mul(a, c), Mul(b, c))
  {
    forall i, j | 0 <= i < a.rows && 0 <= j < c.cols
      ensures At(Mul(Add(a, b), c), i, j) == At(Mul(a, c), i, j) + At(Mul(b, c), i, j)
    {
      SumAdd(a.cols, Terms(a, c, i, j), Terms(b, c, i, j));
      SumExt(a.cols, Terms(Add(a, b), c, i, j), k => Terms(a, c, i, j)(k) + Terms(b, c, i, j)(k));
    }
    Extensional(Mul(Add(a, b), c), Add(Mul(a, c), Mul(b, c)));
  }

  lemma MulAddLeft(a: Matrix, b: Matrix, c: Matrix)
    requires a.cols == b.rows == c.rows && b.cols == c.cols
    ensures Mul(a, Add(b, c)) == Add(Mul(a, b), Mul(a, c))
  {
    forall i, j | 0 <= i < a.rows && 0 <= j < c.cols
      ensures At(Mul(a, Add(b, c)), i, j) == At(Mul(a, b), i, j) + At(Mul(a, c), i, j)
    {
      SumAdd(a.cols, Terms(a, b, i, j), Terms(a, c, i, j));
      SumExt(a.cols, Terms(a, Add(b, c), i, j), k => Terms(a, b, i, j)(k) + Terms(a, c, i, j)(k));
    }
    Extensional(Mul(a, Add(b, c)), Add(Mul(a, b), Mul(a, c)));
  }

  /** a - b is the only matrix that gives a when b is added back. */
  lemma SubAdd(a: Matrix, b: Matrix, d: Matrix)
    requires a.rows == b.rows == d.rows && a.cols == b.cols == d.cols
    ensures d == Sub(a, b) <==> Add(d, b) == a
  {
    if Add(d, b) == a {
      Extensional(d, Sub(a, b));
    }
    if d == Sub(a, b) {
      Extensional(Add(d, b), a);
    }
  }

  lemma MulSubRight(a: Matrix, b: Matrix, c: Matrix)
    requires a.rows == b.rows && a.cols == b.cols == c.rows
    ensures Mul(Sub(a, b), c) == Sub(Mul(a, c), Mul(b, c))
  {
    SubAdd(a, b, Sub(a, b));
    MulAddRight(Sub(a, b), b, c);
    SubAdd(Mul(a, c), Mul(b, c), Mul(Sub(a, b), c));
  }

  lemma MulSubLeft(a: Matrix, b: Matrix, c: Matrix)
    requires a.cols == b.rows == c.rows && b.cols == c.cols
    ensures Mul(a, Sub(b, c)) == Sub(Mul(a, b), Mul(a, c))
  {
    SubAdd(b, c, Sub(b, c));
    MulAddLeft(a, Sub(b, c), c);
    SubAdd(Mul(a, b), Mul(a, c), Mul(a, Sub(b, c)));
  }

  /** A block of a product is the product of a block of rows and a block of columns. */
  lemma BlockOfProduct(a: Matrix, b: Matrix, row: nat, col: nat, rows: nat, cols: nat)
    requires a.cols == b.rows && row + rows <= a.rows && col + cols <= b.cols
    ensures Block(Mul(a, b), row, col, rows, cols) == Mul(Block(a, row, 0, rows, a.cols), Block(b, 0, col, b.rows, cols))
  {
    var left, right := Block(a, row, 0, rows, a.cols), Block(b, 0, col, b.rows, cols);
    forall i, j | 0 <= i < rows && 0 <= j < cols
      ensures At(Block(Mul(a, b), row, col, rows, cols), i, j) == At(Mul(left, right), i, j)
    {
      SumExt(a.cols, Terms(a, b, row + i, col + j), Terms(left, right, i, j));
    }
    Extensional(Block(Mul(a, b), row, col, rows, cols), Mul(left, right));
  }

  /** When row i of wide is row i of narrow from column start on and zero elsewhere, only a block of m matters. */
  lemma WindowProduct(wide: Matrix, narrow: Matrix, start: nat, m: Matrix, i: nat, j: nat)
    requires wide.cols == m.rows && start + narrow.cols <= m.rows && i < wide.rows && i < narrow.rows && j < m.cols
    requires forall k :: 0 <= k < m.rows ==>
      At(wide, i, k) == if start <= k < start + narrow.cols then At(narrow, i, k - start) else 0.0
    ensures At(Mul(wide, m), i, j) == At(Mul(narrow, Block(m, start, 0, narrow.cols, m.cols)), i, j)
  {
    var terms, rows := Terms(wide, m, i, j), Block(m, start, 0, narrow.cols, m.cols);
    var window := k => terms(start + k);
    SumWindow(m.rows, start, narrow.cols, terms);
    SumExt(narrow.cols, window, Terms(narrow, rows, i, j));
  }

  lemma WholeBlock(a: Matrix)
    ensures Block(a, 0, 0, a.rows, a.cols) == a
  {
    Extensional(Block(a, 0, 0, a.rows, a.cols), a);
  }

  /** A block inside a block. */
  lemma NestedBlock(a: Matrix, row: nat, col: nat, rows: nat, cols: nat, r: nat, c: nat, h: nat, w: nat)
    requires row + rows <= a.rows && col + cols <= a.cols && r + h <= rows && c + w <= cols
    ensures Block(Block(a, row, col, rows, cols), r, c, h, w) == Block(a, row + r, col + c, h, w)
  {
    Extensional(Block(Block(a, row, col, rows, cols), r, c, h, w), Block(a, row + r, col + c, h, w));
  }

  /** m b' read as the transpose of b m'. */
  lemma MulTransposed(m: Matrix, b: Matrix)
    requires m.cols == b.cols
    ensures Mul(m, Transpose(b)) == Transpose(Mul(b, Transpose(m)))
  {
    TransposeMul(b, Transpose(m));
    TransposeTranspose(m);
  }

  /** Square matrices that agree on the four blocks cut at n are equal. */
  lemma EqualByBlocks(a: Matrix, b: Matrix, n: nat)
    requires a.rows == a.cols == b.rows == b.cols && n <= a.rows
    requires Block(a, 0, 0, n, n) == Block(b, 0, 0, n, n)
    requires Block(a, 0, n, n, a.rows - n) == Block(b, 0, n, n, a.rows - n)
    requires Block(a, n, 0, a.rows - n, n) == Block(b, n, 0, a.rows - n, n)
    requires Block(a, n, n, a.rows - n, a.rows - n) == Block(b, n, n, a.rows - n, a.rows - n)
    ensures a == b
  {
    var rest := a.rows - n;
    forall i, j | 0 <= i < a.rows && 0 <= j < a.rows
      ensures At(a, i, j) == At(b, i, j)
    {
      if i < n && j < n {
        assert At(Block(a, 0, 0, n, n), i, j) == At(Block(b, 0, 0, n, n), i, j);
      } else if i < n {
        assert At(Block(a, 0, n, n, rest), i, j - n) == At(Block(b, 0, n, n, rest), i, j - n);
      } else if j < n {
        assert At(Block(a, n, 0, rest, n), i - n, j) == At(Block(b, n, 0, rest, n), i - n, j);
      } else {
        assert At(Block(a, n, n, rest, rest), i - n, j - n) == At(Block(b, n, n, rest, rest), i - n, j - n);
      }
    }
    Extensional(a, b);
  }

  /** What SetBlock writes is read back; blocks beside it keep their entries. */
  lemma SetBlockReads(a: Matrix, row: nat, col: nat, b: Matrix, r: nat, c: nat, h: nat, w: nat)
    requires row + b.rows <= a.rows && col + b.cols <= a.cols && r + h <= a.rows && c + w <= a.cols
    ensures Block(SetBlock(a, row, col, b), row, col, b.rows, b.cols) == b
    ensures (r + h <= row || row + b.rows <= r || c + w <= col || col + b.cols <= c) ==>
              Block(SetBlock(a, row, col, b), r, c, h, w) == Block(a, r, c, h, w)
  {
    Extensional(Block(SetBlock(a, row, col, b), row, col, b.rows, b.cols), b);
    if r + h <= row || row + b.rows <= r || c + w <= col || col + b.cols <= c {
      Extensional(Block(SetBlock(a, row, col, b), r, c, h, w), Block(a, r, c, h, w));
    }
  }
}

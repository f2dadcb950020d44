/**
 * The time-delay Kalman filter keeps the last d states stacked in one vector but never forms the augmented model:
 * it shifts blocks and multiplies only the block of the delayed state. Here its block operations are tied to the
 * dense filter on the augmented matrices.
 */
module AugmentedModel {
  import opened Wrappers
  import opened RealSum
  import opened Matrices
  import opened Covariance
  import opened KalmanFilters

  // ----- The augmented model -----

  /** [a 0; I 0]: the newest state moves by a, every older one moves down by one block. */
  function AugmentedTransition(a: Matrix, total: nat): (m: Matrix)
    requires Square(a) && a.rows <= total
    ensures m.rows == m.cols == total
    ensures forall i, j :: 0 <= i < total && 0 <= j < total ==>
      At(m, i, j) == if i < a.rows then At(a, i, j) else if j == i - a.rows then 1.0 else 0.0
  {
    Tabulate(total, total, (i, j) => if i < a.rows then At(a, i, j) else if j == i - a.rows then 1.0 else 0.0)
  }

  /** q on the newest state, no noise on the older ones. */
  function AugmentedNoise(q: Matrix, total: nat): (m: Matrix)
    requires Square(q) && q.rows <= total
    ensures m.rows == m.cols == total
  {
    SetBlock(Zero(total, total), 0, 0, q)
  }

  /** c on the columns of the state that starts at row start, zero elsewhere. */
  function AugmentedMeasurement(c: Matrix, start: nat, total: nat): (m: Matrix)
    requires start + c.cols <= total
    ensures m.rows == c.rows && m.cols == total
  {
    SetBlock(Zero(c.rows, total), 0, start, c)
  }

  // ----- The block operations -----

  /** The stacked vector moved down one block, with xNext on top. */
  function ShiftedState(x: Matrix, xNext: Matrix): (m: Matrix)
    requires x.cols == xNext.cols == 1 && xNext.rows <= x.rows
    ensures m.rows == x.rows && m.cols == 1
  {
    var n := xNext.rows;
    SetBlock(SetBlock(Zero(x.rows, 1), 0, 0, xNext), n, 0, Block(x, 0, 0, x.rows - n, 1))
  }

  /** The stacked covariance moved down one block, with the four new blocks computed from a and q. */
  function ShiftedCovariance(p: Matrix, a: Matrix, q: Matrix): (m: Matrix)
    requires Square(p) && Square(a) && Square(q) && a.rows == q.rows <= p.rows
    ensures m.rows == m.cols == p.rows
  {
    var n, rest := a.rows, p.rows - a.rows;
    var top := SetBlock(Zero(p.rows, p.rows), 0, 0, Add(Mul(Mul(a, Block(p, 0, 0, n, n)), Transpose(a)), q));
    var right := SetBlock(top, 0, n, Mul(a, Block(p, 0, 0, n, rest)));
    var left := SetBlock(right, n, 0, Mul(Block(p, 0, 0, rest, n), Transpose(a)));
    SetBlock(left, n, n, Block(p, 0, 0, rest, rest))
  }

  /** The corrected estimate computed from the blocks of the state that starts at row start. */
  function DelayedCorrected(e: Estimate, n: nat, y: Matrix, c: Matrix, r: Matrix, start: nat, solve: LltSolver)
      : (u: Option<Estimate>)
    requires Shaped(e) && start + n <= e.x.rows && c.cols == n
    requires y.rows == c.rows == r.rows == r.cols && y.cols == 1 && IsLltSolver(solve)
    ensures u.Some? ==> Shaped(u.value) && u.value.x.rows == e.x.rows
  {
    var innovation := Sub(y, Mul(c, Block(e.x, start, 0, n, 1)));
    var s := Add(r, Mul(Mul(c, Block(e.p, start, start, n, n)), Transpose(c)));
    var pct := Mul(Block(e.p, 0, start, e.p.rows, n), Transpose(c));
    match solve(s, Transpose(pct))
    case None => None
    case Some(kt) =>
      var k := Transpose(kt);
      Some(Estimate(Add(e.x, Mul(k, innovation)), Sub(e.p, Mul(pct, Transpose(k)))))
  }

  // ----- Prediction refines the dense prediction -----

  /** Multiplying by the augmented transition applies a to the top block and shifts the rest down. */
  lemma TransitionShifts(a: Matrix, m: Matrix)
    requires Square(a) && a.rows <= m.rows
    ensures Mul(AugmentedTransition(a, m.rows), m)
      == SetBlock(SetBlock(Zero(m.rows, m.cols), 0, 0, Mul(a, Block(m, 0, 0, a.rows, m.cols))),
                  a.rows, 0, Block(m, 0, 0, m.rows - a.rows, m.cols))
  {
    var n, aEx := a.rows, AugmentedTransition(a, m.rows);
    var newest := Mul(a, Block(m, 0, 0, n, m.cols));
    forall i, j | 0 <= i < m.rows && 0 <= j < m.cols
      ensures At(Mul(aEx, m), i, j) == if i < n then At(newest, i, j) else At(m, i - n, j)
    {
      TransitionShiftsEntry(a, m, i, j);
    }
    StackTwo(Mul(aEx, m), newest, Block(m, 0, 0, m.rows - n, m.cols));
  }

  lemma TransitionShiftsEntry(a: Matrix, m: Matrix, i: nat, j: nat)
    requires Square(a) && a.rows <= m.rows && i < m.rows && j < m.cols
    ensures At(Mul(AugmentedTransition(a, m.rows), m), i, j)
         == if i < a.rows then At(Mul(a, Block(m, 0, 0, a.rows, m.cols)), i, j) else At(m, i - a.rows, j)
  {
    var n, aEx := a.rows, AugmentedTransition(a, m.rows);
    if i < n {
      WindowProduct(aEx, a, 0, m, i, j);
    } else {
      SumPick(m.rows, i - n, Terms(aEx, m, i, j));
    }
  }

  /** A matrix whose rows are those of top followed by those of bottom is the two blocks stacked. */
  lemma StackTwo(m: Matrix, top: Matrix, bottom: Matrix)
    requires top.cols == bottom.cols == m.cols && top.rows + bottom.rows == m.rows
    requires forall i, j :: 0 <= i < m.rows && 0 <= j < m.cols ==>
      At(m, i, j) == if i < top.rows then At(top, i, j) else At(bottom, i - top.rows, j)
    ensures m == SetBlock(SetBlock(Zero(m.rows, m.cols), 0, 0, top), top.rows, 0, bottom)
  {
    Extensional(m, SetBlock(SetBlock(Zero(m.rows, m.cols), 0, 0, top), top.rows, 0, bottom));
  }

  /** The same from the right: m times the transposed transition shifts the columns of m. */
  lemma TransitionShiftsColumns(a: Matrix, m: Matrix)
    requires Square(a) && a.rows <= m.cols
    ensures Mul(m, Transpose(AugmentedTransition(a, m.cols)))
      == SetBlock(SetBlock(Zero(m.rows, m.cols), 0, 0, Mul(Block(m, 0, 0, m.rows, a.rows), Transpose(a))),
                  0, a.rows, Block(m, 0, 0, m.rows, m.cols - a.rows))
  {
    var columns := Block(m, 0, 0, m.rows, a.rows);
    MulTransposed(m, AugmentedTransition(a, m.cols));
    TransitionShifts(a, Transpose(m));
    MulTransposed(columns, a);
    Extensional(Block(Transpose(m), 0, 0, a.rows, m.rows), Transpose(columns));
    Extensional(Mul(m, Transpose(AugmentedTransition(a, m.cols))),
                SetBlock(SetBlock(Zero(m.rows, m.cols), 0, 0, Mul(columns, Transpose(a))),
                         0, a.rows, Block(m, 0, 0, m.rows, m.cols - a.rows)));
  }

  /** The blocks of the product a_ex p that the new covariance is read from. */
  lemma ShiftedRows(p: Matrix, a: Matrix)
    requires Square(p) && Square(a) && a.rows <= p.rows
    ensures var n, rest := a.rows, p.rows - a.rows;
            var ap := Mul(AugmentedTransition(a, p.rows), p);
            && Block(ap, 0, 0, n, n) == Mul(a, Block(p, 0, 0, n, n))
            && Block(ap, n, 0, rest, n) == Block(p, 0, 0, rest, n)
            && Block(ap, 0, 0, n, rest) == Mul(a, Block(p, 0, 0, n, rest))
            && Block(ap, n, 0, rest, rest) == Block(p, 0, 0, rest, rest)
  {
    hide At, Add, Block, SetBlock, Mul;
    var n, rest := a.rows, p.rows - a.rows;
    var top := Block(p, 0, 0, n, p.rows);
    TransitionShifts(a, p);
    WholeBlock(a);
    BlockOfProduct(a, top, 0, 0, n, n);
    BlockOfProduct(a, top, 0, 0, n, rest);
    NestedBlock(p, 0, 0, n, p.rows, 0, 0, n, n);
    NestedBlock(p, 0, 0, n, p.rows, 0, 0, n, rest);
    BlocksOfStack(Mul(a, top), Block(p, 0, 0, rest, p.rows), n);
    BlocksOfStack(Mul(a, top), Block(p, 0, 0, rest, p.rows), rest);
    NestedBlock(p, 0, 0, rest, p.rows, 0, 0, rest, n);
    NestedBlock(p, 0, 0, rest, p.rows, 0, 0, rest, rest);
  }

  /** The leading w columns of two stacked blocks. */
  lemma BlocksOfStack(top: Matrix, bottom: Matrix, w: nat)
    requires top.cols == bottom.cols && w <= top.cols
    ensures var total := top.rows + bottom.rows;
            var m := SetBlock(SetBlock(Zero(total, top.cols), 0, 0, top), top.rows, 0, bottom);
            && Block(m, 0, 0, top.rows, w) == Block(top, 0, 0, top.rows, w)
            && Block(m, top.rows, 0, bottom.rows, w) == Block(bottom, 0, 0, bottom.rows, w)
  {
    var total := top.rows + bottom.rows;
    var m := SetBlock(SetBlock(Zero(total, top.cols), 0, 0, top), top.rows, 0, bottom);
    Extensional(Block(m, 0, 0, top.rows, w), Block(top, 0, 0, top.rows, w));
    Extensional(Block(m, top.rows, 0, bottom.rows, w), Block(bottom, 0, 0, bottom.rows, w));
  }

  /** The block shift computes exactly a_ex p a_ex' + q_ex, for every number of blocks. */
  lemma ShiftIsDensePrediction(p: Matrix, a: Matrix, q: Matrix)
    requires Square(p) && Square(a) && Square(q) && a.rows == q.rows <= p.rows
    ensures ShiftedCovariance(p, a, q)
      == Add(Congruence(AugmentedTransition(a, p.rows), p), AugmentedNoise(q, p.rows))
  {
    var n, rest := a.rows, p.rows - a.rows;
    var ap := Mul(AugmentedTransition(a, p.rows), p);
    var columns := Block(ap, 0, 0, p.rows, n);
    TransitionShiftsColumns(a, ap);
    ShiftedRows(p, a);
    WholeBlock(Transpose(a));
    BlockOfProduct(columns, Transpose(a), 0, 0, n, n);
    BlockOfProduct(columns, Transpose(a), n, 0, rest, n);
    NestedBlock(ap, 0, 0, p.rows, n, 0, 0, n, n);
    NestedBlock(ap, 0, 0, p.rows, n, n, 0, rest, n);
    var dense := Add(Congruence(AugmentedTransition(a, p.rows), p), AugmentedNoise(q, p.rows));
    DenseBlocks(ap, Mul(columns, Transpose(a)), q);
    ShiftedBlocks(p, a, q);
    EqualByBlocks(ShiftedCovariance(p, a, q), dense, n);
  }

  /** The four blocks of the shifted covariance. */
  lemma ShiftedBlocks(p: Matrix, a: Matrix, q: Matrix)
    requires Square(p) && Square(a) && Square(q) && a.rows == q.rows <= p.rows
    ensures var n, rest, s := a.rows, p.rows - a.rows, ShiftedCovariance(p, a, q);
            && Block(s, 0, 0, n, n) == Add(Mul(Mul(a, Block(p, 0, 0, n, n)), Transpose(a)), q)
            && Block(s, 0, n, n, rest) == Mul(a, Block(p, 0, 0, n, rest))
            && Block(s, n, 0, rest, n) == Mul(Block(p, 0, 0, rest, n), Transpose(a))
            && Block(s, n, n, rest, rest) == Block(p, 0, 0, rest, rest)
  {
    hide At, Add, Block, SetBlock, Mul, Zero;
    var n, rest := a.rows, p.rows - a.rows;
    var b00, b0r := Add(Mul(Mul(a, Block(p, 0, 0, n, n)), Transpose(a)), q), Mul(a, Block(p, 0, 0, n, rest));
    var br0, brr := Mul(Block(p, 0, 0, rest, n), Transpose(a)), Block(p, 0, 0, rest, rest);
    var zero := Zero(p.rows, p.rows);
    var top := SetBlock(zero, 0, 0, b00);
    var right := SetBlock(top, 0, n, b0r);
    var left := SetBlock(right, n, 0, br0);
    SetBlockReads(zero, 0, 0, b00, 0, 0, 0, 0);
    SetBlockReads(top, 0, n, b0r, 0, 0, n, n);
    SetBlockReads(right, n, 0, br0, 0, 0, n, n);
    SetBlockReads(right, n, 0, br0, 0, n, n, rest);
    SetBlockReads(left, n, n, brr, 0, 0, n, n);
    SetBlockReads(left, n, n, brr, 0, n, n, rest);
    SetBlockReads(left, n, n, brr, n, 0, rest, n);
  }

  /** The four blocks of a matrix whose newest columns are given and whose other columns are those of ap, plus q. */
  lemma DenseBlocks(ap: Matrix, newest: Matrix, q: Matrix)
    requires Square(ap) && Square(q) && q.rows <= ap.rows && newest.rows == ap.rows && newest.cols == q.rows
    ensures var n, total, rest := q.rows, ap.rows, ap.rows - q.rows;
            var d := Add(SetBlock(SetBlock(Zero(total, total), 0, 0, newest), 0, n, Block(ap, 0, 0, total, rest)),
                         AugmentedNoise(q, total));
            && Block(d, 0, 0, n, n) == Add(Block(newest, 0, 0, n, n), q)
            && Block(d, 0, n, n, rest) == Block(ap, 0, 0, n, rest)
            && Block(d, n, 0, rest, n) == Block(newest, n, 0, rest, n)
            && Block(d, n, n, rest, rest) == Block(ap, n, 0, rest, rest)
  {
    hide At, Add, Block, SetBlock, Zero;
    var n, total, rest := q.rows, ap.rows, ap.rows - q.rows;
    var d := Add(SetBlock(SetBlock(Zero(total, total), 0, 0, newest), 0, n, Block(ap, 0, 0, total, rest)),
                 AugmentedNoise(q, total));
    Extensional(Block(d, 0, 0, n, n), Add(Block(newest, 0, 0, n, n), q));
    Extensional(Block(d, 0, n, n, rest), Block(ap, 0, 0, n, rest));
    Extensional(Block(d, n, 0, rest, n), Block(newest, n, 0, rest, n));
    Extensional(Block(d, n, n, rest, rest), Block(ap, n, 0, rest, rest));
  }

  /** The shifted vector is a_ex x plus whatever x_next differs from a x, on the newest block only. */
  lemma ShiftedStateIsAugmented(x: Matrix, xNext: Matrix, a: Matrix)
    requires x.cols == xNext.cols == 1 && Square(a) && a.rows == xNext.rows <= x.rows
    ensures ShiftedState(x, xNext)
      == Add(Mul(AugmentedTransition(a, x.rows), x),
             SetBlock(Zero(x.rows, 1), 0, 0, Sub(xNext, Mul(a, Block(x, 0, 0, a.rows, 1)))))
  {
    TransitionShifts(a, x);
    Extensional(ShiftedState(x, xNext),
                Add(Mul(AugmentedTransition(a, x.rows), x),
                    SetBlock(Zero(x.rows, 1), 0, 0, Sub(xNext, Mul(a, Block(x, 0, 0, a.rows, 1))))));
  }

  // ----- Correction refines the dense correction -----

  /** Multiplying by the augmented measurement matrix selects the delayed block of rows. */
  lemma MeasurementSelects(c: Matrix, start: nat, m: Matrix)
    requires start + c.cols <= m.rows
    ensures Mul(AugmentedMeasurement(c, start, m.rows), m) == Mul(c, Block(m, start, 0, c.cols, m.cols))
  {
    var cEx, rows := AugmentedMeasurement(c, start, m.rows), Block(m, start, 0, c.cols, m.cols);
    forall i, j | 0 <= i < c.rows && 0 <= j < m.cols
      ensures At(Mul(cEx, m), i, j) == At(Mul(c, rows), i, j)
    {
      WindowProduct(cEx, c, start, m, i, j);
    }
    Extensional(Mul(cEx, m), Mul(c, rows));
  }

  /** The covariance between every state and the measurement needs only the delayed block of columns. */
  lemma MeasurementSelectsColumns(p: Matrix, c: Matrix, start: nat)
    requires start + c.cols <= p.cols
    ensures Mul(p, Transpose(AugmentedMeasurement(c, start, p.cols)))
         == Mul(Block(p, 0, start, p.rows, c.cols), Transpose(c))
  {
    var columns := Block(p, 0, start, p.rows, c.cols);
    MulTransposed(p, AugmentedMeasurement(c, start, p.cols));
    MeasurementSelects(c, start, Transpose(p));
    Extensional(Block(Transpose(p), start, 0, c.cols, p.rows), Transpose(columns));
    MulTransposed(columns, c);
  }

  /** The innovation covariance needs only the diagonal block of the delayed state. */
  lemma InnovationSelects(p: Matrix, c: Matrix, r: Matrix, start: nat)
    requires Square(p) && start + c.cols <= p.rows && Square(r) && r.rows == c.rows
    ensures InnovationCovariance(p, AugmentedMeasurement(c, start, p.rows), r)
         == Add(r, Mul(Mul(c, Block(p, start, start, c.cols, c.cols)), Transpose(c)))
  {
    var n := c.cols;
    var columns, diagonal := Block(p, 0, start, p.rows, n), Block(p, start, start, n, n);
    MeasurementSelectsColumns(p, c, start);
    MeasurementSelects(c, start, Mul(columns, Transpose(c)));
    BlockOfProduct(columns, Transpose(c), start, 0, n, c.rows);
    NestedBlock(p, 0, start, p.rows, n, start, 0, n, n);
    WholeBlock(Transpose(c));
    MulAssoc(c, diagonal, Transpose(c));
  }

  /** On symmetric matrices the block correction is the dense correction with the augmented measurement matrix. */
  lemma DelayedIsDenseCorrection(e: Estimate, y: Matrix, c: Matrix, r: Matrix, start: nat, solve: LltSolver)
    requires Shaped(e) && start + c.cols <= e.x.rows && Symmetric(e.p) && Symmetric(r)
    requires y.rows == c.rows == r.rows && y.cols == 1 && IsLltSolver(solve)
    ensures var cEx := AugmentedMeasurement(c, start, e.x.rows);
            DelayedCorrected(e, c.cols, y, c, r, start, solve) == Corrected(e, y, Mul(cEx, e.x), cEx, r, solve)
  {
    var cEx := AugmentedMeasurement(c, start, e.x.rows);
    MeasurementSelects(c, start, e.x);
    InnovationSelects(e.p, c, r, start);
    MeasurementSelectsColumns(e.p, c, start);
    SolvedGain(e.p, cEx, r, solve);
    match KalmanGain(e.p, cEx, r, solve) {
      case None =>
      case Some(k) => GainIdentities(k, e.p, cEx, r);
    }
  }

  // ----- Covariances of the augmented model -----

  /** The total x n matrix that places a state at row start of the stack. */
  function Placement(n: nat, start: nat, total: nat): (m: Matrix)
    requires start + n <= total
    ensures m.rows == total && m.cols == n
  {
    SetBlock(Zero(total, n), start, 0, Identity(n))
  }

  lemma PlacementPlaces(start: nat, total: nat, m: Matrix)
    requires start + m.rows <= total
    ensures Mul(Placement(m.rows, start, total), m) == SetBlock(Zero(total, m.cols), start, 0, m)
  {
    var e := Placement(m.rows, start, total);
    forall i, j | 0 <= i < total && 0 <= j < m.cols
      ensures At(Mul(e, m), i, j) == At(SetBlock(Zero(total, m.cols), start, 0, m), i, j)
    {
      if start <= i < start + m.rows {
        SumPick(m.rows, i - start, Terms(e, m, i, j));
      } else {
        SumZero(m.rows, Terms(e, m, i, j));
      }
    }
    Extensional(Mul(e, m), SetBlock(Zero(total, m.cols), start, 0, m));
  }

  /** A covariance placed on the diagonal of a zero matrix is a covariance. */
  lemma PlacedCovariance(q: Matrix, start: nat, total: nat)
    requires IsCovariance(q) && start + q.rows <= total
    ensures IsCovariance(SetBlock(Zero(total, total), start, start, q))
  {
    var e := Placement(q.rows, start, total);
    CongruenceKeepsCovariance(e, q);
    PlacementPlaces(start, total, q);
    MulTransposed(Mul(e, q), e);
    PlacementPlaces(start, total, Transpose(Mul(e, q)));
    PlaceTwice(q, start, total);
  }

  /** Placing the rows and then the columns of q places q on the diagonal. */
  lemma PlaceTwice(q: Matrix, start: nat, total: nat)
    requires Square(q) && start + q.rows <= total
    ensures var rows := SetBlock(Zero(total, q.rows), start, 0, q);
            Transpose(SetBlock(Zero(total, total), start, 0, Transpose(rows))) == SetBlock(Zero(total, total), start, start, q)
  {
    var rows := SetBlock(Zero(total, q.rows), start, 0, q);
    Extensional(Transpose(SetBlock(Zero(total, total), start, 0, Transpose(rows))),
                SetBlock(Zero(total, total), start, start, q));
  }

  /** Selecting a block on the diagonal of a covariance leaves a covariance. */
  lemma DiagonalBlockCovariance(p: Matrix, start: nat, n: nat)
    requires IsCovariance(p) && start + n <= p.rows
    ensures IsCovariance(Block(p, start, start, n, n))
  {
    var pick := AugmentedMeasurement(Identity(n), start, p.rows);
    var diagonal, columns := Block(p, start, start, n, n), Block(p, 0, start, p.rows, n);
    MulAssoc(pick, p, Transpose(pick));
    MeasurementSelectsColumns(p, Identity(n), start);
    Extensional(Transpose(Identity(n)), Identity(n));
    MulIdentity(columns);
    MeasurementSelects(Identity(n), start, columns);
    MulIdentity(Block(columns, start, 0, n, n));
    NestedBlock(p, 0, start, p.rows, n, start, 0, n, n);
    CongruenceKeepsCovariance(pick, p);
  }
}

/**
 * Runs of the time-delay Kalman filter: the object with its in-place operations, and what holds after every sequence
 * of predictions and delayed corrections.
 */
module TimeDelayFilter {
  import opened Wrappers
  import opened Matrices
  import opened Covariance
  import opened KalmanFilters
  import opened AugmentedModel
  import DefiniteSystems

  // ----- Initialisation -----

  /** count copies of x0 on top of each other, then zeros. */
  function StackedState(x0: Matrix, count: nat, total: nat): (m: Matrix)
    requires x0.cols == 1 && count * x0.rows <= total
    ensures m.rows == total && m.cols == 1
  {
    if count == 0 then Zero(total, 1)
    else
      assert (count - 1) * x0.rows + x0.rows == count * x0.rows;
      SetBlock(StackedState(x0, count - 1, total), (count - 1) * x0.rows, 0, x0)
  }

  /** count copies of p0 down the diagonal, zeros elsewhere. */
  function BlockDiagonal(p0: Matrix, count: nat, total: nat): (m: Matrix)
    requires Square(p0) && count * p0.rows <= total
    ensures m.rows == m.cols == total
  {
    if count == 0 then Zero(total, total)
    else
      assert (count - 1) * p0.rows + p0.rows == count * p0.rows;
      SetBlock(BlockDiagonal(p0, count - 1, total), (count - 1) * p0.rows, (count - 1) * p0.rows, p0)
  }

  function Initial(x0: Matrix, p0: Matrix, slots: nat): (e: Estimate)
    requires x0.cols == 1 && Square(p0) && p0.rows == x0.rows
    ensures Shaped(e) && e.x.rows == slots * x0.rows
  {
    Estimate(StackedState(x0, slots, slots * x0.rows), BlockDiagonal(p0, slots, slots * x0.rows))
  }

  /** Block b of the stack starts at row b * n and ends before block b + 1. */
  lemma SlotFits(n: nat, b: nat, slots: nat)
    requires b < slots
    ensures 0 <= b * n && b * n + n == (b + 1) * n <= slots * n
  {
    var after := slots - b - 1;
    assert after * n >= 0;
    assert slots * n == (b + 1 + after) * n == (b + 1) * n + after * n;
  }

  lemma {:induction false} BlockDiagonalOutside(p0: Matrix, count: nat, total: nat)
    requires Square(p0) && count * p0.rows <= total
    ensures forall i, j :: i >= count * p0.rows || j >= count * p0.rows ==> At(BlockDiagonal(p0, count, total), i, j) == 0.0
  {
    if count == 0 {
    } else {
      assert (count - 1) * p0.rows + p0.rows == count * p0.rows;
      BlockDiagonalOutside(p0, count - 1, total);
    }
  }

  /** After init every slot holds x0 with covariance p0, and different slots are uncorrelated. */
  lemma {:induction false} InitialSlots(x0: Matrix, p0: Matrix, count: nat, total: nat, b: nat, b': nat)
    requires x0.cols == 1 && Square(p0) && p0.rows == x0.rows && count * x0.rows <= total
    requires b < count && b' < count
    ensures b * x0.rows + x0.rows <= total && b' * x0.rows + x0.rows <= total
    ensures Block(StackedState(x0, count, total), b * x0.rows, 0, x0.rows, 1) == x0
    ensures Block(BlockDiagonal(p0, count, total), b * x0.rows, b' * x0.rows, x0.rows, x0.rows)
         == if b == b' then p0 else Zero(x0.rows, x0.rows)
  {
    var n, last := x0.rows, count - 1;
    SlotFits(n, b, count);
    SlotFits(n, b', count);
    SlotFits(n, last, count);
    var xs, ps := StackedState(x0, last, total), BlockDiagonal(p0, last, total);
    SetBlockReads(xs, last * n, 0, x0, b * n, 0, n, 1);
    SetBlockReads(ps, last * n, last * n, p0, b * n, b' * n, n, n);
    if b < last {
      SlotFits(n, b, last);
      InitialSlots(x0, p0, last, total, b, if b' < last then b' else b);
    }
    if b' < last {
      SlotFits(n, b', last);
    }
    if b != b' && (b == last || b' == last) {
      BlockDiagonalOutside(p0, last, total);
      Extensional(Block(ps, b * n, b' * n, n, n), Zero(n, n));
    }
  }

  lemma {:induction false} BlockDiagonalCovariance(p0: Matrix, count: nat, total: nat)
    requires IsCovariance(p0) && count * p0.rows <= total
    ensures IsCovariance(BlockDiagonal(p0, count, total))
  {
    if count == 0 {
      ZeroIsCovariance(total);
    } else {
      var n, start := p0.rows, (count - 1) * p0.rows;
      assert start + n == count * n;
      BlockDiagonalCovariance(p0, count - 1, total);
      BlockDiagonalOutside(p0, count - 1, total);
      PlacedCovariance(p0, start, total);
      AddKeepsCovariance(BlockDiagonal(p0, count - 1, total), SetBlock(Zero(total, total), start, start, p0));
      Extensional(BlockDiagonal(p0, count, total),
                  Add(BlockDiagonal(p0, count - 1, total), SetBlock(Zero(total, total), start, start, p0)));
    }
  }

  // ----- One step -----

  datatype Command =
    | Predict(xNext: Matrix, a: Matrix, q: Matrix)
    | Correct(y: Matrix, c: Matrix, r: Matrix, delayStep: int)

  /** The dimensions a caller owes: prediction matrices of the size of one state. Corrections are checked on entry. */
  predicate Fits(cmd: Command, n: nat) {
    cmd.Predict? ==> cmd.xNext.rows == n && cmd.xNext.cols == 1 && Square(cmd.a) && Square(cmd.q) && cmd.a.rows == cmd.q.rows == n
  }

  /** The noise matrices are covariances. */
  ghost predicate ProperNoise(cmd: Command) {
    match cmd
    case Predict(_, _, q) => IsCovariance(q)
    case Correct(_, _, r, _) => Square(r) ==> IsCovariance(r)
  }

  predicate CorrectionAccepted(n: nat, slots: nat, y: Matrix, c: Matrix, r: Matrix, delayStep: int) {
    0 <= delayStep < slots && c.cols == n && y.rows == c.rows && y.cols == 1 && r.rows == r.cols == c.rows
  }

  /** The decomposition of the innovation covariance of the delayed block succeeds. */
  predicate DelayedCorrects(e: Estimate, y: Matrix, c: Matrix, r: Matrix, delayStep: int, solve: LltSolver)
    requires Shaped(e) && y.rows == c.rows == r.rows == r.cols && y.cols == 1 && IsLltSolver(solve)
  {
    0 <= delayStep * c.cols && delayStep * c.cols + c.cols <= e.x.rows
    && DelayedCorrected(e, c.cols, y, c, r, delayStep * c.cols, solve).Some?
  }

  predicate StackOf(e: Estimate, n: nat, slots: nat) {
    Shaped(e) && slots >= 1 && e.x.rows == slots * n
  }

  /** One command, carried out by the block operations. */
  function Step(e: Estimate, n: nat, slots: nat, cmd: Command, solve: LltSolver): (u: Estimate)
    requires StackOf(e, n, slots) && Fits(cmd, n) && IsLltSolver(solve)
    ensures StackOf(u, n, slots)
  {
    SlotFits(n, 0, slots);
    match cmd
    case Predict(xNext, a, q) => Estimate(ShiftedState(e.x, xNext), ShiftedCovariance(e.p, a, q))
    case Correct(y, c, r, delayStep) =>
      if CorrectionAccepted(n, slots, y, c, r, delayStep) then
        SlotFits(n, delayStep, slots);
        var u := DelayedCorrected(e, n, y, c, r, delayStep * n, solve);
        if u.Some? then u.value else e
      else e
  }

  /** The same command, carried out by the dense filter on the augmented matrices. */
  function DenseStep(e: Estimate, n: nat, slots: nat, cmd: Command, solve: LltSolver): (u: Estimate)
    requires StackOf(e, n, slots) && Fits(cmd, n) && IsLltSolver(solve)
    ensures StackOf(u, n, slots)
  {
    SlotFits(n, 0, slots);
    match cmd
    case Predict(xNext, a, q) =>
      Predicted(e, ShiftedState(e.x, xNext), AugmentedTransition(a, slots * n), AugmentedNoise(q, slots * n))
    case Correct(y, c, r, delayStep) =>
      if CorrectionAccepted(n, slots, y, c, r, delayStep) then
        SlotFits(n, delayStep, slots);
        var cEx := AugmentedMeasurement(c, delayStep * n, slots * n);
        var u := Corrected(e, y, Mul(cEx, e.x), cEx, r, solve);
        if u.Some? then u.value else e
      else e
  }

  /** Prediction is dense prediction whatever the covariance. */
  lemma PredictionIsDense(e: Estimate, n: nat, slots: nat, cmd: Command, solve: LltSolver)
    requires StackOf(e, n, slots) && Fits(cmd, n) && IsLltSolver(solve) && cmd.Predict?
    ensures Step(e, n, slots, cmd, solve) == DenseStep(e, n, slots, cmd, solve)
  {
    SlotFits(n, 0, slots);
    ShiftIsDensePrediction(e.p, cmd.a, cmd.q);
  }

  lemma StepIsDense(e: Estimate, n: nat, slots: nat, cmd: Command, solve: LltSolver)
    requires StackOf(e, n, slots) && Fits(cmd, n) && IsLltSolver(solve)
    requires IsCovariance(e.p) && ProperNoise(cmd)
    ensures Step(e, n, slots, cmd, solve) == DenseStep(e, n, slots, cmd, solve)
  {
    match cmd {
      case Predict(_, _, _) => PredictionIsDense(e, n, slots, cmd, solve);
      case Correct(y, c, r, delayStep) =>
        if CorrectionAccepted(n, slots, y, c, r, delayStep) {
          SlotFits(n, delayStep, slots);
          DelayedIsDenseCorrection(e, y, c, r, delayStep * n, solve);
        }
    }
  }

  lemma StepKeepsCovariance(e: Estimate, n: nat, slots: nat, cmd: Command, solve: LltSolver)
    requires StackOf(e, n, slots) && Fits(cmd, n) && IsLltSolver(solve)
    requires IsCovariance(e.p) && ProperNoise(cmd)
    ensures IsCovariance(Step(e, n, slots, cmd, solve).p)
    ensures cmd.Correct? ==> PositiveSemidefinite(Sub(e.p, Step(e, n, slots, cmd, solve).p))
  {
    StepIsDense(e, n, slots, cmd, solve);
    SlotFits(n, 0, slots);
    match cmd {
      case Predict(_, a, q) =>
        CongruenceKeepsCovariance(AugmentedTransition(a, slots * n), e.p);
        PlacedCovariance(q, 0, slots * n);
        AddKeepsCovariance(Congruence(AugmentedTransition(a, slots * n), e.p), AugmentedNoise(q, slots * n));
      case Correct(y, c, r, delayStep) =>
        CorrectionShrinks(e, n, slots, y, c, r, delayStep, solve);
    }
  }

  /** A correction, delayed or rejected, never enlarges the covariance; definite noise is never rejected. */
  lemma CorrectionShrinks(e: Estimate, n: nat, slots: nat, y: Matrix, c: Matrix, r: Matrix, delayStep: int, solve: LltSolver)
    requires StackOf(e, n, slots) && IsLltSolver(solve) && IsCovariance(e.p) && (Square(r) ==> IsCovariance(r))
    ensures var u := DenseStep(e, n, slots, Correct(y, c, r, delayStep), solve);
            IsCovariance(u.p) && PositiveSemidefinite(Sub(e.p, u.p))
    ensures CorrectionAccepted(n, slots, y, c, r, delayStep) && PositiveDefinite(r) ==>
              DelayedCorrects(e, y, c, r, delayStep, solve)
  {
    hide At, Add, Sub, Mul, Zero, Block;
    ZeroIsCovariance(e.p.rows);
    Extensional(Sub(e.p, e.p), Zero(e.p.rows, e.p.rows));
    if CorrectionAccepted(n, slots, y, c, r, delayStep) {
      SlotFits(n, delayStep, slots);
      var cEx := AugmentedMeasurement(c, delayStep * n, slots * n);
      CorrectedIsOptimal(e, y, Mul(cEx, e.x), cEx, r, solve, Zero(e.p.rows, c.rows));
      DelayedIsDenseCorrection(e, y, c, r, delayStep * n, solve);
    }
  }

  // ----- Whole runs -----

  function Run(e: Estimate, n: nat, slots: nat, cmds: seq<Command>, solve: LltSolver): (u: Estimate)
    requires StackOf(e, n, slots) && (forall cmd :: cmd in cmds ==> Fits(cmd, n)) && IsLltSolver(solve)
    ensures StackOf(u, n, slots)
    decreases |cmds|
  {
    if cmds == [] then e else Run(Step(e, n, slots, cmds[0], solve), n, slots, cmds[1..], solve)
  }

  function DenseRun(e: Estimate, n: nat, slots: nat, cmds: seq<Command>, solve: LltSolver): (u: Estimate)
    requires StackOf(e, n, slots) && (forall cmd :: cmd in cmds ==> Fits(cmd, n)) && IsLltSolver(solve)
    ensures StackOf(u, n, slots)
    decreases |cmds|
  {
    if cmds == [] then e else DenseRun(DenseStep(e, n, slots, cmds[0], solve), n, slots, cmds[1..], solve)
  }

  lemma {:induction false} RunOneMore(e: Estimate, n: nat, slots: nat, cmds: seq<Command>, cmd: Command, solve: LltSolver)
    requires StackOf(e, n, slots) && IsLltSolver(solve)
    requires (forall c :: c in cmds ==> Fits(c, n)) && Fits(cmd, n)
    ensures Run(e, n, slots, cmds + [cmd], solve) == Step(Run(e, n, slots, cmds, solve), n, slots, cmd, solve)
    decreases |cmds|
  {
    if cmds == [] {
    } else {
      assert (cmds + [cmd])[1..] == cmds[1..] + [cmd];
      RunOneMore(Step(e, n, slots, cmds[0], solve), n, slots, cmds[1..], cmd, solve);
    }
  }

  lemma {:induction false} RunFromCovariance(e: Estimate, n: nat, slots: nat, cmds: seq<Command>, solve: LltSolver)
    requires StackOf(e, n, slots) && IsLltSolver(solve) && IsCovariance(e.p)
    requires forall cmd :: cmd in cmds ==> Fits(cmd, n) && ProperNoise(cmd)
    ensures Run(e, n, slots, cmds, solve) == DenseRun(e, n, slots, cmds, solve)
    ensures IsCovariance(Run(e, n, slots, cmds, solve).p)
    decreases |cmds|
  {
    if cmds == [] {
    } else {
      StepIsDense(e, n, slots, cmds[0], solve);
      StepKeepsCovariance(e, n, slots, cmds[0], solve);
      RunFromCovariance(Step(e, n, slots, cmds[0], solve), n, slots, cmds[1..], solve);
    }
  }

  /**
   * After init and any sequence of predictions and delayed corrections the filter holds exactly what the dense filter
   * on the augmented model holds, and its covariance is symmetric positive semidefinite.
   */
  lemma RunIsDenseAndKeepsCovariance(x0: Matrix, p0: Matrix, slots: nat, cmds: seq<Command>, solve: LltSolver)
    requires x0.cols == 1 && p0.rows == x0.rows && IsCovariance(p0) && slots >= 1 && IsLltSolver(solve)
    requires forall cmd :: cmd in cmds ==> Fits(cmd, x0.rows) && ProperNoise(cmd)
    ensures Run(Initial(x0, p0, slots), x0.rows, slots, cmds, solve)
         == DenseRun(Initial(x0, p0, slots), x0.rows, slots, cmds, solve)
    ensures IsCovariance(Run(Initial(x0, p0, slots), x0.rows, slots, cmds, solve).p)
  {
    BlockDiagonalCovariance(p0, slots, slots * x0.rows);
    RunFromCovariance(Initial(x0, p0, slots), x0.rows, slots, cmds, solve);
  }

  // ----- Which prediction a slot holds -----

  /** The state in slot b of the stacked vector. */
  function StateSlot(x: Matrix, n: nat, b: nat): (m: Matrix)
    ensures m.rows == n && m.cols == 1
  {
    Tabulate(n, 1, (i, j) => At(x, b * n + i, 0))
  }

  /** The covariance between the states in slots b and b'. */
  function CovarianceSlot(p: Matrix, n: nat, b: nat, b': nat): (m: Matrix)
    ensures m.rows == m.cols == n
  {
    Tabulate(n, n, (i, j) => At(p, b * n + i, b' * n + j))
  }

  lemma NewestState(x: Matrix, n: nat)
    requires n <= x.rows && x.cols == 1
    ensures Block(x, 0, 0, n, 1) == StateSlot(x, n, 0)
  {
    Extensional(Block(x, 0, 0, n, 1), StateSlot(x, n, 0));
  }

  lemma NewestCovariance(p: Matrix, n: nat)
    requires Square(p) && n <= p.rows
    ensures Block(p, 0, 0, n, n) == CovarianceSlot(p, n, 0, 0)
  {
    Extensional(Block(p, 0, 0, n, n), CovarianceSlot(p, n, 0, 0));
  }

  /** A prediction puts xNext in slot 0 and moves every other slot down by one. */
  lemma ShiftMovesState(x: Matrix, xNext: Matrix, slots: nat, b: nat)
    requires x.cols == xNext.cols == 1 && x.rows == slots * xNext.rows && b < slots
    ensures xNext.rows <= x.rows
    ensures StateSlot(ShiftedState(x, xNext), xNext.rows, b) == if b == 0 then xNext else StateSlot(x, xNext.rows, b - 1)
  {
    var n := xNext.rows;
    SlotFits(n, 0, slots);
    SlotFits(n, b, slots);
    var moved := StateSlot(ShiftedState(x, xNext), n, b);
    if b == 0 {
      Extensional(moved, xNext);
    } else {
      assert (b - 1) * n + n == b * n && (b - 1) * n >= 0;
      Extensional(moved, StateSlot(x, n, b - 1));
    }
  }

  lemma PredictMoves(e: Estimate, n: nat, slots: nat, cmd: Command, solve: LltSolver, b: nat)
    requires StackOf(e, n, slots) && Fits(cmd, n) && IsLltSolver(solve) && cmd.Predict? && b < slots
    ensures StateSlot(Step(e, n, slots, cmd, solve).x, n, b) == if b == 0 then cmd.xNext else StateSlot(e.x, n, b - 1)
  {
    ShiftMovesState(e.x, cmd.xNext, slots, b);
  }

  /** A slot is a block of the stack. */
  lemma SlotsAreBlocks(e: Estimate, n: nat, slots: nat, b: nat, d: nat)
    requires StackOf(e, n, slots) && b < slots && d < slots
    ensures 0 <= b * n && b * n + n <= e.x.rows && 0 <= d * n && d * n + n <= e.x.rows
    ensures StateSlot(e.x, n, b) == Block(e.x, b * n, 0, n, 1)
    ensures CovarianceSlot(e.p, n, b, d) == Block(e.p, b * n, d * n, n, n)
  {
    SlotFits(n, b, slots);
    SlotFits(n, d, slots);
    Extensional(StateSlot(e.x, n, b), Block(e.x, b * n, 0, n, 1));
    Extensional(CovarianceSlot(e.p, n, b, d), Block(e.p, b * n, d * n, n, n));
  }

  // ----- What a correction does to each slot -----

  /** The gain k of the state in slot b from a measurement of slot d: k s == p_bd c', with s the innovation covariance. */
  function SlotGain(p: Matrix, n: nat, c: Matrix, r: Matrix, d: nat, b: nat, solve: LltSolver): (k: Option<Matrix>)
    requires c.cols == n && Square(r) && r.rows == c.rows && IsLltSolver(solve)
    ensures k.Some? ==> k.value.rows == n && k.value.cols == c.rows
  {
    match solve(InnovationCovariance(CovarianceSlot(p, n, d, d), c, r), Transpose(Mul(CovarianceSlot(p, n, b, d), Transpose(c))))
    case None => None
    case Some(kt) => Some(Transpose(kt))
  }

  /** What a command adds to the state in slot b: gain times innovation, or nothing. */
  function Learned(e: Estimate, n: nat, slots: nat, cmd: Command, solve: LltSolver, b: nat): (x: Matrix)
    requires StackOf(e, n, slots) && IsLltSolver(solve)
    ensures x.rows == n && x.cols == 1
  {
    match cmd
    case Predict(_, _, _) => Zero(n, 1)
    case Correct(y, c, r, delayStep) =>
      if CorrectionAccepted(n, slots, y, c, r, delayStep) then
        match SlotGain(e.p, n, c, r, delayStep, b, solve)
        case None => Zero(n, 1)
        case Some(k) => Mul(k, Sub(y, Mul(c, StateSlot(e.x, n, delayStep))))
      else Zero(n, 1)
  }

  /** What a command takes off the covariance between the states in slots b and b'. */
  function Resolved(e: Estimate, n: nat, slots: nat, cmd: Command, solve: LltSolver, b: nat, b': nat): (p: Matrix)
    requires StackOf(e, n, slots) && IsLltSolver(solve)
    ensures p.rows == p.cols == n
  {
    match cmd
    case Predict(_, _, _) => Zero(n, n)
    case Correct(y, c, r, delayStep) =>
      if CorrectionAccepted(n, slots, y, c, r, delayStep) then
        match SlotGain(e.p, n, c, r, delayStep, b', solve)
        case None => Zero(n, n)
        case Some(k) => Mul(Mul(CovarianceSlot(e.p, n, b, delayStep), Transpose(c)), Transpose(k))
      else Zero(n, n)
  }

  /** The gain of the whole stack, block by block. */
  lemma GainOfSlot(e: Estimate, n: nat, slots: nat, y: Matrix, c: Matrix, r: Matrix, d: nat, b: nat, solve: LltSolver)
    requires StackOf(e, n, slots) && IsLltSolver(solve) && CorrectionAccepted(n, slots, y, c, r, d) && b < slots
    requires IsCovariance(e.p) && IsCovariance(r)
    ensures 0 <= d * n && d * n + n <= e.x.rows && 0 <= b * n && b * n + n <= e.x.rows
    ensures var pct := Mul(Block(e.p, 0, d * n, e.p.rows, n), Transpose(c));
            var s := Add(r, Mul(Mul(c, Block(e.p, d * n, d * n, n, n)), Transpose(c)));
            var kt, k := solve(s, Transpose(pct)), SlotGain(e.p, n, c, r, d, b, solve);
            && (kt.Some? <==> k.Some?)
            && (kt.Some? ==>
                  && kt.value.rows == c.rows && kt.value.cols == e.x.rows
                  && k.value == Block(Transpose(kt.value), b * n, 0, n, c.rows))
            && Mul(CovarianceSlot(e.p, n, b, d), Transpose(c)) == Block(pct, b * n, 0, n, c.rows)
  {
    hide At, Block, Mul, Add, Transpose, StateSlot, CovarianceSlot, PositiveSemidefinite, IsLltSolver;
    var total, start, row := e.p.rows, d * n, b * n;
    SlotsAreBlocks(e, n, slots, d, d);
    SlotsAreBlocks(e, n, slots, b, d);
    var columns, pdd := Block(e.p, 0, start, total, n), Block(e.p, start, start, n, n);
    DiagonalBlockCovariance(e.p, start, n);
    InnovationSymmetric(pdd, c, r);
    var pct := Mul(columns, Transpose(c));
    BlockOfProduct(columns, Transpose(c), row, 0, n, c.rows);
    WholeBlock(Transpose(c));
    NestedBlock(e.p, 0, start, total, n, row, 0, n, n);
    TransposedBlock(pct, row, 0, n, c.rows);
    var s := InnovationCovariance(pdd, c, r);
    DefiniteSystems.SolvedColumns(s, Transpose(pct), row, n, solve);
    match solve(s, Transpose(pct)) {
      case None =>
      case Some(kt) => TransposedBlock(kt, 0, row, c.rows, n);
    }
  }

  lemma TransposedBlock(a: Matrix, row: nat, col: nat, rows: nat, cols: nat)
    requires row + rows <= a.rows && col + cols <= a.cols
    ensures Transpose(Block(a, row, col, rows, cols)) == Block(Transpose(a), col, row, cols, rows)
  {
    Extensional(Transpose(Block(a, row, col, rows, cols)), Block(Transpose(a), col, row, cols, rows));
  }

  /** What SlotGain solves: s k' == (p_bd c')'. */
  lemma SlotGainSolves(e: Estimate, n: nat, slots: nat, c: Matrix, r: Matrix, d: nat, b: nat, solve: LltSolver)
    requires StackOf(e, n, slots) && IsLltSolver(solve) && c.cols == n && d < slots && b < slots
    requires IsCovariance(e.p) && IsCovariance(r) && r.rows == c.rows
    requires SlotGain(e.p, n, c, r, d, b, solve).Some?
    ensures var s := InnovationCovariance(CovarianceSlot(e.p, n, d, d), c, r);
            var k := SlotGain(e.p, n, c, r, d, b, solve).value;
            Mul(s, Transpose(k)) == Transpose(Mul(CovarianceSlot(e.p, n, b, d), Transpose(c)))
  {
    hide At, Block, Mul, Transpose, StateSlot, CovarianceSlot, PositiveSemidefinite, PositiveDefinite;
    SlotsAreBlocks(e, n, slots, d, d);
    DiagonalBlockCovariance(e.p, d * n, n);
    var pdd := CovarianceSlot(e.p, n, d, d);
    InnovationSymmetric(pdd, c, r);
    TransposeTranspose(solve(InnovationCovariance(pdd, c, r), Transpose(Mul(CovarianceSlot(e.p, n, b, d), Transpose(c)))).value);
  }

  /**
   * A correction adds to the state in every slot the gain of that slot times the innovation, and takes the matching
   * product off every block of the covariance; a rejected one does nothing.
   */
  lemma CorrectAdds(e: Estimate, n: nat, slots: nat, cmd: Command, solve: LltSolver, b: nat, b': nat)
    requires StackOf(e, n, slots) && IsLltSolver(solve) && cmd.Correct? && b < slots && b' < slots
    requires IsCovariance(e.p) && ProperNoise(cmd)
    ensures StateSlot(Step(e, n, slots, cmd, solve).x, n, b)
         == Add(StateSlot(e.x, n, b), Learned(e, n, slots, cmd, solve, b))
    ensures CovarianceSlot(Step(e, n, slots, cmd, solve).p, n, b, b')
         == Sub(CovarianceSlot(e.p, n, b, b'), Resolved(e, n, slots, cmd, solve, b, b'))
  {
    hide At, Block, Mul, Add, Sub, Transpose, StateSlot, CovarianceSlot, PositiveSemidefinite, IsLltSolver, SlotGain;
    var u := Step(e, n, slots, cmd, solve);
    NothingAdded(StateSlot(e.x, n, b));
    NothingAdded(CovarianceSlot(e.p, n, b, b'));
    if CorrectionAccepted(n, slots, cmd.y, cmd.c, cmd.r, cmd.delayStep) {
      GainOfSlot(e, n, slots, cmd.y, cmd.c, cmd.r, cmd.delayStep, b, solve);
      GainOfSlot(e, n, slots, cmd.y, cmd.c, cmd.r, cmd.delayStep, b', solve);
      SlotsAreBlocks(e, n, slots, cmd.delayStep, cmd.delayStep);
      SlotsAreBlocks(e, n, slots, b, b');
      SlotsAreBlocks(u, n, slots, b, b');
      var start := cmd.delayStep * n;
      var innovation := Sub(cmd.y, Mul(cmd.c, Block(e.x, start, 0, n, 1)));
      var pct := Mul(Block(e.p, 0, start, e.p.rows, n), Transpose(cmd.c));
      var s := Add(cmd.r, Mul(Mul(cmd.c, Block(e.p, start, start, n, n)), Transpose(cmd.c)));
      match solve(s, Transpose(pct)) {
        case None =>
        case Some(kt) => CorrectedBlocks(e, Transpose(kt), innovation, pct, b * n, b' * n, n);
      }
    }
  }

  /** The corrected estimate has in slot b the old state plus k times the innovation of slot d, with k s == p_bd c'. */
  ghost predicate SlotCorrected(before: Estimate, after: Estimate, n: nat, y: Matrix, c: Matrix, r: Matrix, d: nat, b: nat, k: Matrix)
    requires c.cols == n && y.rows == c.rows == r.rows == r.cols && y.cols == 1
  {
    && k.rows == n && k.cols == c.rows
    && Mul(Add(r, Mul(c, Mul(CovarianceSlot(before.p, n, d, d), Transpose(c)))), Transpose(k))
       == Transpose(Mul(CovarianceSlot(before.p, n, b, d), Transpose(c)))
    && StateSlot(after.x, n, b) == Add(StateSlot(before.x, n, b), Mul(k, Sub(y, Mul(c, StateSlot(before.x, n, d)))))
  }

  /**
   * With covariances, and noise that is definite, every measurement of fitting dimensions is carried out at every slot d:
   * slot b gains k times the innovation, with k s == p_bd c', and the covariance with any slot loses its part.
   */
  lemma CorrectionCarriedOut(e: Estimate, n: nat, slots: nat, y: Matrix, c: Matrix, r: Matrix, d: nat, b: nat, solve: LltSolver)
      returns (k: Matrix)
    requires StackOf(e, n, slots) && IsLltSolver(solve) && IsCovariance(e.p) && IsCovariance(r) && b < slots
    requires 0 <= d < slots && c.cols == n && y.rows == c.rows == r.rows == r.cols && y.cols == 1
    requires PositiveDefinite(r) || DelayedCorrects(e, y, c, r, d, solve)
    ensures DelayedCorrects(e, y, c, r, d, solve)
    ensures k.rows == n && k.cols == c.rows
    ensures Mul(Add(r, Mul(c, Mul(CovarianceSlot(e.p, n, d, d), Transpose(c)))), Transpose(k))
         == Transpose(Mul(CovarianceSlot(e.p, n, b, d), Transpose(c)))
    ensures StateSlot(Step(e, n, slots, Correct(y, c, r, d), solve).x, n, b)
         == Add(StateSlot(e.x, n, b), Mul(k, Sub(y, Mul(c, StateSlot(e.x, n, d)))))
    ensures forall b' :: 0 <= b' < slots ==>
              CovarianceSlot(Step(e, n, slots, Correct(y, c, r, d), solve).p, n, b', b)
              == Sub(CovarianceSlot(e.p, n, b', b), Mul(Mul(CovarianceSlot(e.p, n, b', d), Transpose(c)), Transpose(k)))
  {
    hide At, Block, Mul, Add, Sub, Transpose, StateSlot, CovarianceSlot, PositiveSemidefinite, PositiveDefinite, IsLltSolver;
    hide SlotGain, Step;
    var cmd := Correct(y, c, r, d);
    CorrectionShrinks(e, n, slots, y, c, r, d, solve);
    GainOfSlot(e, n, slots, y, c, r, d, b, solve);
    SlotGainSolves(e, n, slots, c, r, d, b, solve);
    k := SlotGain(e.p, n, c, r, d, b, solve).value;
    CorrectAdds(e, n, slots, cmd, solve, b, b);
    forall b' | 0 <= b' < slots
      ensures CovarianceSlot(Step(e, n, slots, cmd, solve).p, n, b', b)
           == Sub(CovarianceSlot(e.p, n, b', b), Mul(Mul(CovarianceSlot(e.p, n, b', d), Transpose(c)), Transpose(k)))
    {
      CorrectAdds(e, n, slots, cmd, solve, b', b);
    }
  }

  ghost predicate SlotLearned(before: Estimate, after: Estimate, n: nat, y: Matrix, c: Matrix, r: Matrix, d: nat, b: nat)
    requires c.cols == n && y.rows == c.rows == r.rows == r.cols && y.cols == 1
  {
    exists k: Matrix :: SlotCorrected(before, after, n, y, c, r, d, b, k)
  }

  ghost predicate EverySlotLearned(before: Estimate, after: Estimate, n: nat, slots: nat, y: Matrix, c: Matrix, r: Matrix, d: nat)
    requires c.cols == n && y.rows == c.rows == r.rows == r.cols && y.cols == 1
  {
    forall b :: 0 <= b < slots ==> SlotLearned(before, after, n, y, c, r, d, b)
  }

  lemma SlotsLearn(e: Estimate, n: nat, slots: nat, y: Matrix, c: Matrix, r: Matrix, d: nat, solve: LltSolver)
    requires StackOf(e, n, slots) && IsLltSolver(solve) && IsCovariance(e.p) && IsCovariance(r)
    requires 0 <= d < slots && c.cols == n && y.rows == c.rows == r.rows == r.cols && y.cols == 1
    requires PositiveDefinite(r) || DelayedCorrects(e, y, c, r, d, solve)
    ensures EverySlotLearned(e, Step(e, n, slots, Correct(y, c, r, d), solve), n, slots, y, c, r, d)
  {
    hide Step, IsLltSolver, IsCovariance, PositiveDefinite, DelayedCorrects;
    forall b | 0 <= b < slots
      ensures SlotLearned(e, Step(e, n, slots, Correct(y, c, r, d), solve), n, y, c, r, d, b)
    {
      var k := CorrectionCarriedOut(e, n, slots, y, c, r, d, b, solve);
      assert SlotCorrected(e, Step(e, n, slots, Correct(y, c, r, d), solve), n, y, c, r, d, b, k);
    }
  }

  /** When a correction is carried out, with every condition written out, and that every slot then learns from it. */
  lemma AcceptedExactly(e: Estimate, n: nat, slots: nat, y: Matrix, c: Matrix, r: Matrix, delayStep: int, solve: LltSolver)
    requires StackOf(e, n, slots) && IsLltSolver(solve)
    ensures CorrectionAccepted(n, slots, y, c, r, delayStep) ==>
              0 <= delayStep < slots && c.cols == n && y.rows == c.rows && y.cols == 1 && r.rows == r.cols == c.rows
    ensures IsCovariance(e.p) && IsCovariance(r) && PositiveDefinite(r)
            && 0 <= delayStep < slots && c.cols == n && y.rows == c.rows && y.cols == 1 && r.rows == r.cols == c.rows
            ==> CorrectionAccepted(n, slots, y, c, r, delayStep) && DelayedCorrects(e, y, c, r, delayStep, solve)
    ensures IsCovariance(e.p) && IsCovariance(r)
            && CorrectionAccepted(n, slots, y, c, r, delayStep) && DelayedCorrects(e, y, c, r, delayStep, solve)
            ==> EverySlotLearned(e, Step(e, n, slots, Correct(y, c, r, delayStep), solve), n, slots, y, c, r, delayStep)
  {
    hide Step, IsLltSolver, IsCovariance, PositiveDefinite, DelayedCorrects, EverySlotLearned;
    if IsCovariance(e.p) && IsCovariance(r)
       && 0 <= delayStep < slots && c.cols == n && y.rows == c.rows && y.cols == 1 && r.rows == r.cols == c.rows {
      if PositiveDefinite(r) {
        var _ := CorrectionCarriedOut(e, n, slots, y, c, r, delayStep, 0, solve);
      }
      if DelayedCorrects(e, y, c, r, delayStep, solve) {
        SlotsLearn(e, n, slots, y, c, r, delayStep, solve);
      }
    }
  }

  lemma NothingAdded(a: Matrix)
    ensures Add(a, Zero(a.rows, a.cols)) == a == Sub(a, Zero(a.rows, a.cols))
  {
    Extensional(Add(a, Zero(a.rows, a.cols)), a);
    Extensional(Sub(a, Zero(a.rows, a.cols)), a);
  }

  /** Adding k v to a state and taking pct k' off a covariance, seen at a block. */
  lemma CorrectedBlocks(e: Estimate, k: Matrix, v: Matrix, pct: Matrix, row: nat, col: nat, n: nat)
    requires Shaped(e) && row + n <= e.x.rows && col + n <= e.x.rows
    requires k.rows == pct.rows == e.x.rows && k.cols == pct.cols == v.rows && v.cols == 1
    ensures Block(Add(e.x, Mul(k, v)), row, 0, n, 1) == Add(Block(e.x, row, 0, n, 1), Mul(Block(k, row, 0, n, k.cols), v))
    ensures Block(Sub(e.p, Mul(pct, Transpose(k))), row, col, n, n)
         == Sub(Block(e.p, row, col, n, n), Mul(Block(pct, row, 0, n, k.cols), Transpose(Block(k, col, 0, n, k.cols))))
  {
    hide At, Block, Mul, Add, Sub, Transpose;
    BlockOfProduct(k, v, row, 0, n, 1);
    WholeBlock(v);
    BlockOfSum(e.x, Mul(k, v), row, 0, n, 1);
    BlockOfProduct(pct, Transpose(k), row, col, n, n);
    TransposedBlock(k, col, 0, n, k.cols);
    BlockOfSum(e.p, Mul(pct, Transpose(k)), row, col, n, n);
  }

  lemma BlockOfSum(a: Matrix, b: Matrix, row: nat, col: nat, rows: nat, cols: nat)
    requires a.rows == b.rows && a.cols == b.cols && row + rows <= a.rows && col + cols <= a.cols
    ensures Block(Add(a, b), row, col, rows, cols) == Add(Block(a, row, col, rows, cols), Block(b, row, col, rows, cols))
    ensures Block(Sub(a, b), row, col, rows, cols) == Sub(Block(a, row, col, rows, cols), Block(b, row, col, rows, cols))
  {
    Extensional(Block(Add(a, b), row, col, rows, cols), Add(Block(a, row, col, rows, cols), Block(b, row, col, rows, cols)));
    Extensional(Block(Sub(a, b), row, col, rows, cols), Sub(Block(a, row, col, rows, cols), Block(b, row, col, rows, cols)));
  }

  /** A prediction moves the covariance between two slots along with them. */
  lemma ShiftMovesCovariance(p: Matrix, a: Matrix, q: Matrix, slots: nat, b: nat, b': nat)
    requires Square(p) && Square(a) && Square(q) && a.rows == q.rows && p.rows == slots * a.rows
    requires 0 < b < slots && 0 < b' < slots
    ensures a.rows <= p.rows
    ensures CovarianceSlot(ShiftedCovariance(p, a, q), a.rows, b, b') == CovarianceSlot(p, a.rows, b - 1, b' - 1)
  {
    SlotFits(a.rows, 0, slots);
    ShiftedBlocks(p, a, q);
    MovedBlockMovesSlots(ShiftedCovariance(p, a, q), p, a.rows, slots, b, b');
  }

  lemma MovedBlockMovesSlots(s: Matrix, p: Matrix, n: nat, slots: nat, b: nat, b': nat)
    requires Square(p) && Square(s) && s.rows == p.rows == slots * n && n <= p.rows
    requires 0 < b < slots && 0 < b' < slots
    requires Block(s, n, n, p.rows - n, p.rows - n) == Block(p, 0, 0, p.rows - n, p.rows - n)
    ensures CovarianceSlot(s, n, b, b') == CovarianceSlot(p, n, b - 1, b' - 1)
  {
    hide At, Block;
    SlotFits(n, b, slots);
    SlotFits(n, b', slots);
    SlotFits(n, b - 1, slots);
    SlotFits(n, b' - 1, slots);
    var r, c, rest := (b - 1) * n, (b' - 1) * n, p.rows - n;
    forall i, j | 0 <= i < n && 0 <= j < n
      ensures At(CovarianceSlot(s, n, b, b'), i, j) == At(CovarianceSlot(p, n, b - 1, b' - 1), i, j)
    {
      assert At(Block(s, n, n, rest, rest), r + i, c + j) == At(Block(p, 0, 0, rest, rest), r + i, c + j);
    }
    Extensional(CovarianceSlot(s, n, b, b'), CovarianceSlot(p, n, b - 1, b' - 1));
  }

  /** How many of the commands are predictions. */
  function Predictions(cmds: seq<Command>): nat {
    if cmds == [] then 0
    else Predictions(cmds[..|cmds| - 1]) + if cmds[|cmds| - 1].Predict? then 1 else 0
  }

  /** The position of the prediction with just i predictions after it. */
  function PredictionOf(cmds: seq<Command>, i: nat): (m: nat)
    requires i < Predictions(cmds)
    ensures m < |cmds| && cmds[m].Predict?
  {
    var earlier, last := cmds[..|cmds| - 1], cmds[|cmds| - 1];
    if last.Predict? && i == 0 then |cmds| - 1
    else PredictionOf(earlier, if last.Predict? then i - 1 else i)
  }

  lemma {:induction false} PredictionsSince(cmds: seq<Command>, i: nat)
    requires i < Predictions(cmds)
    ensures Predictions(cmds[PredictionOf(cmds, i) + 1..]) == i
  {
    var earlier, last := cmds[..|cmds| - 1], cmds[|cmds| - 1];
    var m := PredictionOf(cmds, i);
    if last.Predict? && i == 0 {
      assert cmds[m + 1..] == [];
    } else {
      PredictionsSince(earlier, if last.Predict? then i - 1 else i);
      assert cmds[m + 1..] == earlier[m + 1..] + [last];
      assert (earlier[m + 1..] + [last])[..|earlier[m + 1..]|] == earlier[m + 1..];
    }
  }

  /**
   * What becomes of the state that the prediction with i predictions after it puts in: every correction since then
   * adds its innovation times the gain of the slot the state is in at that time.
   */
  function Traced(e: Estimate, n: nat, slots: nat, cmds: seq<Command>, solve: LltSolver, i: nat): (x: Matrix)
    requires StackOf(e, n, slots) && (forall cmd :: cmd in cmds ==> Fits(cmd, n)) && IsLltSolver(solve)
    requires i < Predictions(cmds)
    ensures x.rows == n && x.cols == 1
    decreases |cmds|
  {
    var earlier, last := cmds[..|cmds| - 1], cmds[|cmds| - 1];
    assert last in cmds && Fits(last, n) && forall cmd :: cmd in earlier ==> cmd in cmds;
    if last.Predict? then
      if i == 0 then last.xNext else Traced(e, n, slots, earlier, solve, i - 1)
    else
      var before := Run(e, n, slots, earlier, solve);
      Add(Traced(e, n, slots, earlier, solve, i), Learned(before, n, slots, last, solve, i))
  }

  /** After any commands slot i holds the state put in by the prediction with i predictions after it, traced through them. */
  lemma {:induction false} SlotIsTraced(e: Estimate, n: nat, slots: nat, cmds: seq<Command>, solve: LltSolver, i: nat)
    requires StackOf(e, n, slots) && IsLltSolver(solve) && IsCovariance(e.p)
    requires forall cmd :: cmd in cmds ==> Fits(cmd, n) && ProperNoise(cmd)
    requires i < slots && i < Predictions(cmds)
    ensures StateSlot(Run(e, n, slots, cmds, solve).x, n, i) == Traced(e, n, slots, cmds, solve, i)
    decreases |cmds|
  {
    hide Step, StateSlot, CovarianceSlot, Learned, Resolved, Run, DenseRun, IsCovariance, IsLltSolver, ProperNoise;
    var earlier, last := cmds[..|cmds| - 1], cmds[|cmds| - 1];
    assert last in cmds && forall cmd :: cmd in earlier ==> cmd in cmds;
    var before := Run(e, n, slots, earlier, solve);
    assert cmds == earlier + [last];
    RunOneMore(e, n, slots, earlier, last, solve);
    RunFromCovariance(e, n, slots, earlier, solve);
    if last.Predict? {
      PredictMoves(before, n, slots, last, solve, i);
      if i > 0 {
        SlotIsTraced(e, n, slots, earlier, solve, i - 1);
      }
    } else {
      CorrectAdds(before, n, slots, last, solve, i, i);
      SlotIsTraced(e, n, slots, earlier, solve, i);
    }
  }

  /** With no correction since, slot i holds just the predicted state, whatever the covariances. */
  lemma {:induction false} SlotHoldsItsPrediction(e: Estimate, n: nat, slots: nat, cmds: seq<Command>, solve: LltSolver, i: nat)
    requires StackOf(e, n, slots) && (forall cmd :: cmd in cmds ==> Fits(cmd, n)) && IsLltSolver(solve)
    requires i < slots && i < Predictions(cmds)
    requires forall k :: PredictionOf(cmds, i) < k < |cmds| ==> cmds[k].Predict?
    ensures StateSlot(Run(e, n, slots, cmds, solve).x, n, i) == cmds[PredictionOf(cmds, i)].xNext
    ensures Traced(e, n, slots, cmds, solve, i) == cmds[PredictionOf(cmds, i)].xNext
    decreases |cmds|
  {
    hide Step, StateSlot, Learned, Run, IsLltSolver;
    var earlier, last := cmds[..|cmds| - 1], cmds[|cmds| - 1];
    assert last in cmds && forall cmd :: cmd in earlier ==> cmd in cmds;
    assert cmds == earlier + [last];
    RunOneMore(e, n, slots, earlier, last, solve);
    assert last.Predict?;
    PredictMoves(Run(e, n, slots, earlier, solve), n, slots, last, solve, i);
    if i > 0 {
      assert forall k :: PredictionOf(earlier, i - 1) < k < |earlier| ==> earlier[k] == cmds[k];
      SlotHoldsItsPrediction(e, n, slots, earlier, solve, i - 1);
    }
  }

  // ----- The object -----

  class TimeDelayKalmanFilter {
    var x: Matrix
    var p: Matrix
    var maxDelayStep: nat
    var dimX: nat
    var dimXEx: nat

    constructor ()
    {
      x, p, maxDelayStep, dimX, dimXEx := Zero(0, 0), Zero(0, 0), 0, 0, 0;
    }

    function State(): Estimate
      reads this
    {
      Estimate(x, p)
    }

    predicate Valid()
      reads this
    {
      StackOf(State(), dimX, maxDelayStep) && dimXEx == maxDelayStep * dimX
    }

    method Init(x0: Matrix, p0: Matrix, slots: nat)
      requires x0.cols == 1 && Square(p0) && p0.rows == x0.rows
      modifies this
      ensures State() == Initial(x0, p0, slots) && dimX == x0.rows && maxDelayStep == slots
      ensures slots >= 1 ==> Valid()
    {
      maxDelayStep := slots;
      dimX := x0.rows;
      dimXEx := slots * x0.rows;
      x := Zero(dimXEx, 1);
      p := Zero(dimXEx, dimXEx);
      for i := 0 to slots
        invariant dimXEx == slots * x0.rows && i * x0.rows <= dimXEx && dimX == x0.rows && maxDelayStep == slots
        invariant x == StackedState(x0, i, dimXEx) && p == BlockDiagonal(p0, i, dimXEx)
      {
        SlotFits(dimX, i, slots);
        var offset := i * dimX;
        x := SetBlock(x, offset, 0, x0);
        p := SetBlock(p, offset, offset, p0);
      }
    }

    method GetLatestX() returns (latest: Matrix)
      requires Valid()
      ensures dimX <= x.rows && latest == Block(x, 0, 0, dimX, 1)
    {
      SlotFits(dimX, 0, maxDelayStep);
      latest := Block(x, 0, 0, dimX, 1);
    }

    method GetLatestP() returns (latest: Matrix)
      requires Valid()
      ensures dimX <= p.rows && latest == Block(p, 0, 0, dimX, dimX)
      ensures IsCovariance(p) ==> IsCovariance(latest)
    {
      SlotFits(dimX, 0, maxDelayStep);
      latest := Block(p, 0, 0, dimX, dimX);
      if IsCovariance(p) {
        DiagonalBlockCovariance(p, 0, dimX);
      }
    }

    method PredictWithDelay(xNext: Matrix, a: Matrix, q: Matrix) returns (ok: bool)
      requires Valid() && Fits(Predict(xNext, a, q), dimX)
      modifies this`x, this`p
      ensures ok && Valid()
      ensures dimX <= dimXEx && x == ShiftedState(old(x), xNext)
      ensures p == ShiftedCovariance(old(p), a, q)
    {
      hide At, ShiftedState, ShiftedCovariance;
      SlotFits(dimX, 0, maxDelayStep);
      x := SlideState(x, xNext);
      p := SlideCovariance(p, a, q);
      return true;
    }

    /** The part of PredictWithDelay that slides the stacked states in the time direction. */
    static method SlideState(x: Matrix, xNext: Matrix) returns (xTmp: Matrix)
      requires x.cols == xNext.cols == 1 && xNext.rows <= x.rows
      ensures xTmp == ShiftedState(x, xNext)
    {
      var dimX, rest := xNext.rows, x.rows - xNext.rows;
      xTmp := Zero(x.rows, 1);
      xTmp := SetBlock(xTmp, 0, 0, xNext);
      xTmp := SetBlock(xTmp, dimX, 0, Block(x, 0, 0, rest, 1));
    }

    /** The part of PredictWithDelay that writes the four blocks of the new covariance: the dense a_ex p a_ex' + q_ex. */
    static method SlideCovariance(p: Matrix, a: Matrix, q: Matrix) returns (pTmp: Matrix)
      requires Square(p) && Square(a) && Square(q) && a.rows == q.rows <= p.rows
      ensures pTmp == ShiftedCovariance(p, a, q)
      ensures pTmp == Add(Congruence(AugmentedTransition(a, p.rows), p), AugmentedNoise(q, p.rows))
    {
      var dimX, rest := a.rows, p.rows - a.rows;
      pTmp := Zero(p.rows, p.rows);
      pTmp := SetBlock(pTmp, 0, 0, Add(Mul(Mul(a, Block(p, 0, 0, dimX, dimX)), Transpose(a)), q));
      pTmp := SetBlock(pTmp, 0, dimX, Mul(a, Block(p, 0, 0, dimX, rest)));
      pTmp := SetBlock(pTmp, dimX, 0, Mul(Block(p, 0, 0, rest, dimX), Transpose(a)));
      pTmp := SetBlock(pTmp, dimX, dimX, Block(p, 0, 0, rest, rest));
      ShiftIsDensePrediction(p, a, q);
    }

    method UpdateWithDelay(y: Matrix, c: Matrix, r: Matrix, delayStep: int, solve: LltSolver) returns (ok: bool)
      requires Valid() && IsLltSolver(solve)
      modifies this`x, this`p
      ensures Valid()
      ensures State() == Step(old(State()), dimX, maxDelayStep, Correct(y, c, r, delayStep), solve)
      ensures ok <==> 0 <= delayStep < maxDelayStep && c.cols == dimX && y.rows == c.rows && y.cols == 1 && r.rows == r.cols == c.rows
                      && DelayedCorrects(old(State()), y, c, r, delayStep, solve)
      ensures !ok ==> State() == old(State())
      ensures IsCovariance(old(p)) && IsCovariance(r) && PositiveDefinite(r)
              && 0 <= delayStep < maxDelayStep && c.cols == dimX && y.rows == c.rows && y.cols == 1 && r.rows == r.cols == c.rows
              ==> ok
      ensures ok && IsCovariance(old(p)) && IsCovariance(r) ==>
                EverySlotLearned(old(State()), State(), dimX, maxDelayStep, y, c, r, delayStep)
    {
      hide IsCovariance, PositiveDefinite, EverySlotLearned, At, Add, Sub, Mul, Transpose, Block;
      AcceptedExactly(State(), dimX, maxDelayStep, y, c, r, delayStep, solve);
      if delayStep < 0 || delayStep >= maxDelayStep {
        return false;
      }
      if c.cols != dimX {
        return false;
      }
      if y.rows != c.rows {
        return false;
      }
      if y.cols != 1 {
        return false;
      }
      if r.rows != r.cols {
        return false;
      }
      if r.rows != c.rows {
        return false;
      }
      SlotFits(dimX, delayStep, maxDelayStep);
      var start := delayStep * dimX;
      var e := Sub(y, Mul(c, Block(x, start, 0, dimX, 1)));
      var pDd := Block(p, start, start, dimX, dimX);
      var s := r;
      s := Add(s, Mul(Mul(c, pDd), Transpose(c)));
      var pStarD := Block(p, 0, start, dimXEx, dimX);
      var pct := Mul(pStarD, Transpose(c));
      var kTransposed := solve(s, Transpose(pct));
      if kTransposed.None? {
        return false;
      }
      var k := Transpose(kTransposed.value);
      x := Add(x, Mul(k, e));
      p := Sub(p, Mul(pct, Transpose(k)));
      return true;
    }
  }
}

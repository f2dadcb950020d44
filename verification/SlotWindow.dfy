/**
 * How many past states the filter keeps only decides which measurements are dropped: what it holds in the slots it has
 * is what a filter with more slots holds in the same slots.
 */
module SlotWindow {
  import opened Searching
  import opened Matrices
  import opened Covariance
  import opened KalmanFilters
  import opened AugmentedModel
  import opened TimeDelayFilter
  import DefiniteSystems
  import opened Ekf

  /** The leading m rows of the state, and the leading m rows and columns of the covariance. */
  function Window(e: Estimate, m: nat): (w: Estimate)
    requires Shaped(e) && m <= e.x.rows
    ensures Shaped(w) && w.x.rows == m
  {
    Estimate(Block(e.x, 0, 0, m, 1), Block(e.p, 0, 0, m, m))
  }

  lemma WindowParts(e: Estimate, m: nat)
    requires Shaped(e) && m <= e.x.rows
    ensures Window(e, m).x == Block(e.x, 0, 0, m, 1) && Window(e, m).p == Block(e.p, 0, 0, m, m)
  {
  }

  // ----- Prediction -----

  lemma WindowOfShiftedState(x: Matrix, xNext: Matrix, m: nat)
    requires x.cols == xNext.cols == 1 && xNext.rows <= m <= x.rows
    ensures Block(ShiftedState(x, xNext), 0, 0, m, 1) == ShiftedState(Block(x, 0, 0, m, 1), xNext)
  {
    Extensional(Block(ShiftedState(x, xNext), 0, 0, m, 1), ShiftedState(Block(x, 0, 0, m, 1), xNext));
  }

  lemma WindowOfShiftedCovariance(p: Matrix, a: Matrix, q: Matrix, m: nat)
    requires Square(p) && Square(a) && Square(q) && a.rows == q.rows <= m <= p.rows
    ensures Block(ShiftedCovariance(p, a, q), 0, 0, m, m) == ShiftedCovariance(Block(p, 0, 0, m, m), a, q)
  {
    hide At, Block, Mul, ShiftedCovariance, Add, Transpose;
    var n, s, pm := a.rows, ShiftedCovariance(p, a, q), Block(p, 0, 0, m, m);
    var wide, rest, total := p.rows - n, m - n, p.rows;
    var w, sm := Block(s, 0, 0, m, m), ShiftedCovariance(pm, a, q);
    ShiftedBlocks(p, a, q);
    ShiftedBlocks(pm, a, q);
    // the newest block
    NestedBlock(s, 0, 0, m, m, 0, 0, n, n);
    NestedBlock(p, 0, 0, m, m, 0, 0, n, n);
    // beside it
    NestedBlock(s, 0, 0, m, m, 0, n, n, rest);
    NestedBlock(s, 0, n, n, wide, 0, 0, n, rest);
    BlockOfProduct(a, Block(p, 0, 0, n, wide), 0, 0, n, rest);
    WholeBlock(a);
    NestedBlock(p, 0, 0, n, wide, 0, 0, n, rest);
    NestedBlock(p, 0, 0, m, m, 0, 0, n, rest);
    // below it
    NestedBlock(s, 0, 0, m, m, n, 0, rest, n);
    NestedBlock(s, n, 0, wide, n, 0, 0, rest, n);
    BlockOfProduct(Block(p, 0, 0, wide, n), Transpose(a), 0, 0, rest, n);
    WholeBlock(Transpose(a));
    NestedBlock(p, 0, 0, wide, n, 0, 0, rest, n);
    NestedBlock(p, 0, 0, m, m, 0, 0, rest, n);
    // the shifted rest
    NestedBlock(s, 0, 0, m, m, n, n, rest, rest);
    NestedBlock(s, n, n, wide, wide, 0, 0, rest, rest);
    NestedBlock(p, 0, 0, wide, wide, 0, 0, rest, rest);
    NestedBlock(p, 0, 0, m, m, 0, 0, rest, rest);
    EqualByBlocks(w, sm, n);
  }

  // ----- Correction -----

  /** The leading columns of the solution solve for the leading columns of the right-hand side. */
  lemma WindowOfSolution(s: Matrix, b: Matrix, m: nat, solve: LltSolver)
    requires IsLltSolver(solve) && Symmetric(s) && s.rows == b.rows && m <= b.cols
    ensures solve(s, b).Some? <==> solve(s, Block(b, 0, 0, b.rows, m)).Some?
    ensures solve(s, b).Some? ==>
              && solve(s, b).value.rows == b.rows && solve(s, b).value.cols == b.cols
              && solve(s, Block(b, 0, 0, b.rows, m)).value == Block(solve(s, b).value, 0, 0, b.rows, m)
  {
    DefiniteSystems.SolvedColumns(s, b, 0, m, solve);
  }

  lemma WindowOfTranspose(a: Matrix, rows: nat, cols: nat)
    requires rows <= a.rows && cols <= a.cols
    ensures Transpose(Block(a, 0, 0, rows, cols)) == Block(Transpose(a), 0, 0, cols, rows)
  {
    Extensional(Transpose(Block(a, 0, 0, rows, cols)), Block(Transpose(a), 0, 0, cols, rows));
  }

  lemma WindowOfSum(a: Matrix, b: Matrix, rows: nat, cols: nat)
    requires a.rows == b.rows && a.cols == b.cols && rows <= a.rows && cols <= a.cols
    ensures Block(Add(a, b), 0, 0, rows, cols) == Add(Block(a, 0, 0, rows, cols), Block(b, 0, 0, rows, cols))
    ensures Block(Sub(a, b), 0, 0, rows, cols) == Sub(Block(a, 0, 0, rows, cols), Block(b, 0, 0, rows, cols))
  {
    Extensional(Block(Add(a, b), 0, 0, rows, cols), Add(Block(a, 0, 0, rows, cols), Block(b, 0, 0, rows, cols)));
    Extensional(Block(Sub(a, b), 0, 0, rows, cols), Sub(Block(a, 0, 0, rows, cols), Block(b, 0, 0, rows, cols)));
  }

  /** Adding k y to a state and taking pct k' off a covariance, seen through the window. */
  lemma WindowOfCorrection(e: Estimate, k: Matrix, y: Matrix, pct: Matrix, m: nat)
    requires Shaped(e) && m <= e.x.rows && k.rows == pct.rows == e.x.rows && k.cols == pct.cols == y.rows && y.cols == 1
    ensures Window(Estimate(Add(e.x, Mul(k, y)), Sub(e.p, Mul(pct, Transpose(k)))), m)
         == Estimate(Add(Block(e.x, 0, 0, m, 1), Mul(Block(k, 0, 0, m, k.cols), y)),
                     Sub(Block(e.p, 0, 0, m, m), Mul(Block(pct, 0, 0, m, pct.cols), Transpose(Block(k, 0, 0, m, k.cols)))))
  {
    hide At, Block, Mul, Add, Sub, Transpose;
    WindowOfSum(e.x, Mul(k, y), m, 1);
    BlockOfProduct(k, y, 0, 0, m, 1);
    WholeBlock(y);
    WindowOfSum(e.p, Mul(pct, Transpose(k)), m, m);
    BlockOfProduct(pct, Transpose(k), 0, 0, m, m);
    WindowOfTranspose(k, m, k.cols);
  }

  /** The correction of a slot inside the window, computed inside the window. */
  lemma WindowOfCorrected(e: Estimate, n: nat, y: Matrix, c: Matrix, r: Matrix, start: nat, m: nat, solve: LltSolver)
    requires Shaped(e) && start + n <= m <= e.x.rows && c.cols == n
    requires y.rows == c.rows == r.rows == r.cols && y.cols == 1 && IsLltSolver(solve)
    requires IsCovariance(e.p) && IsCovariance(r)
    ensures var u, v := DelayedCorrected(e, n, y, c, r, start, solve), DelayedCorrected(Window(e, m), n, y, c, r, start, solve);
            && (u.Some? <==> v.Some?)
            && (u.Some? ==> v.value == Window(u.value, m))
  {
    hide At, Block, Mul, Add, Sub, Transpose, PositiveSemidefinite, IsLltSolver, Window;
    WindowParts(e, m);
    var total, pm := e.p.rows, Block(e.p, 0, 0, m, m);
    NestedBlock(e.x, 0, 0, m, 1, start, 0, n, 1);
    NestedBlock(e.p, 0, 0, m, m, start, start, n, n);
    NestedBlock(e.p, 0, 0, m, m, 0, start, m, n);
    NestedBlock(e.p, 0, start, total, n, 0, 0, m, n);
    var innovation := Sub(y, Mul(c, Block(e.x, start, 0, n, 1)));
    var pdd := Block(e.p, start, start, n, n);
    var s := Add(r, Mul(Mul(c, pdd), Transpose(c)));
    DiagonalBlockCovariance(e.p, start, n);
    InnovationSymmetric(pdd, c, r);
    var pct := Mul(Block(e.p, 0, start, total, n), Transpose(c));
    var pctm := Mul(Block(pm, 0, start, m, n), Transpose(c));
    BlockOfProduct(Block(e.p, 0, start, total, n), Transpose(c), 0, 0, m, c.rows);
    WholeBlock(Transpose(c));
    assert pctm == Block(pct, 0, 0, m, c.rows);
    WindowOfTranspose(pct, m, c.rows);
    WindowOfSolution(s, Transpose(pct), m, solve);
    match solve(s, Transpose(pct)) {
      case None =>
      case Some(kt) =>
        WindowOfTranspose(kt, c.rows, m);
        WindowOfCorrection(e, Transpose(kt), innovation, pct, m);
    }
  }

  // ----- Runs of the filter -----

  /** The command does the same with few slots as with many: it does not correct a slot that only the many have. */
  predicate SameFor(cmd: Command, few: nat, many: nat) {
    cmd.Correct? ==> !(few <= cmd.delayStep < many)
  }

  /** The leading few of many slots. */
  function Kept(e: Estimate, n: nat, few: nat, many: nat): (w: Estimate)
    requires 1 <= few <= many && StackOf(e, n, many)
    ensures StackOf(w, n, few)
  {
    assert (many - few) * n >= 0;
    Window(e, few * n)
  }

  lemma WindowOfStep(e: Estimate, n: nat, few: nat, many: nat, cmd: Command, solve: LltSolver)
    requires 1 <= few <= many && StackOf(e, n, many) && Fits(cmd, n) && IsLltSolver(solve)
    requires IsCovariance(e.p) && ProperNoise(cmd) && SameFor(cmd, few, many)
    ensures Kept(Step(e, n, many, cmd, solve), n, few, many) == Step(Kept(e, n, few, many), n, few, cmd, solve)
  {
    hide Step, Kept, IsCovariance;
    match cmd {
      case Predict(xNext, a, q) => WindowOfPredict(e, n, few, many, xNext, a, q, solve);
      case Correct(y, c, r, delayStep) =>
        if CorrectionAccepted(n, few, y, c, r, delayStep) {
          WindowOfCorrect(e, n, few, many, y, c, r, delayStep, solve);
        } else {
          RejectedByBoth(e, n, few, many, cmd, solve);
        }
    }
  }

  lemma WindowOfPredict(e: Estimate, n: nat, few: nat, many: nat, xNext: Matrix, a: Matrix, q: Matrix, solve: LltSolver)
    requires 1 <= few <= many && StackOf(e, n, many) && Fits(Predict(xNext, a, q), n) && IsLltSolver(solve)
    ensures var cmd := Predict(xNext, a, q);
            Kept(Step(e, n, many, cmd, solve), n, few, many) == Step(Kept(e, n, few, many), n, few, cmd, solve)
  {
    hide At, Block, Mul, ShiftedState, ShiftedCovariance, IsLltSolver;
    SlotFits(n, 0, few);
    assert (many - few) * n >= 0;
    WindowOfShiftedState(e.x, xNext, few * n);
    WindowOfShiftedCovariance(e.p, a, q, few * n);
  }

  lemma WindowOfCorrect(e: Estimate, n: nat, few: nat, many: nat, y: Matrix, c: Matrix, r: Matrix, delayStep: nat, solve: LltSolver)
    requires 1 <= few <= many && StackOf(e, n, many) && IsLltSolver(solve) && CorrectionAccepted(n, few, y, c, r, delayStep)
    requires IsCovariance(e.p) && IsCovariance(r)
    ensures var cmd := Correct(y, c, r, delayStep);
            Kept(Step(e, n, many, cmd, solve), n, few, many) == Step(Kept(e, n, few, many), n, few, cmd, solve)
  {
    hide DelayedCorrected, IsCovariance, IsLltSolver, Window, Kept;
    SlotFits(n, delayStep, few);
    KeptIsWindow(e, n, few, many);
    KeptIsWindow(Step(e, n, many, Correct(y, c, r, delayStep), solve), n, few, many);
    WindowOfCorrected(e, n, y, c, r, delayStep * n, few * n, solve);
  }

  lemma KeptIsWindow(e: Estimate, n: nat, few: nat, many: nat)
    requires 1 <= few <= many && StackOf(e, n, many)
    ensures few * n <= many * n && Kept(e, n, few, many) == Window(e, few * n)
  {
    assert (many - few) * n >= 0;
  }

  lemma RejectedByBoth(e: Estimate, n: nat, few: nat, many: nat, cmd: Command, solve: LltSolver)
    requires 1 <= few <= many && StackOf(e, n, many) && IsLltSolver(solve) && SameFor(cmd, few, many)
    requires cmd.Correct? && !CorrectionAccepted(n, few, cmd.y, cmd.c, cmd.r, cmd.delayStep)
    ensures Kept(Step(e, n, many, cmd, solve), n, few, many) == Step(Kept(e, n, few, many), n, few, cmd, solve)
  {
  }

  /** Over every run: the filter with few slots holds the leading slots of the filter with many. */
  lemma {:induction false} WindowOfRun(e: Estimate, n: nat, few: nat, many: nat, cmds: seq<Command>, solve: LltSolver)
    requires 1 <= few <= many && StackOf(e, n, many) && IsLltSolver(solve) && IsCovariance(e.p)
    requires forall cmd :: cmd in cmds ==> Fits(cmd, n) && ProperNoise(cmd) && SameFor(cmd, few, many)
    ensures Kept(Run(e, n, many, cmds, solve), n, few, many) == Run(Kept(e, n, few, many), n, few, cmds, solve)
    decreases |cmds|
  {
    hide IsCovariance, Kept, Step, StackOf;
    if cmds == [] {
    } else {
      WindowOfStep(e, n, few, many, cmds[0], solve);
      StepKeepsCovariance(e, n, many, cmds[0], solve);
      WindowOfRun(Step(e, n, many, cmds[0], solve), n, few, many, cmds[1..], solve);
    }
  }

  // ----- Runs of the localizer -----

  /** A block that lies inside the window, or outside it. */
  lemma WindowOfSetBlock(a: Matrix, row: nat, col: nat, b: Matrix, rows: nat, cols: nat)
    requires row + b.rows <= a.rows && col + b.cols <= a.cols && rows <= a.rows && cols <= a.cols
    ensures row + b.rows <= rows && col + b.cols <= cols ==>
              Block(SetBlock(a, row, col, b), 0, 0, rows, cols) == SetBlock(Block(a, 0, 0, rows, cols), row, col, b)
    ensures row >= rows ==> Block(SetBlock(a, row, col, b), 0, 0, rows, cols) == Block(a, 0, 0, rows, cols)
  {
    if row + b.rows <= rows && col + b.cols <= cols {
      Extensional(Block(SetBlock(a, row, col, b), 0, 0, rows, cols), SetBlock(Block(a, 0, 0, rows, cols), row, col, b));
    }
    if row >= rows {
      Extensional(Block(SetBlock(a, row, col, b), 0, 0, rows, cols), Block(a, 0, 0, rows, cols));
    }
  }

  /** The initial state and covariance with count slots, seen through a window of few slots. */
  lemma {:induction false} WindowOfInitial(x0: Matrix, p0: Matrix, count: nat, few: nat, m: nat, total: nat)
    requires x0.cols == 1 && Square(p0) && p0.rows == x0.rows && count * x0.rows <= total && m <= total
    requires if count <= few then count * x0.rows <= m else few * x0.rows == m
    ensures var kept := if count <= few then count else few;
            && Block(StackedState(x0, count, total), 0, 0, m, 1) == StackedState(x0, kept, m)
            && Block(BlockDiagonal(p0, count, total), 0, 0, m, m) == BlockDiagonal(p0, kept, m)
  {
    hide At, Block, SetBlock;
    var n := x0.rows;
    if count == 0 {
      WindowOfZero(total, 1, m, 1);
      WindowOfZero(total, total, m, m);
    } else {
      SlotFits(n, count - 1, count);
      if count > few {
        KeptFit(n, few, count - 1);
      }
      WindowOfInitial(x0, p0, count - 1, few, m, total);
      WindowOfSetBlock(StackedState(x0, count - 1, total), (count - 1) * n, 0, x0, m, 1);
      WindowOfSetBlock(BlockDiagonal(p0, count - 1, total), (count - 1) * n, (count - 1) * n, p0, m, m);
    }
  }

  lemma WindowOfZero(rows: nat, cols: nat, r: nat, c: nat)
    requires r <= rows && c <= cols
    ensures Block(Zero(rows, cols), 0, 0, r, c) == Zero(r, c)
  {
    Extensional(Block(Zero(rows, cols), 0, 0, r, c), Zero(r, c));
  }

  lemma KeptFit(n: nat, few: nat, many: nat)
    requires few <= many
    ensures few * n <= many * n
  {
    assert (many - few) * n >= 0;
  }

  lemma InitialOfFew(x0: Matrix, p0: Matrix, few: nat, many: nat)
    requires x0.cols == 1 && Square(p0) && p0.rows == x0.rows && 1 <= few <= many
    ensures Kept(TimeDelayFilter.Initial(x0, p0, many), x0.rows, few, many) == TimeDelayFilter.Initial(x0, p0, few)
  {
    KeptFit(x0.rows, few, many);
    WindowOfInitial(x0, p0, many, few, few * x0.rows, many * x0.rows);
  }

  /** The table, and what slots hold, with few slots. */
  function HistoryOfFew(h: DelayTable.History, few: nat): (g: DelayTable.History)
    requires few <= |h.clock.table| == |h.created|
    ensures |g.clock.table| == |g.created| == few
  {
    h.(clock := h.clock.(table := h.clock.table[..few]), created := h.created[..few])
  }

  /** A shorter table holds the leading entries of a longer one, over every run. */
  lemma {:induction false} TableOfFew(few: nat, many: nat, events: seq<DelayTable.Event>)
    requires 1 <= few <= many
    ensures DelayTable.After(few, events) == HistoryOfFew(DelayTable.After(many, events), few)
  {
    hide DelayTable.Follow, HistoryOfFew;
    if events == [] {
      StartOfFew(few, many);
    } else {
      var earlier, e := events[..|events| - 1], events[|events| - 1];
      TableOfFew(few, many, earlier);
      FollowOfFew(DelayTable.After(many, earlier), few, e);
    }
  }

  lemma StartOfFew(few: nat, many: nat)
    requires 1 <= few <= many
    ensures DelayTable.Start(few) == HistoryOfFew(DelayTable.Start(many), few)
  {
  }

  lemma FollowOfFew(h: DelayTable.History, few: nat, e: DelayTable.Event)
    requires 1 <= few <= |h.clock.table| == |h.created|
    ensures DelayTable.Follow(HistoryOfFew(h, few), e) == HistoryOfFew(DelayTable.Follow(h, e), few)
  {
    var g, r := DelayTable.Follow(HistoryOfFew(h, few), e), HistoryOfFew(DelayTable.Follow(h, e), few);
    assert g.clock.table == r.clock.table;
    assert g.created == r.created;
  }

  /** With a shorter table a delay up to its last entry gets the same slot, and a longer one none. */
  lemma IndexOfFew(table: seq<real>, few: nat, target: real)
    requires Nondecreasing(table) && 1 <= few <= |table|
    ensures Nondecreasing(table[..few])
    ensures DelayTable.ClosestIndex(table[..few], target)
         == if target <= table[few - 1] then DelayTable.ClosestIndex(table, target) else few
    ensures target <= table[few - 1] ==> DelayTable.ClosestIndex(table, target) < few
  {
  }

  /** Call k is no measurement that only the longer table lets through. */
  ghost predicate SameVerdict(s: Setup, calls: seq<Call>, few: nat, k: nat)
    requires Proper(s) && AllFitting(calls, s.x.rows) && 1 <= few <= s.slots && k < |calls|
  {
    var h, e := HistoryAfter(s, calls[..k]), EstimateAfter(s, calls[..k]);
    calls[k].Measure? && DelayTime(calls[k].reading) > h.clock.table[few - 1] ==> Issued(s, h.clock, e, calls[k]).None?
  }

  /** What a call issues with few slots, told from what it issues with many. */
  lemma IssuedOfFew(s: Setup, few: nat, h: DelayTable.History, e: Estimate, call: Call)
    requires Proper(s) && 1 <= few <= s.slots && StackOf(e, s.x.rows, s.slots) && Fitting(call, s.x.rows)
    requires |h.clock.table| == |h.created| == s.slots && Nondecreasing(h.clock.table)
    requires call.Measure? && DelayTime(call.reading) > h.clock.table[few - 1] ==> Issued(s, h.clock, e, call).None?
    ensures Nondecreasing(h.clock.table[..few])
    ensures Issued(s.(slots := few), HistoryOfFew(h, few).clock, Kept(e, s.x.rows, few, s.slots), call)
         == Issued(s, h.clock, e, call)
    ensures var cmd := Issued(s, h.clock, e, call); cmd.Some? ==> SameFor(cmd.value, few, s.slots)
  {
    hide At, Block, IsLltSolver;
    SlotOfKept(e, s.x.rows, few, s.slots, 0);
    if call.Measure? {
      var delay := DelayTime(call.reading);
      IndexOfFew(h.clock.table, few, delay);
      if delay <= h.clock.table[few - 1] {
        SlotOfKept(e, s.x.rows, few, s.slots, DelayTable.ClosestIndex(h.clock.table, delay));
      }
    }
  }

  lemma SlotOfKept(e: Estimate, n: nat, few: nat, many: nat, b: nat)
    requires 1 <= few <= many && StackOf(e, n, many) && b < few
    ensures StateSlot(Kept(e, n, few, many).x, n, b) == StateSlot(e.x, n, b)
    ensures CovarianceSlot(Kept(e, n, few, many).p, n, b, b) == CovarianceSlot(e.p, n, b, b)
  {
    KeptFit(n, few, many);
    SlotFits(n, b, few);
    Extensional(StateSlot(Kept(e, n, few, many).x, n, b), StateSlot(e.x, n, b));
    Extensional(CovarianceSlot(Kept(e, n, few, many).p, n, b, b), CovarianceSlot(e.p, n, b, b));
  }

  /**
   * Over every run of the localizer: with few slots it holds what it holds in those slots with more, as long as no
   * measurement is older than the shorter table reaches and yet let through by the longer one.
   */
  lemma {:induction false} WindowOfLocalizer(s: Setup, calls: seq<Call>, few: nat)
    requires Proper(s) && AllFitting(calls, s.x.rows) && 1 <= few <= s.slots && IsCovariance(s.p)
    requires forall i :: 0 <= i < |calls| ==> ProperNoises(calls[i], s.x.rows) && SameVerdict(s, calls, few, i)
    ensures EstimateAfter(s.(slots := few), calls) == Kept(EstimateAfter(s, calls), s.x.rows, few, s.slots)
  {
    hide IsCovariance, Kept, Step, IsLltSolver, TimeDelayFilter.Initial, Issued, SameVerdict, HistoryOfFew;
    var n, fewer := s.x.rows, s.(slots := few);
    if calls == [] {
      InitialOfFew(s.x, s.p, few, s.slots);
    } else {
      var earlier, call := calls[..|calls| - 1], calls[|calls| - 1];
      EarlierVerdicts(s, calls, few);
      WindowOfLocalizer(s, earlier, few);
      TableOfFew(few, s.slots, Events(earlier));
      AdvancedOfFew(s, calls, few);
    }
  }

  lemma EarlierVerdicts(s: Setup, calls: seq<Call>, few: nat)
    requires Proper(s) && AllFitting(calls, s.x.rows) && 1 <= few <= s.slots && calls != []
    requires forall i :: 0 <= i < |calls| ==> ProperNoises(calls[i], s.x.rows) && SameVerdict(s, calls, few, i)
    ensures var earlier := calls[..|calls| - 1];
            && AllFitting(earlier, s.x.rows)
            && forall i :: 0 <= i < |earlier| ==> ProperNoises(earlier[i], s.x.rows) && SameVerdict(s, earlier, few, i)
  {
    var earlier := calls[..|calls| - 1];
    forall i | 0 <= i < |earlier|
      ensures ProperNoises(earlier[i], s.x.rows) && SameVerdict(s, earlier, few, i)
    {
      assert earlier[..i] == calls[..i] && SameVerdict(s, calls, few, i);
    }
  }

  lemma AdvancedOfFew(s: Setup, calls: seq<Call>, few: nat)
    requires Proper(s) && AllFitting(calls, s.x.rows) && 1 <= few <= s.slots && IsCovariance(s.p) && calls != []
    requires forall i :: 0 <= i < |calls| ==> ProperNoises(calls[i], s.x.rows) && SameVerdict(s, calls, few, i)
    ensures var earlier, call := calls[..|calls| - 1], calls[|calls| - 1];
            var h, e := HistoryAfter(s, earlier), EstimateAfter(s, earlier);
            && Nondecreasing(h.clock.table[..few])
            && Advanced(s.(slots := few), HistoryOfFew(h, few).clock, Kept(e, s.x.rows, few, s.slots), call)
               == Kept(Advanced(s, h.clock, e, call), s.x.rows, few, s.slots)
  {
    hide IsCovariance, Kept, Step, IsLltSolver, TimeDelayFilter.Initial, Issued, HistoryOfFew;
    var earlier, call := calls[..|calls| - 1], calls[|calls| - 1];
    var h, e := HistoryAfter(s, earlier), EstimateAfter(s, earlier);
    assert SameVerdict(s, calls, few, |calls| - 1);
    IssuedOfFew(s, few, h, e, call);
    var issued := Issued(s, h.clock, e, call);
    if call.Initialize? {
      InitialOfFew(call.x, call.p, few, s.slots);
    } else if issued.Some? {
      EarlierVerdicts(s, calls, few);
      Ekf.RunIsDenseAndKeepsCovariance(s, earlier);
      IssuedIsProper(s, h.clock, e, call);
      WindowOfStep(e, s.x.rows, few, s.slots, issued.value, s.solve);
    }
  }

  lemma IssuedIsProper(s: Setup, clock: DelayTable.Clock, e: Estimate, call: Call)
    requires Proper(s) && StackOf(e, s.x.rows, s.slots) && Fitting(call, s.x.rows) && ProperNoises(call, s.x.rows)
    requires |clock.table| == s.slots && Nondecreasing(clock.table)
    ensures Issued(s, clock, e, call).Some? ==> ProperNoise(Issued(s, clock, e, call).value)
  {
    hide IsCovariance, StateSlot, IsLltSolver;
  }
}

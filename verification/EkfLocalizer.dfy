/**
 * The EKF localizer: activation, initial poses, the ticks of update_step and the measurement updates, which keep the
 * delay table and the time-delay filter side by side; and what holds over every run of them.
 */
module Ekf {
  import opened Wrappers
  import opened Searching
  import opened Matrices
  import opened Covariance
  import opened KalmanFilters
  import opened AugmentedModel
  import opened TimeDelayFilter
  import DelayTable

  // ----- Inputs -----

  /** The motion model: next state, transition and process noise for the current state and a time step. */
  type MotionModel = (Matrix, real) -> (Matrix, Matrix, Matrix)

  ghost predicate IsMotionModel(model: MotionModel, n: nat) {
    forall x: Matrix, dt: real :: x.rows == n && x.cols == 1 ==>
      Fits(Command.Predict(model(x, dt).0, model(x, dt).1, model(x, dt).2), n)
  }

  lemma ModelFits(model: MotionModel, n: nat, x: Matrix, dt: real)
    requires IsMotionModel(model, n) && x.rows == n && x.cols == 1
    ensures var m := model(x, dt); Fits(Command.Predict(m.0, m.1, m.2), n)
  {
  }

  /**
   * A measurement with its times. read gives the measured vector for the state of the chosen slot, whose yaw the
   * measured yaw is brought next to; gate is the verdict on that state, the measured vector and the newest covariance.
   */
  datatype Reading = Reading(stamp: real, now: real, additional: real, read: Matrix -> Matrix, c: Matrix, r: Matrix,
                             gate: (Matrix, Matrix, Matrix) -> bool)

  /** The delay of a measurement as the localizer reads it. */
  function DelayTime(reading: Reading): real {
    Max(reading.now - reading.stamp + reading.additional, 0.0)
  }

  lemma DelayTimeMeans(reading: Reading)
    ensures var delay := reading.now - reading.stamp + reading.additional;
            DelayTime(reading) == if delay < 0.0 then 0.0 else delay
  {
  }

  /** What is called on a localizer, with its inputs. */
  datatype Call =
    | Activate(active: bool)
    | Initialize(x: Matrix, p: Matrix)
    | Update(now: real, model: MotionModel)
    | Measure(reading: Reading)

  ghost predicate Fitting(call: Call, n: nat) {
    match call
    case Activate(_) => true
    case Initialize(x, p) => x.rows == n && x.cols == 1 && Square(p) && p.rows == n
    case Update(_, model) => IsMotionModel(model, n)
    case Measure(_) => true
  }

  ghost predicate AllFitting(calls: seq<Call>, n: nat) {
    forall i :: 0 <= i < |calls| ==> Fitting(calls[i], n)
  }

  // ----- The localizer's runs -----

  /** What a localizer is built with. */
  datatype Setup = Setup(slots: nat, x: Matrix, p: Matrix, solve: LltSolver)

  ghost predicate Proper(s: Setup) {
    s.slots >= 1 && s.x.cols == 1 && Square(s.p) && s.p.rows == s.x.rows && IsLltSolver(s.solve)
  }

  function EventOf(call: Call): DelayTable.Event {
    match call
    case Activate(active) => DelayTable.Activate(active)
    case Initialize(_, _) => DelayTable.Initialize
    case Update(now, _) => DelayTable.Tick(now)
    case Measure(_) => DelayTable.Measurement
  }

  function Events(calls: seq<Call>): (events: seq<DelayTable.Event>)
    ensures |events| == |calls| && forall i :: 0 <= i < |calls| ==> events[i] == EventOf(calls[i])
  {
    seq(|calls|, i requires 0 <= i < |calls| => EventOf(calls[i]))
  }

  /** The clock, and which tick predicted which slot. */
  function HistoryAfter(s: Setup, calls: seq<Call>): (h: DelayTable.History)
    requires s.slots >= 1
    ensures |h.clock.table| == |h.created| == s.slots && Nondecreasing(h.clock.table)
  {
    DelayTable.TableStaysSorted(s.slots, Events(calls));
    DelayTable.After(s.slots, Events(calls))
  }

  /** What the filter is told to do by a call, if anything: predict the newest state, or correct the chosen slot. */
  function Issued(s: Setup, clock: DelayTable.Clock, e: Estimate, call: Call): (cmd: Option<Command>)
    requires Proper(s) && StackOf(e, s.x.rows, s.slots) && Fitting(call, s.x.rows)
    requires |clock.table| == s.slots && Nondecreasing(clock.table)
    ensures cmd.Some? ==> Fits(cmd.value, s.x.rows)
  {
    var n := s.x.rows;
    SlotFits(n, 0, s.slots);
    match call
    case Activate(_) => None
    case Initialize(_, _) => None
    case Update(now, model) =>
      if DelayTable.Running(clock) then
        var m := model(StateSlot(e.x, n, 0), DelayTable.Next(clock, DelayTable.Tick(now)).ekfDt);
        Some(Predict(m.0, m.1, m.2))
      else None
    case Measure(reading) =>
      var slot := DelayTable.ClosestIndex(clock.table, DelayTime(reading));
      if slot >= s.slots then None
      else
        var y := reading.read(StateSlot(e.x, n, slot));
        if reading.gate(StateSlot(e.x, n, slot), y, CovarianceSlot(e.p, n, 0, 0)) then Some(Correct(y, reading.c, reading.r, slot))
        else None
  }

  /** The stacked estimate after one call. */
  function Advanced(s: Setup, clock: DelayTable.Clock, e: Estimate, call: Call): (u: Estimate)
    requires Proper(s) && StackOf(e, s.x.rows, s.slots) && Fitting(call, s.x.rows)
    requires |clock.table| == s.slots && Nondecreasing(clock.table)
    ensures StackOf(u, s.x.rows, s.slots)
  {
    if call.Initialize? then TimeDelayFilter.Initial(call.x, call.p, s.slots)
    else
      match Issued(s, clock, e, call)
      case None => e
      case Some(cmd) => Step(e, s.x.rows, s.slots, cmd, s.solve)
  }

  function EstimateAfter(s: Setup, calls: seq<Call>): (e: Estimate)
    requires Proper(s) && AllFitting(calls, s.x.rows)
    ensures StackOf(e, s.x.rows, s.slots)
  {
    if calls == [] then TimeDelayFilter.Initial(s.x, s.p, s.slots)
    else
      var earlier := calls[..|calls| - 1];
      Advanced(s, HistoryAfter(s, earlier).clock, EstimateAfter(s, earlier), calls[|calls| - 1])
  }

  lemma MeasureAdvances(s: Setup, clock: DelayTable.Clock, e: Estimate, reading: Reading)
    requires Proper(s) && StackOf(e, s.x.rows, s.slots) && |clock.table| == s.slots && Nondecreasing(clock.table)
    ensures var n, slot := s.x.rows, DelayTable.ClosestIndex(clock.table, DelayTime(reading));
            var state := StateSlot(e.x, n, slot);
            var y := reading.read(state);
            Advanced(s, clock, e, Measure(reading))
            == if slot < s.slots && reading.gate(state, y, CovarianceSlot(e.p, n, 0, 0))
               then Step(e, n, s.slots, Correct(y, reading.c, reading.r, slot), s.solve)
               else e
  {
  }

  lemma OneMoreCall(s: Setup, calls: seq<Call>, call: Call)
    requires Proper(s) && AllFitting(calls, s.x.rows) && Fitting(call, s.x.rows)
    ensures AllFitting(calls + [call], s.x.rows)
    ensures HistoryAfter(s, calls + [call]) == DelayTable.Follow(HistoryAfter(s, calls), EventOf(call))
    ensures EstimateAfter(s, calls + [call]) == Advanced(s, HistoryAfter(s, calls).clock, EstimateAfter(s, calls), call)
  {
    assert (calls + [call])[..|calls|] == calls;
    assert Events(calls + [call]) == Events(calls) + [EventOf(call)];
    DelayTable.AfterOneMore(s.slots, Events(calls), EventOf(call));
  }

  // ----- The localizer's runs are runs of the filter -----

  /** The pose the filter was last started from. */
  function LastPose(s: Setup, calls: seq<Call>): (pose: (Matrix, Matrix)) {
    if calls == [] then (s.x, s.p)
    else
      var call := calls[|calls| - 1];
      if call.Initialize? then (call.x, call.p) else LastPose(s, calls[..|calls| - 1])
  }

  lemma {:induction false} LastPoseFits(s: Setup, calls: seq<Call>)
    requires Proper(s) && AllFitting(calls, s.x.rows)
    ensures var (x, p) := LastPose(s, calls);
            x.rows == s.x.rows && x.cols == 1 && Square(p) && p.rows == s.x.rows
  {
    if calls == [] {
    } else {
      assert Fitting(calls[|calls| - 1], s.x.rows);
      LastPoseFits(s, calls[..|calls| - 1]);
    }
  }

  /** The commands given to the filter since then. */
  function IssuedSince(s: Setup, calls: seq<Call>): (cmds: seq<Command>)
    requires Proper(s) && AllFitting(calls, s.x.rows)
    ensures forall i :: 0 <= i < |cmds| ==> Fits(cmds[i], s.x.rows)
  {
    if calls == [] then []
    else
      var earlier, call := calls[..|calls| - 1], calls[|calls| - 1];
      if call.Initialize? then []
      else
        match Issued(s, HistoryAfter(s, earlier).clock, EstimateAfter(s, earlier), call)
        case None => IssuedSince(s, earlier)
        case Some(cmd) => IssuedSince(s, earlier) + [cmd]
  }

  /** Over every run the filter holds what its commands since the last initial pose make of that pose. */
  lemma {:induction false} RunIsFilterRun(s: Setup, calls: seq<Call>)
    requires Proper(s) && AllFitting(calls, s.x.rows)
    ensures var (x, p) := LastPose(s, calls);
            && x.rows == s.x.rows && x.cols == 1 && Square(p) && p.rows == s.x.rows
            && EstimateAfter(s, calls)
               == Run(TimeDelayFilter.Initial(x, p, s.slots), s.x.rows, s.slots, IssuedSince(s, calls), s.solve)
  {
    hide Step, TimeDelayFilter.Initial, IsLltSolver, StateSlot, DelayTable.After;
    LastPoseFits(s, calls);
    if calls == [] {
    } else {
      var earlier, call := calls[..|calls| - 1], calls[|calls| - 1];
      assert calls == earlier + [call];
      RunIsFilterRun(s, earlier);
      var issued := Issued(s, HistoryAfter(s, earlier).clock, EstimateAfter(s, earlier), call);
      if !call.Initialize? && issued.Some? {
        var (x, p) := LastPose(s, earlier);
        RunOneMore(TimeDelayFilter.Initial(x, p, s.slots), s.x.rows, s.slots, IssuedSince(s, earlier), issued.value, s.solve);
      }
    }
  }

  /** Every tick that ran since then issued one prediction. */
  lemma {:induction false} TicksPredict(s: Setup, calls: seq<Call>)
    requires Proper(s) && AllFitting(calls, s.x.rows)
    ensures Predictions(IssuedSince(s, calls)) == HistoryAfter(s, calls).predictions
  {
    hide Step, TimeDelayFilter.Initial, IsLltSolver, StateSlot, EstimateAfter;
    if calls == [] {
    } else {
      var earlier, call := calls[..|calls| - 1], calls[|calls| - 1];
      assert calls == earlier + [call];
      OneMoreCall(s, earlier, call);
      TicksPredict(s, earlier);
      var issued := Issued(s, HistoryAfter(s, earlier).clock, EstimateAfter(s, earlier), call);
      if !call.Initialize? && issued.Some? {
        assert IssuedSince(s, calls)[..|IssuedSince(s, calls)| - 1] == IssuedSince(s, earlier);
      }
    }
  }

  // ----- What a slot holds -----

  /** The call that predicted slot i: the tick with just i ticks after it. */
  function CallOf(s: Setup, calls: seq<Call>, i: nat): (m: nat)
    requires s.slots >= 1 && i < HistoryAfter(s, calls).predictions
    ensures m < |calls| && calls[m].Update?
    decreases |calls|
  {
    var earlier, call := calls[..|calls| - 1], calls[|calls| - 1];
    assert Events(earlier) == Events(calls)[..|calls| - 1];
    if call.Update? && DelayTable.Running(HistoryAfter(s, earlier).clock) then
      if i == 0 then |calls| - 1 else CallOf(s, earlier, i - 1)
    else CallOf(s, earlier, i)
  }

  /** No call from m on has made a correction. */
  ghost predicate Uncorrected(s: Setup, calls: seq<Call>, m: nat)
    requires Proper(s) && AllFitting(calls, s.x.rows)
  {
    forall k :: m <= k < |calls| ==> !Corrects(s, calls, k)
  }

  ghost predicate Corrects(s: Setup, calls: seq<Call>, k: nat)
    requires Proper(s) && AllFitting(calls, s.x.rows) && k < |calls|
  {
    var cmd := Issued(s, HistoryAfter(s, calls[..k]).clock, EstimateAfter(s, calls[..k]), calls[k]);
    cmd.Some? && cmd.value.Correct?
  }

  /** The state that the tick of call m predicts. */
  function PredictedBy(s: Setup, calls: seq<Call>, m: nat): (x: Matrix)
    requires Proper(s) && AllFitting(calls, s.x.rows) && m < |calls| && calls[m].Update?
  {
    var clock := DelayTable.Next(HistoryAfter(s, calls[..m]).clock, DelayTable.Tick(calls[m].now));
    calls[m].model(StateSlot(EstimateAfter(s, calls[..m]).x, s.x.rows, 0), clock.ekfDt).0
  }

  /**
   * Over every run: the tick that predicted slot i came at created[i]; the slot holds what the filter's commands have
   * made of the state that tick predicted, and that very state when no correction has been made since.
   */
  lemma {:induction false} SlotHoldsItsTick(s: Setup, calls: seq<Call>, i: nat)
    requires Proper(s) && AllFitting(calls, s.x.rows) && i < s.slots && i < HistoryAfter(s, calls).predictions
    ensures var m := CallOf(s, calls, i);
            && HistoryAfter(s, calls).created[i] == Some(calls[m].now)
            && (Uncorrected(s, calls, m + 1) ==>
                  StateSlot(EstimateAfter(s, calls).x, s.x.rows, i) == PredictedBy(s, calls, m))
    decreases |calls|
  {
    hide StateSlot, IsLltSolver, EstimateAfter, DelayTable.After, DelayTable.Next, Uncorrected, PredictedBy, Fitting, HistoryAfter;
    var m := CallOf(s, calls, i);
    var earlier, call := calls[..|calls| - 1], calls[|calls| - 1];
    var ran := call.Update? && DelayTable.Running(HistoryAfter(s, earlier).clock);
    CallEarlier(s, calls, i);
    assert calls == earlier + [call];
    if ran {
      TickMoves(s, earlier, call, i);
    }
    if !ran || i > 0 {
      SlotHoldsItsTick(s, earlier, if ran then i - 1 else i);
      PredictedEarlier(s, calls, m);
      if Uncorrected(s, calls, m + 1) {
        UncorrectedEarlier(s, calls, m + 1);
        if !ran {
          NoTickKeeps(s, earlier, call);
        }
      }
    }
  }

  lemma HistoryCounts(s: Setup, calls: seq<Call>)
    requires s.slots >= 1
    ensures HistoryAfter(s, calls).predictions > 0 ==> calls != []
  {
  }

  /** How the tick of slot i is found, and its time, from the calls but the last. */
  lemma CallEarlier(s: Setup, calls: seq<Call>, i: nat)
    requires Proper(s) && AllFitting(calls, s.x.rows) && i < HistoryAfter(s, calls).predictions
    ensures calls != [] && !calls[|calls| - 1].Initialize?
    ensures var earlier, call := calls[..|calls| - 1], calls[|calls| - 1];
            var h, before := HistoryAfter(s, calls), HistoryAfter(s, earlier);
            if call.Update? && DelayTable.Running(before.clock) then
              if i == 0 then CallOf(s, calls, i) == |calls| - 1 && h.created[0] == Some(call.now)
              else
                && i - 1 < before.predictions && CallOf(s, calls, i) == CallOf(s, earlier, i - 1)
                && (i < s.slots ==> h.created[i] == before.created[i - 1])
            else
              && i < before.predictions && CallOf(s, calls, i) == CallOf(s, earlier, i)
              && (i < s.slots ==> h.created[i] == before.created[i])
  {
    hide EstimateAfter, Advanced, IsLltSolver, HistoryAfter, DelayTable.Next;
    HistoryCounts(s, calls);
    var earlier, call := calls[..|calls| - 1], calls[|calls| - 1];
    assert calls == earlier + [call];
    OneMoreCall(s, earlier, call);
  }

  /** A tick that runs puts its prediction in slot 0 and moves every other slot on. */
  lemma TickMoves(s: Setup, earlier: seq<Call>, call: Call, i: nat)
    requires Proper(s) && AllFitting(earlier + [call], s.x.rows) && AllFitting(earlier, s.x.rows) && i < s.slots
    requires call.Update? && DelayTable.Running(HistoryAfter(s, earlier).clock)
    ensures StateSlot(EstimateAfter(s, earlier + [call]).x, s.x.rows, i)
         == if i == 0 then PredictedBy(s, earlier + [call], |earlier|) else StateSlot(EstimateAfter(s, earlier).x, s.x.rows, i - 1)
  {
    hide StateSlot, Step, IsLltSolver;
    var e := EstimateAfter(s, earlier);
    assert (earlier + [call])[|earlier|] == call && (earlier + [call])[..|earlier|] == earlier;
    assert Fitting(call, s.x.rows);
    OneMoreCall(s, earlier, call);
    var issued := Issued(s, HistoryAfter(s, earlier).clock, e, call);
    PredictMoves(e, s.x.rows, s.slots, issued.value, s.solve, i);
  }

  /** A call that is no tick, no initial pose and no correction leaves the filter alone. */
  lemma NoTickKeeps(s: Setup, earlier: seq<Call>, call: Call)
    requires Proper(s) && AllFitting(earlier + [call], s.x.rows) && AllFitting(earlier, s.x.rows)
    requires !call.Initialize? && !(call.Update? && DelayTable.Running(HistoryAfter(s, earlier).clock))
    requires !Corrects(s, earlier + [call], |earlier|)
    ensures EstimateAfter(s, earlier + [call]) == EstimateAfter(s, earlier)
  {
    hide StateSlot, Step, IsLltSolver;
    assert (earlier + [call])[|earlier|] == call && (earlier + [call])[..|earlier|] == earlier;
    OneMoreCall(s, earlier, call);
  }

  lemma PredictedEarlier(s: Setup, calls: seq<Call>, m: nat)
    requires Proper(s) && AllFitting(calls, s.x.rows) && m < |calls| - 1 && calls[m].Update?
    ensures AllFitting(calls[..|calls| - 1], s.x.rows)
    ensures PredictedBy(s, calls, m) == PredictedBy(s, calls[..|calls| - 1], m)
  {
    assert calls[..|calls| - 1][..m] == calls[..m];
  }

  lemma UncorrectedEarlier(s: Setup, calls: seq<Call>, m: nat)
    requires Proper(s) && AllFitting(calls, s.x.rows) && m < |calls| && Uncorrected(s, calls, m)
    ensures AllFitting(calls[..|calls| - 1], s.x.rows)
    ensures Uncorrected(s, calls[..|calls| - 1], m) && !Corrects(s, calls, |calls| - 1)
  {
    var earlier := calls[..|calls| - 1];
    forall k | m <= k < |earlier|
      ensures !Corrects(s, earlier, k)
    {
      assert !Corrects(s, calls, k) && earlier[..k] == calls[..k];
    }
  }

  /** The tick of call m ran the model on the newest state before it, at the time since call k, or at 10 s if that is longer. */
  ghost predicate PredictedSince(s: Setup, calls: seq<Call>, m: nat, k: nat)
    requires Proper(s) && AllFitting(calls, s.x.rows) && m < |calls| && calls[m].Update? && k < |calls| && calls[k].Update?
  {
    var dt := calls[m].now - calls[k].now;
    && dt >= 0.0
    && PredictedBy(s, calls, m)
       == calls[m].model(StateSlot(EstimateAfter(s, calls[..m]).x, s.x.rows, 0), if dt > 10.0 then 10.0 else dt).0
  }

  /**
   * Over every run: a tick that aged the table predicted its state from the newest state before it, by the model at the
   * time since the tick before, or at 10 s when that is longer.
   */
  lemma {:induction false} StateIsPredictedByItsStep(s: Setup, calls: seq<Call>, i: nat)
    requires Proper(s) && AllFitting(calls, s.x.rows)
    requires i + 1 < HistoryAfter(s, calls).predictions && i < HistoryAfter(s, calls).unbroken
    ensures PredictedSince(s, calls, CallOf(s, calls, i), CallOf(s, calls, i + 1))
    decreases |calls|
  {
    hide StateSlot, IsLltSolver, EstimateAfter, HistoryAfter, CallOf, PredictedBy, PredictedSince, Fitting;
    var m, k := CallOf(s, calls, i), CallOf(s, calls, i + 1);
    var earlier, call := calls[..|calls| - 1], calls[|calls| - 1];
    CallEarlier(s, calls, i);
    CallEarlier(s, calls, i + 1);
    CountsEarlier(s, calls);
    assert calls == earlier + [call];
    var ran := call.Update? && DelayTable.Running(HistoryAfter(s, earlier).clock);
    if ran && i == 0 {
      LastPredictedByItsStep(s, earlier, call);
    } else {
      StateIsPredictedByItsStep(s, earlier, if ran then i - 1 else i);
      PredictedSinceEarlier(s, calls, m, k);
    }
  }

  lemma CountsEarlier(s: Setup, calls: seq<Call>)
    requires Proper(s) && AllFitting(calls, s.x.rows) && HistoryAfter(s, calls).predictions > 0 && calls != []
    ensures var h, before := HistoryAfter(s, calls), HistoryAfter(s, calls[..|calls| - 1]);
            if calls[|calls| - 1].Update? && DelayTable.Running(before.clock) then
              h.predictions == before.predictions + 1 && (h.unbroken > 0 ==> h.unbroken == before.unbroken + 1)
            else h.predictions == before.predictions && h.unbroken == before.unbroken
  {
    hide StateSlot, IsLltSolver, EstimateAfter, Advanced, HistoryAfter, DelayTable.Next;
    var earlier, call := calls[..|calls| - 1], calls[|calls| - 1];
    assert calls == earlier + [call];
    OneMoreCall(s, earlier, call);
  }

  lemma PredictedSinceEarlier(s: Setup, calls: seq<Call>, m: nat, k: nat)
    requires Proper(s) && AllFitting(calls, s.x.rows) && m < |calls| - 1 && k < |calls| - 1
    requires calls[m].Update? && calls[k].Update? && AllFitting(calls[..|calls| - 1], s.x.rows)
    ensures PredictedSince(s, calls, m, k) == PredictedSince(s, calls[..|calls| - 1], m, k)
  {
    hide StateSlot, IsLltSolver, EstimateAfter, PredictedBy, HistoryAfter;
    PredictedEarlier(s, calls, m);
    assert calls[..|calls| - 1][..m] == calls[..m];
  }

  lemma PredictedByLast(s: Setup, earlier: seq<Call>, call: Call)
    requires Proper(s) && AllFitting(earlier, s.x.rows) && AllFitting(earlier + [call], s.x.rows) && call.Update?
    ensures PredictedBy(s, earlier + [call], |earlier|)
         == call.model(StateSlot(EstimateAfter(s, earlier).x, s.x.rows, 0),
                       DelayTable.Next(HistoryAfter(s, earlier).clock, DelayTable.Tick(call.now)).ekfDt).0
  {
    assert (earlier + [call])[..|earlier|] == earlier && (earlier + [call])[|earlier|] == call;
  }

  lemma LastPredictedByItsStep(s: Setup, earlier: seq<Call>, call: Call)
    requires Proper(s) && AllFitting(earlier, s.x.rows) && AllFitting(earlier + [call], s.x.rows) && call.Update?
    requires HistoryAfter(s, earlier).predictions > 0 && HistoryAfter(s, earlier + [call]).unbroken > 0
    requires DelayTable.Running(HistoryAfter(s, earlier).clock)
    ensures PredictedSince(s, earlier + [call], |earlier|, CallOf(s, earlier, 0))
  {
    hide StateSlot, IsLltSolver, EstimateAfter, HistoryAfter, CallOf, Advanced, DelayTable.Next, DelayTable.Follow;
    assert (earlier + [call])[..|earlier|] == earlier && (earlier + [call])[|earlier|] == call;
    assert Fitting(call, s.x.rows);
    hide Fitting, AllFitting, PredictedBy;
    OneMoreCall(s, earlier, call);
    PredictedByLast(s, earlier, call);
    DelayTable.StepOfAgingTick(HistoryAfter(s, earlier), call.now);
    LastTickIsNewest(s, earlier);
  }

  lemma LastTickIsNewest(s: Setup, calls: seq<Call>)
    requires Proper(s) && AllFitting(calls, s.x.rows) && HistoryAfter(s, calls).predictions > 0
    requires HistoryAfter(s, calls).clock.last.Some?
    ensures HistoryAfter(s, calls).clock.last.value == calls[CallOf(s, calls, 0)].now
  {
    hide StateSlot, Step, IsLltSolver, EstimateAfter, DelayTable.After;
    DelayTable.HistoryIsConsistent(s.slots, Events(calls));
    SlotHoldsItsTick(s, calls, 0);
  }

  /** Before any tick has aged the table the model is run at time step zero. */
  lemma {:induction false} NoStepBeforeAging(s: Setup, calls: seq<Call>)
    requires Proper(s) && AllFitting(calls, s.x.rows)
    ensures HistoryAfter(s, calls).accumulated == 0 ==> HistoryAfter(s, calls).clock.ekfDt == 0.0
  {
    hide StateSlot, Step, IsLltSolver, EstimateAfter, Advanced;
    if calls == [] {
    } else {
      var earlier := calls[..|calls| - 1];
      assert calls == earlier + [calls[|calls| - 1]];
      NoStepBeforeAging(s, earlier);
      OneMoreCall(s, earlier, calls[|calls| - 1]);
    }
  }

  lemma {:induction false} IssuedByItsTick(s: Setup, calls: seq<Call>, i: nat)
    requires Proper(s) && AllFitting(calls, s.x.rows) && i < s.slots && i < HistoryAfter(s, calls).predictions
    ensures var cmds := IssuedSince(s, calls);
            i < Predictions(cmds) && cmds[PredictionOf(cmds, i)].xNext == PredictedBy(s, calls, CallOf(s, calls, i))
    decreases |calls|
  {
    hide StateSlot, Step, TimeDelayFilter.Initial, IsLltSolver, Run, EstimateAfter, HistoryAfter, LastPose;
    var cmds, m := IssuedSince(s, calls), CallOf(s, calls, i);
    TicksPredict(s, calls);
    CallEarlier(s, calls, i);
    var earlier, call := calls[..|calls| - 1], calls[|calls| - 1];
    var issued := Issued(s, HistoryAfter(s, earlier).clock, EstimateAfter(s, earlier), call);
    if issued.Some? {
      assert cmds[..|cmds| - 1] == IssuedSince(s, earlier);
    }
    if m < |calls| - 1 {
      PredictedEarlier(s, calls, m);
      IssuedByItsTick(s, earlier, if issued.Some? && issued.value.Predict? then i - 1 else i);
    }
  }

  /**
   * Over every run: for the slots predicted since the last initial pose and since the last tick that did not age the
   * table, and but for the slot of the first tick ever, the table's entry is the time between the tick that predicted
   * the slot's state and the last tick, if and only if no step in between exceeded 10 s.
   */
  lemma TableAgesTheSlots(s: Setup, calls: seq<Call>, i: nat)
    requires Proper(s) && AllFitting(calls, s.x.rows) && DelayTable.Follows(HistoryAfter(s, calls), i)
    requires i < HistoryAfter(s, calls).accumulated
    ensures var h := HistoryAfter(s, calls);
            var newest, predicted := calls[CallOf(s, calls, 0)].now, calls[CallOf(s, calls, i)].now;
            h.clock.table[i] == newest - predicted <==> DelayTable.ShortSteps(h.created, i)
  {
    DelayTable.TableIsAge(s.slots, Events(calls), i);
    SlotHoldsItsTick(s, calls, i);
    SlotHoldsItsTick(s, calls, 0);
  }

  /**
   * In one activation, with no tick more than 10 s after the one before: the entry is the time between the tick that
   * predicted the slot's state and the last tick if and only if the clock did not jump back in between.
   */
  lemma TableAgesUpToJump(s: Setup, calls: seq<Call>, i: nat)
    requires Proper(s) && AllFitting(calls, s.x.rows) && DelayTable.OneActivation(s.slots, Events(calls)) && i < s.slots
    requires i < HistoryAfter(s, calls).accumulated && i < HistoryAfter(s, calls).predictions
    ensures var h := HistoryAfter(s, calls);
            var newest, predicted := calls[CallOf(s, calls, 0)].now, calls[CallOf(s, calls, i)].now;
            h.clock.table[i] == newest - predicted <==> i <= h.unbroken
  {
    DelayTable.TableIsAgeUpToJump(s.slots, Events(calls), i);
    SlotHoldsItsTick(s, calls, i);
    SlotHoldsItsTick(s, calls, 0);
  }

  /**
   * What the table is for: in the first activation, with steps of at most 10 s, a measurement that is used at the last
   * tick corrects a state predicted as near to the measured time as any state kept, but for that of the first tick.
   */
  lemma CorrectsNearestState(s: Setup, calls: seq<Call>, reading: Reading, i: nat)
    requires Proper(s) && AllFitting(calls, s.x.rows)
    requires var h := HistoryAfter(s, calls);
             && DelayTable.FirstRun(h) && DelayTable.ShortSteps(h.created, s.slots) && i < s.slots && i < h.accumulated
             && h.clock.last == Some(reading.now) && DelayTime(reading) < DelayTable.REACH
    ensures var cmd := Issued(s, HistoryAfter(s, calls).clock, EstimateAfter(s, calls), Measure(reading));
            cmd.Some? ==>
              && cmd.value.Correct? && 0 <= cmd.value.delayStep < HistoryAfter(s, calls).accumulated
              && var measured := reading.stamp - reading.additional;
                 Abs(measured - calls[CallOf(s, calls, cmd.value.delayStep)].now)
                 <= Abs(measured - calls[CallOf(s, calls, i)].now)
  {
    hide EstimateAfter, IsLltSolver, StateSlot, DelayTable.After, CallOf;
    var h := HistoryAfter(s, calls);
    var cmd := Issued(s, h.clock, EstimateAfter(s, calls), Measure(reading));
    if cmd.Some? {
      var j := DelayTable.ClosestIndex(h.clock.table, DelayTime(reading));
      DelayTable.OnlyReachedSlotsAreChosen(s.slots, Events(calls), DelayTime(reading));
      EntryIsAge(s, calls, i, reading.now);
      EntryIsAge(s, calls, j, reading.now);
      assert Abs(DelayTime(reading) - h.clock.table[j]) <= Abs(DelayTime(reading) - h.clock.table[i]);
    }
  }

  lemma EntryIsAge(s: Setup, calls: seq<Call>, i: nat, now: real)
    requires Proper(s) && AllFitting(calls, s.x.rows)
    requires var h := HistoryAfter(s, calls);
             && DelayTable.FirstRun(h) && DelayTable.ShortSteps(h.created, s.slots) && i < s.slots && i < h.accumulated
             && h.clock.last == Some(now)
    ensures HistoryAfter(s, calls).clock.table[i] == now - calls[CallOf(s, calls, i)].now >= 0.0
  {
    hide EstimateAfter, IsLltSolver, StateSlot, DelayTable.After, CallOf;
    var h := HistoryAfter(s, calls);
    DelayTable.HistoryIsConsistent(s.slots, Events(calls));
    DelayTable.TableStaysSorted(s.slots, Events(calls));
    DelayTable.FirstRunEntry(s.slots, Events(calls), i);
    SlotHoldsItsTick(s, calls, i);
  }

  // ----- The covariance over every run -----

  /** Poses, process noise and measurement noise with covariances. */
  ghost predicate ProperNoises(call: Call, n: nat) {
    match call
    case Activate(_) => true
    case Initialize(_, p) => IsCovariance(p)
    case Update(_, model) => forall x: Matrix, dt: real :: x.rows == n && x.cols == 1 ==> IsCovariance(model(x, dt).2)
    case Measure(reading) => Square(reading.r) ==> IsCovariance(reading.r)
  }

  lemma {:induction false} IssuedNoise(s: Setup, calls: seq<Call>)
    requires Proper(s) && AllFitting(calls, s.x.rows) && IsCovariance(s.p)
    requires forall i :: 0 <= i < |calls| ==> ProperNoises(calls[i], s.x.rows)
    ensures forall cmd :: cmd in IssuedSince(s, calls) ==> ProperNoise(cmd)
    ensures IsCovariance(LastPose(s, calls).1)
  {
    hide IsCovariance, StateSlot, Step;
    if calls == [] {
    } else {
      assert ProperNoises(calls[|calls| - 1], s.x.rows);
      IssuedNoise(s, calls[..|calls| - 1]);
    }
  }

  /**
   * Over every run of activations, initial poses, ticks and measurements: the filter holds exactly what the dense filter
   * on the augmented matrices makes of the same commands, and its covariance is symmetric positive semidefinite.
   */
  lemma RunIsDenseAndKeepsCovariance(s: Setup, calls: seq<Call>)
    requires Proper(s) && AllFitting(calls, s.x.rows) && IsCovariance(s.p)
    requires forall i :: 0 <= i < |calls| ==> ProperNoises(calls[i], s.x.rows)
    ensures IsCovariance(EstimateAfter(s, calls).p)
    ensures var (x, p) := LastPose(s, calls);
            && x.rows == s.x.rows && x.cols == 1 && Square(p) && p.rows == s.x.rows
            && EstimateAfter(s, calls)
               == DenseRun(TimeDelayFilter.Initial(x, p, s.slots), s.x.rows, s.slots, IssuedSince(s, calls), s.solve)
  {
    hide IsCovariance;
    RunIsFilterRun(s, calls);
    IssuedNoise(s, calls);
    var (x, p) := LastPose(s, calls);
    TimeDelayFilter.RunIsDenseAndKeepsCovariance(x, p, s.slots, IssuedSince(s, calls), s.solve);
  }

  /**
   * Over every run, corrections included: slot i holds the state its tick predicted, plus for every correction since then
   * the gain of the slot the state was in times the innovation.
   */
  lemma SlotIsTraced(s: Setup, calls: seq<Call>, i: nat)
    requires Proper(s) && AllFitting(calls, s.x.rows) && i < s.slots && i < HistoryAfter(s, calls).predictions
    requires IsCovariance(s.p) && forall k :: 0 <= k < |calls| ==> ProperNoises(calls[k], s.x.rows)
    ensures var (x, p) := LastPose(s, calls);
            var cmds := IssuedSince(s, calls);
            && x.rows == s.x.rows && x.cols == 1 && Square(p) && p.rows == s.x.rows && i < Predictions(cmds)
            && StateSlot(EstimateAfter(s, calls).x, s.x.rows, i)
               == Traced(TimeDelayFilter.Initial(x, p, s.slots), s.x.rows, s.slots, cmds, s.solve, i)
            && cmds[PredictionOf(cmds, i)].xNext == PredictedBy(s, calls, CallOf(s, calls, i))
  {
    hide StateSlot, Step, IsCovariance, IsLltSolver;
    var (x, p) := LastPose(s, calls);
    var cmds := IssuedSince(s, calls);
    RunIsFilterRun(s, calls);
    TicksPredict(s, calls);
    IssuedNoise(s, calls);
    BlockDiagonalCovariance(p, s.slots, s.slots * s.x.rows);
    TimeDelayFilter.SlotIsTraced(TimeDelayFilter.Initial(x, p, s.slots), s.x.rows, s.slots, cmds, s.solve, i);
    IssuedByItsTick(s, calls, i);
  }

  // ----- The object -----

  class EkfLocalizer {
    const setup: Setup
    const accumulatedDelayTimes: array<real>
    const filter: TimeDelayKalmanFilter
    var ekfDt: real
    var lastPredictTime: Option<real>
    var isActivated: bool
    var isSetInitialPose: bool
    /** Everything called on the object since construction. */
    ghost var calls: seq<Call>

    function View(): DelayTable.Clock
      reads this, accumulatedDelayTimes
    {
      DelayTable.Clock(accumulatedDelayTimes[..], ekfDt, lastPredictTime, isActivated, isSetInitialPose)
    }

    /** The object holds what its calls have made of it. */
    ghost predicate Valid()
      reads this, accumulatedDelayTimes, filter
    {
      && Proper(setup) && AllFitting(calls, setup.x.rows)
      && View() == HistoryAfter(setup, calls).clock
      && filter.Valid() && filter.maxDelayStep == setup.slots && filter.dimX == setup.x.rows
      && filter.State() == EstimateAfter(setup, calls)
    }

    /** When the state in each slot was predicted; None for a slot that still holds an initial pose. */
    ghost function Created(): seq<Option<real>>
      reads this
      requires setup.slots >= 1
    {
      HistoryAfter(setup, calls).created
    }

    constructor (s: Setup)
      requires Proper(s)
      ensures Valid() && calls == [] && setup == s && !isActivated && !isSetInitialPose
      ensures accumulatedDelayTimes.Length == s.slots && lastPredictTime == None && ekfDt == 0.0
      ensures forall i :: 0 <= i < s.slots ==> accumulatedDelayTimes[i] == 1000000000000000.0
      ensures filter.State() == TimeDelayFilter.Initial(s.x, s.p, s.slots)
      ensures fresh(accumulatedDelayTimes) && fresh(filter)
    {
      setup := s;
      accumulatedDelayTimes := new real[s.slots](_ => DelayTable.UNREACHED);
      filter := new TimeDelayKalmanFilter();
      ekfDt, lastPredictTime := 0.0, None;
      isActivated, isSetInitialPose := false, false;
      calls := [];
      new;
      filter.Init(s.x, s.p, s.slots);
      assert accumulatedDelayTimes[..] == seq(s.slots, _ => DelayTable.UNREACHED);
    }

    method Activate(active: bool)
      requires Valid()
      modifies this`lastPredictTime, this`isActivated, this`isSetInitialPose, this`calls
      ensures Valid() && calls == old(calls) + [Call.Activate(active)] && isActivated == active
      ensures isSetInitialPose == (active && old(isSetInitialPose)) && Created() == old(Created())
      ensures lastPredictTime == if active then None else old(lastPredictTime)
    {
      hide IsLltSolver, AllFitting, Step, DelayTable.After, EstimateAfter;
      OneMoreCall(setup, calls, Call.Activate(active));
      if active {
        lastPredictTime := None;
        isActivated := true;
      } else {
        isActivated := false;
        isSetInitialPose := false;
      }
      calls := calls + [Call.Activate(active)];
    }

    /** A new initial pose restarts the filter, so no slot holds a prediction; the table keeps its ages. */
    method Initialize(x: Matrix, p: Matrix)
      requires Valid() && Fitting(Call.Initialize(x, p), setup.x.rows)
      modifies this`isSetInitialPose, this`calls, filter
      ensures Valid() && calls == old(calls) + [Call.Initialize(x, p)] && isSetInitialPose
      ensures filter.State() == TimeDelayFilter.Initial(x, p, setup.slots)
      ensures Created() == seq(setup.slots, _ => None)
    {
      hide IsLltSolver, AllFitting, Step, DelayTable.After, EstimateAfter;
      OneMoreCall(setup, calls, Call.Initialize(x, p));
      filter.Init(x, p, setup.slots);
      isSetInitialPose := true;
      calls := calls + [Call.Initialize(x, p)];
    }

    /** std::copy_backward over the whole table but its last entry: every age moves one slot on. */
    method ShiftAges()
      requires accumulatedDelayTimes.Length >= 1
      modifies accumulatedDelayTimes
      ensures accumulatedDelayTimes[0] == old(accumulatedDelayTimes[0])
      ensures forall i :: 1 <= i < accumulatedDelayTimes.Length ==>
                accumulatedDelayTimes[i] == old(accumulatedDelayTimes[..])[i - 1]
    {
      forall i | 1 <= i < accumulatedDelayTimes.Length {
        accumulatedDelayTimes[i] := accumulatedDelayTimes[i - 1];
      }
    }

    method AccumulateDelayTime(dt: real)
      requires accumulatedDelayTimes.Length >= 1
      modifies accumulatedDelayTimes
      ensures accumulatedDelayTimes[..] == DelayTable.Accumulated(old(accumulatedDelayTimes[..]), dt)
    {
      ghost var before := accumulatedDelayTimes[..];
      ShiftAges();
      accumulatedDelayTimes[0] := 0.0;
      for i := 1 to accumulatedDelayTimes.Length
        invariant accumulatedDelayTimes[0] == 0.0
        invariant forall k :: 1 <= k < accumulatedDelayTimes.Length ==>
                    accumulatedDelayTimes[k] == if k < i then before[k - 1] + dt else before[k - 1]
      {
        accumulatedDelayTimes[i] := accumulatedDelayTimes[i] + dt;
      }
    }

    /** The time step of update_step: ages the table by the time since the last tick, except after a jump back. */
    method AdvanceClock(now: real)
      requires accumulatedDelayTimes.Length >= 1 && isActivated && isSetInitialPose
      modifies this`ekfDt, this`lastPredictTime, accumulatedDelayTimes
      ensures View() == DelayTable.Next(old(View()), DelayTable.Tick(now))
      ensures lastPredictTime == Some(now)
      ensures if old(lastPredictTime).Some? && now >= old(lastPredictTime).value then
                var dt := now - old(lastPredictTime).value;
                && ekfDt == (if dt > 10.0 then 10.0 else dt)
                && accumulatedDelayTimes[0] == 0.0
                && forall i :: 1 <= i < accumulatedDelayTimes.Length ==>
                     accumulatedDelayTimes[i] == old(accumulatedDelayTimes[..])[i - 1] + ekfDt
              else ekfDt == old(ekfDt) && accumulatedDelayTimes[..] == old(accumulatedDelayTimes[..])
    {
      if lastPredictTime.Some? {
        if now < lastPredictTime.value {
          // the table is left alone
        } else {
          ekfDt := now - lastPredictTime.value;
          if ekfDt > 10.0 {
            ekfDt := 10.0;
          }
          AccumulateDelayTime(ekfDt);
        }
      }
      lastPredictTime := Some(now);
    }

    method PredictWithDelay(dt: real, model: MotionModel)
      requires filter.Valid() && IsMotionModel(model, filter.dimX)
      modifies this`ekfDt, filter`x, filter`p
      ensures filter.Valid() && ekfDt == dt
      ensures var m := model(StateSlot(old(filter.x), filter.dimX, 0), dt);
              && filter.dimX <= filter.x.rows && m.0.rows == m.1.rows == m.1.cols == m.2.rows == m.2.cols == filter.dimX && m.0.cols == 1
              && filter.State() == Estimate(ShiftedState(old(filter.x), m.0), ShiftedCovariance(old(filter.p), m.1, m.2))
    {
      hide IsMotionModel, ShiftedState, ShiftedCovariance;
      var xCurr := filter.GetLatestX();
      NewestState(filter.x, filter.dimX);
      ModelFits(model, filter.dimX, xCurr, dt);
      var m := model(xCurr, dt);
      var _ := filter.PredictWithDelay(m.0, m.1, m.2);
      ekfDt := dt;
    }

    /**
     * One tick. The newest slot gets the state the model predicts from the one before, and every slot moves on by one;
     * so does the table, except on the first tick after activation and after a jump back.
     */
    method UpdateStep(now: real, model: MotionModel) returns (ran: bool)
      requires Valid() && IsMotionModel(model, setup.x.rows)
      modifies this`ekfDt, this`lastPredictTime, this`calls, accumulatedDelayTimes, filter`x, filter`p
      ensures Valid() && calls == old(calls) + [Update(now, model)]
      ensures ran == (isActivated && isSetInitialPose)
      ensures !ran ==> View() == old(View()) && filter.State() == old(filter.State()) && Created() == old(Created())
      ensures ran ==> Created() == [Some(now)] + old(Created())[..setup.slots - 1] && lastPredictTime == Some(now)
      ensures ran ==>
                if old(lastPredictTime).Some? && now >= old(lastPredictTime).value then
                  var dt := now - old(lastPredictTime).value;
                  && ekfDt == (if dt > 10.0 then 10.0 else dt)
                  && accumulatedDelayTimes[0] == 0.0
                  && forall i :: 1 <= i < accumulatedDelayTimes.Length ==>
                       accumulatedDelayTimes[i] == old(accumulatedDelayTimes[..])[i - 1] + ekfDt
                else ekfDt == old(ekfDt) && accumulatedDelayTimes[..] == old(accumulatedDelayTimes[..])
      ensures ran ==> StateSlot(filter.x, filter.dimX, 0) == model(old(StateSlot(filter.x, filter.dimX, 0)), ekfDt).0
      ensures ran ==> forall b :: 0 <= b < setup.slots - 1 ==>
                StateSlot(filter.x, filter.dimX, b + 1) == old(StateSlot(filter.x, filter.dimX, b))
    {
      hide IsLltSolver, AllFitting, DelayTable.After, EstimateAfter, IsMotionModel, ShiftedState, ShiftedCovariance, StateSlot;
      OneMoreCall(setup, calls, Update(now, model));
      ghost var e, cmd := filter.State(), Issued(setup, View(), filter.State(), Update(now, model));
      if !isActivated || !isSetInitialPose {
        calls := calls + [Update(now, model)];
        return false;
      }
      forall b | 0 <= b < setup.slots
        ensures StateSlot(Step(e, filter.dimX, setup.slots, cmd.value, setup.solve).x, filter.dimX, b)
             == if b == 0 then cmd.value.xNext else StateSlot(e.x, filter.dimX, b - 1)
      {
        PredictMoves(e, filter.dimX, setup.slots, cmd.value, setup.solve, b);
      }
      AdvanceClock(now);
      PredictWithDelay(ekfDt, model);
      calls := calls + [Update(now, model)];
      return true;
    }

    /**
     * The pose and twist updates up to and including the filter update. The result of the filter update itself is
     * ignored.
     */
    method MeasurementUpdate(reading: Reading) returns (updated: bool)
      requires Valid()
      modifies this`calls, filter`x, filter`p
      ensures Valid() && calls == old(calls) + [Measure(reading)] && Created() == old(Created())
      ensures Nondecreasing(accumulatedDelayTimes[..])
      ensures var delay := DelayTime(reading);
              var slot := DelayTable.ClosestIndex(accumulatedDelayTimes[..], delay);
              var state := old(StateSlot(filter.x, filter.dimX, slot));
              var latest := old(CovarianceSlot(filter.p, filter.dimX, 0, 0));
              && (updated <==> delay <= accumulatedDelayTimes[setup.slots - 1]
                               && reading.gate(state, reading.read(state), latest))
              && filter.State() == if updated
                                   then Step(old(filter.State()), filter.dimX, setup.slots,
                                             Correct(reading.read(state), reading.c, reading.r, slot), setup.solve)
                                   else old(filter.State())
      // spelled out: a delay within the table and a passed gate correct every slot, by the innovation of the chosen one
      ensures updated ==> reading.now - reading.stamp + reading.additional <= accumulatedDelayTimes[setup.slots - 1]
      ensures var slot := DelayTable.ClosestIndex(accumulatedDelayTimes[..], DelayTime(reading));
              var y := reading.read(old(StateSlot(filter.x, filter.dimX, slot)));
              updated && IsCovariance(old(filter.p)) && IsCovariance(reading.r) && PositiveDefinite(reading.r)
              && reading.c.cols == filter.dimX && y.rows == reading.c.rows == reading.r.rows == reading.r.cols && y.cols == 1 ==>
                EverySlotLearned(old(filter.State()), filter.State(), filter.dimX, setup.slots, y, reading.c, reading.r, slot)
    {
      hide IsLltSolver, AllFitting, DelayTable.After, EstimateAfter, Step, StateSlot, CovarianceSlot, DelayTable.ClosestIndex;
      hide CorrectionAccepted, DelayedCorrects, Advanced, EverySlotLearned, IsCovariance, PositiveDefinite;
      OneMoreCall(setup, calls, Measure(reading));
      MeasureAdvances(setup, View(), filter.State(), reading);
      var delayTime := reading.now - reading.stamp + reading.additional;
      delayTime := Max(delayTime, 0.0);
      var delayStep := DelayTable.ClosestIndex(accumulatedDelayTimes[..], delayTime);
      calls := calls + [Measure(reading)];
      if delayStep >= setup.slots {
        return false;
      }
      SlotFits(filter.dimX, delayStep, setup.slots);
      var state := StateSlot(filter.x, filter.dimX, delayStep);
      var y := reading.read(state);
      var latest := filter.GetLatestP();
      NewestCovariance(filter.p, filter.dimX);
      if !reading.gate(state, y, latest) {
        return false;
      }
      var _ := filter.UpdateWithDelay(y, reading.c, reading.r, delayStep, setup.solve);
      return true;
    }
  }
}

/**
 * The table of slot ages that the EKF localizer keeps beside the filter. The table is shifted with the filter's slots,
 * and a measurement's delay is looked up in it to choose the slot to correct.
 */
module DelayTable {
  import opened Wrappers
  import opened Searching

  /** The age every slot starts with: no measurement is that old. */
  const UNREACHED := 1000000000000000.0

  /** The longest step, in seconds, that one tick may add. */
  const MAX_STEP := 10.0

  // ----- The lookup -----

  /**
   * The slot whose age is closest to target; the table size when target exceeds every age. The table must be sorted,
   * as the binary search demands.
   */
  function ClosestIndex(table: seq<real>, target: real): (i: nat)
    requires Nondecreasing(table)
    ensures i == |table| <==> table == [] || target > table[|table| - 1]
    ensures i <= |table|
    ensures i < |table| ==> forall k :: 0 <= k < |table| ==> Abs(target - table[i]) <= Abs(target - table[k])
  {
    if table == [] then 0
    else if target > table[|table| - 1] then |table|
    else
      // lower is a position in the table here, because target does not exceed the last entry
      var lower := LowerBound(table, target);
      if lower == 0 then 0
      else if target - table[lower - 1] < table[lower] - target then lower - 1
      else lower
  }

  /** Of two neighbours as close the later one, of equal entries the first not below target or the last below it. */
  lemma TiesOfClosestIndex(table: seq<real>, target: real)
    requires Nondecreasing(table)
    ensures var i := ClosestIndex(table, target);
            && (i < |table| && table[i] < target ==> i + 1 < |table| && target - table[i] < table[i + 1] - target)
            && (0 < i < |table| && table[i] >= target ==>
                  table[i - 1] < target && table[i] - target <= target - table[i - 1])
  {
  }

  // ----- The clock -----

  /** What reaches the table: activation or deactivation, a new initial pose, a tick, a measurement. */
  datatype Event = Activate(active: bool) | Initialize | Tick(t: real) | Measurement

  /** The table with the state of the localizer that drives it. */
  datatype Clock = Clock(table: seq<real>, ekfDt: real, last: Option<real>, activated: bool, initialised: bool)

  predicate Running(c: Clock) {
    c.activated && c.initialised
  }

  /** The event is a tick that ages the table: not the first since activation, and not a jump back. */
  predicate Ages(c: Clock, e: Event) {
    e.Tick? && Running(c) && c.last.Some? && e.t >= c.last.value
  }

  function Accumulated(table: seq<real>, dt: real): (r: seq<real>)
    requires table != []
    ensures |r| == |table|
  {
    [0.0] + seq(|table| - 1, i requires 0 <= i < |table| - 1 => table[i] + dt)
  }

  function Next(c: Clock, e: Event): (r: Clock)
    requires c.table != []
    ensures |r.table| == |c.table|
  {
    match e
    case Activate(active) =>
      if active then c.(last := None, activated := true) else c.(activated := false, initialised := false)
    case Initialize => c.(initialised := true)
    case Tick(t) =>
      if Ages(c, e) then
        var dt := Min(t - c.last.value, MAX_STEP);
        c.(table := Accumulated(c.table, dt), ekfDt := dt, last := Some(t))
      else if Running(c) then c.(last := Some(t))
      else c
    case Measurement => c
  }

  // ----- What the slots of the filter hold -----

  /**
   * The clock beside what the filter's slots hold: created[i] is the time of the tick that predicted slot i, None for a
   * slot that still holds the initial pose. predictions counts the ticks since that pose was set, accumulated all ticks
   * that ever aged the table, and unbroken those of them since the last tick that did not.
   */
  datatype History = History(clock: Clock, created: seq<Option<real>>, predictions: nat, accumulated: nat, unbroken: nat)

  /** One event. Every tick of a running localizer shifts the filter's slots, whether or not it ages the table. */
  function Follow(h: History, e: Event): (r: History)
    requires h.clock.table != [] && |h.created| == |h.clock.table|
    ensures |r.created| == |r.clock.table| == |h.clock.table|
    ensures r.clock == Next(h.clock, e)
  {
    var n, clock := |h.created|, Next(h.clock, e);
    if e.Initialize? then
      History(clock, seq(n, _ => None), 0, h.accumulated, h.unbroken)
    else if e.Tick? && Running(h.clock) then
      var ages := Ages(h.clock, e);
      History(clock, [Some(e.t)] + h.created[..n - 1], h.predictions + 1,
              if ages then h.accumulated + 1 else h.accumulated, if ages then h.unbroken + 1 else 0)
    else
      h.(clock := clock)
  }

  /** A tick that ages the table sets the time step: the time since the tick before, or 10 s when that is longer. */
  lemma StepOfAgingTick(h: History, t: real)
    requires h.clock.table != [] && |h.created| == |h.clock.table| && Running(h.clock)
    requires Follow(h, Tick(t)).unbroken > 0
    ensures h.clock.last.Some? && t >= h.clock.last.value
    ensures var dt := t - h.clock.last.value;
            Next(h.clock, Tick(t)).ekfDt == if dt > 10.0 then 10.0 else dt
  {
  }

  function Start(slots: nat): History {
    History(Clock(seq(slots, _ => UNREACHED), 0.0, None, false, false), seq(slots, _ => None), 0, 0, 0)
  }

  function After(slots: nat, events: seq<Event>): (h: History)
    requires slots >= 1
    ensures |h.clock.table| == |h.created| == slots
  {
    if events == [] then Start(slots) else Follow(After(slots, events[..|events| - 1]), events[|events| - 1])
  }

  lemma AfterOneMore(slots: nat, events: seq<Event>, e: Event)
    requires slots >= 1
    ensures After(slots, events + [e]) == Follow(After(slots, events), e)
  {
    assert (events + [e])[..|events|] == events;
  }

  /** Whatever the clock does, jumps and re-activations included, the table stays sorted and nonnegative. */
  lemma {:induction false} TableStaysSorted(slots: nat, events: seq<Event>)
    requires slots >= 1
    ensures Nondecreasing(After(slots, events).clock.table)
    ensures After(slots, events).clock.table[0] >= 0.0
  {
    if events == [] {
    } else {
      TableStaysSorted(slots, events[..|events| - 1]);
    }
  }

  // ----- Counted time -----

  /** Slots 0 to i were all predicted by a tick. */
  predicate Predicted(created: seq<Option<real>>, i: nat) {
    i < |created| && forall j :: 0 <= j <= i ==> created[j].Some?
  }

  /** The time from the tick that predicted slot i to the tick that predicted slot 0. */
  function Age(created: seq<Option<real>>, i: nat): real
    requires Predicted(created, i)
  {
    created[0].value - created[i].value
  }

  /** The step between the ticks that predicted slots j + 1 and j. */
  function Gap(created: seq<Option<real>>, j: nat): real
    requires Predicted(created, j + 1)
  {
    created[j].value - created[j + 1].value
  }

  /** The age of slot i with every step capped. */
  function CountedAge(created: seq<Option<real>>, i: nat): real
    requires Predicted(created, i)
  {
    if i == 0 then 0.0 else CountedAge(created, i - 1) + Min(Gap(created, i - 1), MAX_STEP)
  }

  /** The ticks that predicted slots 0 to i came in order, each later than the one before or at the same time. */
  predicate Forward(created: seq<Option<real>>, i: nat)
    requires Predicted(created, i)
  {
    forall j: nat :: j < i ==> Gap(created, j) >= 0.0
  }

  /** No step between the ticks that predicted slots 0 to i was longer than the cap. */
  predicate ShortSteps(created: seq<Option<real>>, i: nat) {
    forall j: nat :: j < i && Predicted(created, j + 1) ==> Gap(created, j) <= MAX_STEP
  }

  /** Counted age never exceeds age, and is age exactly when no step in between was longer than the cap. */
  lemma {:induction false} CountedIsElapsed(created: seq<Option<real>>, i: nat)
    requires Predicted(created, i) && Forward(created, i)
    ensures 0.0 <= CountedAge(created, i) <= Age(created, i)
    ensures CountedAge(created, i) == Age(created, i) <==> ShortSteps(created, i)
  {
    if i == 0 {
    } else {
      CountedIsElapsed(created, i - 1);
      assert Age(created, i) == Age(created, i - 1) + Gap(created, i - 1);
    }
  }

  /** Ages do not fall from slot to slot. */
  lemma {:induction false} AgesRise(created: seq<Option<real>>, j: nat, i: nat)
    requires Predicted(created, i) && Forward(created, i) && j <= i
    ensures Age(created, j) <= Age(created, i)
  {
    if j == i {
    } else {
      AgesRise(created, j, i - 1);
      assert Gap(created, i - 1) >= 0.0;
    }
  }

  /** One more prediction in front: the counted age of slot i is that of slot i - 1 before, and the new step. */
  lemma {:induction false} CountedAgeShifts(created: seq<Option<real>>, t: real, i: nat)
    requires created != [] && i > 0
    requires var later := [Some(t)] + created[..|created| - 1]; Predicted(later, i)
    ensures Predicted(created, i - 1)
    ensures CountedAge([Some(t)] + created[..|created| - 1], i)
         == CountedAge(created, i - 1) + Min(t - created[0].value, MAX_STEP)
  {
    var later := [Some(t)] + created[..|created| - 1];
    forall j | 0 <= j <= i - 1
      ensures created[j] == later[j + 1] && created[j].Some?
    {
    }
    if i == 1 {
      assert CountedAge(later, 0) == 0.0;
    } else {
      CountedAgeShifts(created, t, i - 1);
      assert Gap(later, i - 1) == Gap(created, i - 2);
    }
  }

  // ----- The table and the slots, over every run -----

  /** A slot counts when a tick predicted it and every tick since then aged the table. */
  predicate Follows(h: History, i: nat) {
    i < |h.created| && i < h.predictions && i <= h.unbroken
  }

  /** What ties the table to the slots. */
  ghost predicate Consistent(h: History) {
    && |h.clock.table| == |h.created| >= 1 && h.unbroken <= h.accumulated
    && (forall i :: 0 <= i < |h.created| ==> (h.created[i].Some? <==> i < h.predictions))
    && (h.predictions > 0 && h.clock.last.Some? ==> h.created[0] == h.clock.last)
    && (forall i: nat :: i < |h.created| ==> EntryIsRight(h, i))
  }

  ghost predicate EntryIsRight(h: History, i: nat)
    requires i < |h.created| == |h.clock.table|
  {
    && (if i < h.accumulated then 0.0 <= h.clock.table[i] <= MAX_STEP * i as real else h.clock.table[i] >= UNREACHED)
    && (Follows(h, i) ==>
          && Predicted(h.created, i) && Forward(h.created, i)
          && (i < h.accumulated ==> h.clock.table[i] == CountedAge(h.created, i)))
  }

  /** Over every run of activations, initial poses, ticks forward and back, and measurements. */
  lemma {:induction false} HistoryIsConsistent(slots: nat, events: seq<Event>)
    requires slots >= 1
    ensures Consistent(After(slots, events))
  {
    if events == [] {
    } else {
      var h := After(slots, events[..|events| - 1]);
      HistoryIsConsistent(slots, events[..|events| - 1]);
      FollowKeepsConsistent(h, events[|events| - 1]);
    }
  }

  lemma FollowKeepsConsistent(h: History, e: Event)
    requires Consistent(h)
    ensures Consistent(Follow(h, e))
  {
    var r := Follow(h, e);
    forall i: nat | i < |r.created|
      ensures EntryIsRight(r, i)
    {
      assert EntryIsRight(h, i);
      if e.Tick? && Running(h.clock) && i > 0 {
        assert EntryIsRight(h, i - 1);
        TickKeepsEntry(h, e, i);
      }
    }
  }

  lemma TickKeepsEntry(h: History, e: Event, i: nat)
    requires Consistent(h) && e.Tick? && Running(h.clock) && 0 < i < |h.created|
    ensures EntryIsRight(Follow(h, e), i)
  {
    var r := Follow(h, e);
    assert EntryIsRight(h, i) && EntryIsRight(h, i - 1);
    if Ages(h.clock, e) && Follows(r, i) {
      assert Follows(h, i - 1);
      forall j: nat | j <= i
        ensures r.created[j].Some?
      {
      }
      CountedAgeShifts(h.created, e.t, i);
      forall j: nat | j < i
        ensures Gap(r.created, j) >= 0.0
      {
        if j > 0 {
          assert Gap(r.created, j) == Gap(h.created, j - 1);
        }
      }
    }
  }

  /** In a first run an entry beyond reach has grown by all the counted time. */
  ghost predicate UnreachedEntry(h: History, i: nat)
    requires h.accumulated <= i < |h.created| == |h.clock.table|
  {
    && (h.accumulated == 0 ==> h.clock.table[i] == UNREACHED)
    && (h.unbroken == h.accumulated < h.predictions ==>
          Predicted(h.created, h.accumulated) && h.clock.table[i] == UNREACHED + CountedAge(h.created, h.accumulated))
  }

  ghost predicate BeyondReach(h: History) {
    |h.created| == |h.clock.table| && forall i: nat :: h.accumulated <= i < |h.created| ==> UnreachedEntry(h, i)
  }

  lemma {:induction false} UnreachedEntries(slots: nat, events: seq<Event>)
    requires slots >= 1
    ensures BeyondReach(After(slots, events))
  {
    if events == [] {
    } else {
      var h := After(slots, events[..|events| - 1]);
      HistoryIsConsistent(slots, events[..|events| - 1]);
      HistoryIsConsistent(slots, events);
      UnreachedEntries(slots, events[..|events| - 1]);
      FollowKeepsUnreached(h, events[|events| - 1]);
    }
  }

  lemma FollowKeepsUnreached(h: History, e: Event)
    requires Consistent(h) && BeyondReach(h)
    ensures BeyondReach(Follow(h, e))
  {
    var r := Follow(h, e);
    FollowKeepsConsistent(h, e);
    forall i: nat | r.accumulated <= i < |r.created|
      ensures UnreachedEntry(r, i)
    {
      if e.Tick? && Running(h.clock) {
        assert r.created == [Some(e.t)] + h.created[..|h.created| - 1];
        if Ages(h.clock, e) {
          assert UnreachedEntry(h, i - 1);
        } else {
          assert UnreachedEntry(h, i);
        }
        if r.unbroken == r.accumulated < r.predictions {
          assert EntryIsRight(r, r.accumulated);
          if Ages(h.clock, e) {
            CountedAgeShifts(h.created, e.t, r.accumulated);
          }
        }
      } else {
        assert UnreachedEntry(h, i);
      }
    }
  }

  /**
   * In a first run, after k agings, entry i below k is the counted time since the tick that predicted slot i, and every
   * entry from k on is still out of reach by the whole counted time.
   */
  lemma TableCountsTime(slots: nat, events: seq<Event>, i: nat)
    requires slots >= 1 && i < slots && FirstRun(After(slots, events))
    ensures var h := After(slots, events);
            var last := if i < h.accumulated then i else h.accumulated;
            && Predicted(h.created, last)
            && h.clock.table[i] == CountedAge(h.created, last) + if i < h.accumulated then 0.0 else UNREACHED
  {
    var h := After(slots, events);
    HistoryIsConsistent(slots, events);
    UnreachedEntries(slots, events);
    assert EntryIsRight(h, i);
    if i >= h.accumulated {
      assert UnreachedEntry(h, i);
    }
  }

  /**
   * Over every run: entry i is the age of slot i if and only if no step since the tick that predicted it exceeded the
   * cap. Of the slots predicted since the initial pose was last set, this holds of all those since the last tick that
   * did not age the table; except that the very first tick's slot has an entry beyond reach.
   */
  lemma TableIsAge(slots: nat, events: seq<Event>, i: nat)
    requires slots >= 1 && Follows(After(slots, events), i)
    ensures var h := After(slots, events);
            && Predicted(h.created, i)
            && (i < h.accumulated ==>
                  && h.clock.table[i] <= Age(h.created, i)
                  && (h.clock.table[i] == Age(h.created, i) <==> ShortSteps(h.created, i)))
            && (i >= h.accumulated ==> h.clock.table[i] >= UNREACHED)
  {
    var h := After(slots, events);
    HistoryIsConsistent(slots, events);
    assert EntryIsRight(h, i);
    CountedIsElapsed(h.created, i);
  }

  /**
   * Over every run: entries below accumulated lie within 10 s a slot, the others are beyond reach. So an entry gives an
   * age to a slot that holds the initial pose if and only if its index is between the two counts.
   */
  lemma EntriesWithoutPrediction(slots: nat, events: seq<Event>, i: nat)
    requires slots >= 1 && i < slots && MAX_STEP * slots as real <= UNREACHED
    ensures var h := After(slots, events);
            && (h.clock.table[i] < UNREACHED <==> i < h.accumulated)
            && (h.created[i].None? && h.clock.table[i] < UNREACHED <==> h.predictions <= i < h.accumulated)
  {
    var h := After(slots, events);
    HistoryIsConsistent(slots, events);
    assert EntryIsRight(h, i);
    assert MAX_STEP * i as real < MAX_STEP * slots as real;
  }

  // ----- Jumps back -----

  /** No activation once a tick has run, and no tick more than 10 s after the one before. */
  predicate Steady(c: Clock, e: Event) {
    match e
    case Activate(active) => active ==> c.last.None?
    case Tick(t) => Running(c) && c.last.Some? ==> t - c.last.value <= MAX_STEP
    case _ => true
  }

  ghost predicate OneActivation(slots: nat, events: seq<Event>)
    requires slots >= 1
  {
    forall m :: 0 <= m < |events| ==> Steady(After(slots, events[..m]).clock, events[m])
  }

  /** The entry is the age of slot i up to the last jump back, and more than the age beyond it. */
  ghost predicate AgedUpToJump(h: History, i: nat)
    requires i < |h.created| == |h.clock.table|
  {
    && Predicted(h.created, i)
    && if i <= h.unbroken then h.clock.table[i] == Age(h.created, i) else h.clock.table[i] > Age(h.created, i)
  }

  ghost predicate JumpsAccountedFor(h: History) {
    && |h.clock.table| == |h.created|
    && (h.clock.last.None? ==> h.predictions == h.accumulated == 0)
    && forall i: nat :: i < |h.created| && i < h.accumulated && i < h.predictions ==> AgedUpToJump(h, i)
  }

  lemma {:induction false} JumpsAreAccountedFor(slots: nat, events: seq<Event>)
    requires slots >= 1 && OneActivation(slots, events)
    ensures JumpsAccountedFor(After(slots, events))
  {
    if events == [] {
    } else {
      var earlier, e := events[..|events| - 1], events[|events| - 1];
      forall m | 0 <= m < |earlier|
        ensures Steady(After(slots, earlier[..m]).clock, earlier[m])
      {
        assert earlier[..m] == events[..m];
      }
      JumpsAreAccountedFor(slots, earlier);
      HistoryIsConsistent(slots, earlier);
      TableStaysSorted(slots, earlier);
      assert Steady(After(slots, events[..|events| - 1]).clock, e);
      FollowAccountsForJumps(After(slots, earlier), e);
    }
  }

  lemma FollowAccountsForJumps(h: History, e: Event)
    requires Consistent(h) && Nondecreasing(h.clock.table) && JumpsAccountedFor(h) && Steady(h.clock, e)
    ensures JumpsAccountedFor(Follow(h, e))
  {
    var r := Follow(h, e);
    forall i: nat | i < |r.created| && i < r.accumulated && i < r.predictions
      ensures AgedUpToJump(r, i)
    {
      if e.Tick? && Running(h.clock) {
        if i == 0 {
          assert EntryIsRight(h, 0);
        } else {
          TickAccountsForJump(h, e, i);
        }
      } else {
        assert AgedUpToJump(h, i);
      }
    }
  }

  /** A tick that ages adds its step to entry and age; a jump back takes it off the age and leaves the table. */
  lemma TickAccountsForJump(h: History, e: Event, i: nat)
    requires Consistent(h) && Nondecreasing(h.clock.table) && JumpsAccountedFor(h) && Steady(h.clock, e)
    requires e.Tick? && Running(h.clock) && 0 < i < |h.created|
    requires i < Follow(h, e).accumulated && i < Follow(h, e).predictions
    ensures AgedUpToJump(Follow(h, e), i)
  {
    var r := Follow(h, e);
    assert h.clock.last.Some? && AgedUpToJump(h, i - 1);
    forall j: nat | j <= i
      ensures r.created[j].Some?
    {
    }
    assert Age(r.created, i) == Age(h.created, i - 1) + (e.t - h.clock.last.value);
    if !Ages(h.clock, e) {
      assert h.clock.table[i - 1] <= h.clock.table[i];
    }
  }

  /**
   * In one activation, jumps back and new initial poses included, with no tick more than 10 s after the one before: an
   * entry in reach of a slot predicted since the initial pose is the age of the slot if and only if every tick since
   * then aged the table, that is, if no jump back lies in between. Otherwise it is too large.
   */
  lemma TableIsAgeUpToJump(slots: nat, events: seq<Event>, i: nat)
    requires slots >= 1 && OneActivation(slots, events)
    requires i < slots && i < After(slots, events).accumulated && i < After(slots, events).predictions
    ensures var h := After(slots, events);
            && Predicted(h.created, i) && h.clock.table[i] >= Age(h.created, i)
            && (h.clock.table[i] == Age(h.created, i) <==> i <= h.unbroken)
  {
    JumpsAreAccountedFor(slots, events);
    assert AgedUpToJump(After(slots, events), i);
  }

  // ----- Inputs -----

  /** Activation, an initial pose, and ticks at the given times. */
  function Ticking(times: seq<real>): (events: seq<Event>)
    ensures |events| == |times| + 2
  {
    [Activate(true), Initialize] + seq(|times|, i requires 0 <= i < |times| => Tick(times[i]))
  }

  lemma StartUp(slots: nat)
    requires slots >= 1
    ensures var h := After(slots, Ticking([]));
            h == Start(slots).(clock := Start(slots).clock.(activated := true, initialised := true))
  {
    AfterOneMore(slots, [], Activate(true));
    AfterOneMore(slots, [Activate(true)], Initialize);
    assert [] + [Activate(true)] == [Activate(true)];
    assert [Activate(true)] + [Initialize] == Ticking([]);
  }

  /** One more tick of a localizer with three slots. */
  lemma OneMoreTick(times: seq<real>, t: real)
    requires Running(After(3, Ticking(times)).clock)
    ensures var h, r := After(3, Ticking(times)), After(3, Ticking(times + [t]));
            && Running(r.clock) && r.clock.last == Some(t)
            && r.created == [Some(t), h.created[0], h.created[1]] && r.predictions == h.predictions + 1
            && (if h.clock.last.Some? && t >= h.clock.last.value then
                  var dt := Min(t - h.clock.last.value, MAX_STEP);
                  && r.clock.table == [0.0, h.clock.table[0] + dt, h.clock.table[1] + dt]
                  && r.accumulated == h.accumulated + 1 && r.unbroken == h.unbroken + 1
                else r.clock.table == h.clock.table && r.accumulated == h.accumulated && r.unbroken == 0)
  {
    hide After, Follow;
    assert Ticking(times + [t]) == Ticking(times) + [Tick(t)];
    AfterOneMore(3, Ticking(times), Tick(t));
    FollowTick(After(3, Ticking(times)), t);
  }

  lemma FollowTick(h: History, t: real)
    requires |h.clock.table| == |h.created| == 3 && Running(h.clock)
    ensures var r := Follow(h, Tick(t));
            && Running(r.clock) && r.clock.last == Some(t)
            && r.created == [Some(t), h.created[0], h.created[1]] && r.predictions == h.predictions + 1
            && (if h.clock.last.Some? && t >= h.clock.last.value then
                  var dt := Min(t - h.clock.last.value, MAX_STEP);
                  && r.clock.table == [0.0, h.clock.table[0] + dt, h.clock.table[1] + dt]
                  && r.accumulated == h.accumulated + 1 && r.unbroken == h.unbroken + 1
                else r.clock.table == h.clock.table && r.accumulated == h.accumulated && r.unbroken == 0)
  {
  }

  /** Ticks at 0, 1 and 2, or at 0, 10 and 11: the table and the slots. */
  lemma ThreeTicks(t: real, u: real)
    requires 0.0 <= t <= 10.0 && t <= u
    ensures var h := After(3, Ticking([0.0, t, u]));
            && Running(h.clock) && h.clock.last == Some(u)
            && h.clock.table[..2] == [0.0, Min(u - t, MAX_STEP)] && h.clock.table[2] >= UNREACHED
            && h.created == [Some(u), Some(t), Some(0.0)]
            && h.predictions == 3 && h.accumulated == h.unbroken == 2
  {
    hide After;
    StartUp(3);
    assert [] + [0.0] == [0.0] && [0.0] + [t] == [0.0, t] && [0.0, t] + [u] == [0.0, t, u];
    OneMoreTick([], 0.0);
    OneMoreTick([0.0], t);
    OneMoreTick([0.0, t], u);
  }

  /** A step of 20 s counts for 10: entry 1 is 10 s, and slot 1 is 20 s old. */
  lemma LongStepIsCut()
    ensures var h := After(3, Ticking([0.0, 1.0, 21.0]));
            h.clock.table[1] == 10.0 && Predicted(h.created, 1) && Age(h.created, 1) == 20.0
  {
    hide After;
    ThreeTicks(1.0, 21.0);
    assert After(3, Ticking([0.0, 1.0, 21.0])).clock.table[..2][1] == 10.0;
  }

  /** A second initial pose: slot 1 holds that pose, and the table still gives it the age of the prediction it replaced. */
  lemma InitializeLeavesAges()
    ensures var h := After(3, Ticking([0.0, 1.0, 2.0]) + [Initialize]);
            h.clock.table[1] == 1.0 && h.created[1] == None
  {
    AfterOneMore(3, Ticking([0.0, 1.0, 2.0]), Initialize);
    hide After;
    ThreeTicks(1.0, 2.0);
    assert After(3, Ticking([0.0, 1.0, 2.0])).clock.table[..2][1] == 1.0;
  }

  /** A jump back shifts the slots and not the table: entry 1 is 1 s, and slot 1 was predicted 6 s later than slot 0. */
  lemma JumpBackMisaligns()
    ensures var h := After(3, Ticking([0.0, 10.0, 11.0, 5.0]));
            h.clock.table[1] == 1.0 && Predicted(h.created, 1) && Age(h.created, 1) == -6.0
  {
    hide After;
    ThreeTicks(10.0, 11.0);
    OneMoreTick([0.0, 10.0, 11.0], 5.0);
    assert [0.0, 10.0, 11.0] + [5.0] == [0.0, 10.0, 11.0, 5.0];
    assert After(3, Ticking([0.0, 10.0, 11.0])).clock.table[..2][1] == 1.0;
  }

  /** A step of 20 s and a jump back of 9 s cancel out: entry 2 is 11 s and so is the age of slot 2, across the jump. */
  lemma CapMayHideJump()
    ensures var h := After(3, Ticking([0.0, 1.0, 2.0, 22.0, 13.0]));
            && h.clock.table[2] == 11.0 && Predicted(h.created, 2) && Age(h.created, 2) == 11.0
            && 2 < h.accumulated && 2 > h.unbroken
  {
    hide After;
    ThreeTicks(1.0, 2.0);
    assert [0.0, 1.0, 2.0] + [22.0] == [0.0, 1.0, 2.0, 22.0];
    assert [0.0, 1.0, 2.0, 22.0] + [13.0] == [0.0, 1.0, 2.0, 22.0, 13.0];
    OneMoreTick([0.0, 1.0, 2.0], 22.0);
    OneMoreTick([0.0, 1.0, 2.0, 22.0], 13.0);
    assert After(3, Ticking([0.0, 1.0, 2.0])).clock.table[..2][1] == 1.0;
  }

  // ----- The first activation -----

  /** No tick has run: before activation and the first initial pose ticks are ignored. */
  predicate NothingRan(slots: nat, events: seq<Event>)
    requires slots >= 1
  {
    forall i :: 0 <= i < |events| && events[i].Tick? ==> !Running(After(slots, events[..i]).clock)
  }

  /** Until then every event, activations, deactivations and initial poses in any order, leaves table and slots alone. */
  lemma {:induction false} QuietStart(slots: nat, events: seq<Event>)
    requires slots >= 1 && NothingRan(slots, events)
    ensures var h := After(slots, events);
            && h.clock.table == Start(slots).clock.table && h.clock.last == None
            && h.created == Start(slots).created && h.predictions == h.accumulated == h.unbroken == 0
  {
    if events == [] {
    } else {
      var earlier := events[..|events| - 1];
      forall i | 0 <= i < |earlier| && earlier[i].Tick?
        ensures !Running(After(slots, earlier[..i]).clock)
      {
        assert earlier[..i] == events[..i];
      }
      QuietStart(slots, earlier);
    }
  }

  /** Ticks at the given times, with any number of measurements after each. */
  predicate TicksAt(events: seq<Event>, times: seq<real>) {
    if events == [] then times == []
    else
      var e := events[|events| - 1];
      || (e.Measurement? && TicksAt(events[..|events| - 1], times))
      || (e.Tick? && times != [] && e.t == times[|times| - 1] && TicksAt(events[..|events| - 1], times[..|times| - 1]))
  }

  /** All ticks but the first have aged the table, and no initial pose has been set since the first. */
  predicate FirstRun(h: History) {
    h.predictions == h.accumulated + 1 && h.unbroken == h.accumulated
  }

  /**
   * In the first activation, with a clock that never moves back: after k + 1 ticks the table has been aged k times, and
   * created lists the times of the ticks, the latest first.
   */
  lemma {:induction false} FirstActivation(slots: nat, before: seq<Event>, events: seq<Event>, times: seq<real>)
    requires slots >= 1 && NothingRan(slots, before) && Running(After(slots, before).clock)
    requires TicksAt(events, times) && forall i :: 0 < i < |times| ==> times[i - 1] <= times[i]
    ensures var h := After(slots, before + events);
            && Running(h.clock) && (times == [] ==> h == After(slots, before))
            && (times != [] ==> FirstRun(h) && h.accumulated == |times| - 1 && h.clock.last == Some(times[|times| - 1]))
            && (forall i :: 0 <= i < slots && i < |times| ==> h.created[i] == Some(times[|times| - 1 - i]))
    decreases |events|
  {
    hide After, Accumulated, NothingRan;
    QuietStart(slots, before);
    if events == [] {
      assert before + events == before;
    } else {
      var earlier, e := events[..|events| - 1], events[|events| - 1];
      assert before + events == before + earlier + [e];
      AfterOneMore(slots, before + earlier, e);
      if e.Measurement? && TicksAt(earlier, times) {
        FirstActivation(slots, before, earlier, times);
      } else {
        FirstActivation(slots, before, earlier, times[..|times| - 1]);
      }
    }
  }

  // ----- The slot chosen for a delay -----

  /** Half of the unreached age: shorter delays are never matched with an unreached entry. */
  const REACH := 500000000000000.0

  /** The ages of the slots that were predicted in the first activation, with short steps, are in the table but for the first tick's. */
  lemma FirstRunEntry(slots: nat, events: seq<Event>, i: nat)
    requires slots >= 1 && i < slots && FirstRun(After(slots, events)) && i <= After(slots, events).accumulated
    ensures var h := After(slots, events);
            && Predicted(h.created, i) && Forward(h.created, i)
            && (i < h.accumulated && ShortSteps(h.created, i) ==> h.clock.table[i] == Age(h.created, i))
            && (i == h.accumulated ==> h.clock.table[i] >= UNREACHED)
  {
    HistoryIsConsistent(slots, events);
    assert EntryIsRight(After(slots, events), i);
    TableIsAge(slots, events, i);
  }

  /** Over every run: a delay below half of the unreached age never gets a slot whose entry is beyond reach. */
  lemma OnlyReachedSlotsAreChosen(slots: nat, events: seq<Event>, delay: real)
    requires slots >= 1 && After(slots, events).accumulated > 0 && 0.0 <= delay < REACH
    ensures Nondecreasing(After(slots, events).clock.table)
    ensures var h := After(slots, events);
            var j := ClosestIndex(h.clock.table, delay);
            j < slots ==> j < h.accumulated
  {
    var h := After(slots, events);
    TableStaysSorted(slots, events);
    HistoryIsConsistent(slots, events);
    var j := ClosestIndex(h.clock.table, delay);
    if j < slots {
      assert EntryIsRight(h, 0) && EntryIsRight(h, j);
    }
  }

  /** No slot from 0 to i has an age closer to the delay than slot j. */
  ghost predicate Nearest(created: seq<Option<real>>, delay: real, j: nat, i: nat)
    requires Predicted(created, i) && Predicted(created, j)
  {
    forall l: nat :: l <= i ==> Abs(delay - Age(created, j)) <= Abs(delay - Age(created, l))
  }

  /**
   * While the first tick's slot is still in the filter, the chosen slot is the nearest in age if and only if the delay
   * is no closer to the age of the first tick's slot than to that of the next one, or those two ages are equal.
   */
  lemma ChosenSlotIsNearest(slots: nat, events: seq<Event>, delay: real)
    requires slots >= 1 && FirstRun(After(slots, events)) && 0 < After(slots, events).accumulated < slots
    requires ShortSteps(After(slots, events).created, slots) && 0.0 <= delay < REACH
    ensures Nondecreasing(After(slots, events).clock.table)
    ensures var h := After(slots, events);
            var j, k := ClosestIndex(h.clock.table, delay), h.accumulated;
            && j < k && Predicted(h.created, j) && Predicted(h.created, k) && Nearest(h.created, delay, j, k - 1)
            && (Nearest(h.created, delay, j, k)
                <==> 2.0 * delay <= Age(h.created, k - 1) + Age(h.created, k) || Age(h.created, k - 1) == Age(h.created, k))
  {
    var h := After(slots, events);
    var k := h.accumulated;
    OnlyReachedSlotsAreChosen(slots, events, delay);
    var j := ClosestIndex(h.clock.table, delay);
    FirstRunEntry(slots, events, k);
    assert h.clock.table[k] <= h.clock.table[slots - 1];
    assert j < k;
    forall l: nat | l < k
      ensures Predicted(h.created, l) && h.clock.table[l] == Age(h.created, l)
    {
      FirstRunEntry(slots, events, l);
    }
    AgesRise(h.created, j, k - 1);
    AgesRise(h.created, k - 1, k);
    OneMoreAge(h.created, delay, j, k);
  }

  /** Of slots 0 to k, with the nearest of slots 0 to k - 1 known. */
  lemma OneMoreAge(created: seq<Option<real>>, delay: real, j: nat, k: nat)
    requires j < k && Predicted(created, k) && Predicted(created, k - 1) && Predicted(created, j)
    requires Nearest(created, delay, j, k - 1) && Age(created, j) <= Age(created, k - 1) <= Age(created, k)
    ensures Nearest(created, delay, j, k)
       <==> 2.0 * delay <= Age(created, k - 1) + Age(created, k) || Age(created, k - 1) == Age(created, k)
  {
    assert Abs(delay - Age(created, j)) <= Abs(delay - Age(created, k - 1));
    assert Nearest(created, delay, j, k) <==> Abs(delay - Age(created, j)) <= Abs(delay - Age(created, k)) by {
      if Nearest(created, delay, j, k) {
        assert Abs(delay - Age(created, j)) <= Abs(delay - Age(created, k));
      }
    }
  }

  /** Once the first tick's slot has left the filter, a delay that passes the gate gets the slot nearest in age, of all slots. */
  lemma ChosenSlotIsNearestOfAll(slots: nat, events: seq<Event>, delay: real)
    requires slots >= 1 && FirstRun(After(slots, events)) && After(slots, events).accumulated >= slots
    requires ShortSteps(After(slots, events).created, slots)
    ensures Nondecreasing(After(slots, events).clock.table)
    ensures var h := After(slots, events);
            var j := ClosestIndex(h.clock.table, delay);
            j < slots ==> Predicted(h.created, j) && Predicted(h.created, slots - 1) && Nearest(h.created, delay, j, slots - 1)
  {
    var h := After(slots, events);
    TableStaysSorted(slots, events);
    forall l: nat | l < slots
      ensures Predicted(h.created, l) && h.clock.table[l] == Age(h.created, l)
    {
      FirstRunEntry(slots, events, l);
    }
  }

  /**
   * In the first activation the gate rejects a delay if and only if the first tick's slot has left the filter and the
   * delay is longer than the age of the oldest slot. Until then delays of any length pass.
   */
  lemma GateRejectsExactly(slots: nat, events: seq<Event>, delay: real)
    requires slots >= 1 && FirstRun(After(slots, events)) && ShortSteps(After(slots, events).created, slots)
    requires 0.0 <= delay <= UNREACHED
    ensures Nondecreasing(After(slots, events).clock.table)
    ensures var h := After(slots, events);
            ClosestIndex(h.clock.table, delay) == slots
            <==> h.accumulated >= slots && Predicted(h.created, slots - 1) && delay > Age(h.created, slots - 1)
  {
    var h := After(slots, events);
    TableStaysSorted(slots, events);
    HistoryIsConsistent(slots, events);
    assert EntryIsRight(h, slots - 1);
    if h.accumulated >= slots {
      FirstRunEntry(slots, events, slots - 1);
    }
  }

  /** Two ticks 10 s apart, and a measurement 10 s old: it is given to the slot of age 0, though the other is 10 s old. */
  lemma FirstSlotIsMissed()
    ensures Nondecreasing(After(3, Ticking([0.0, 10.0])).clock.table)
    ensures var h := After(3, Ticking([0.0, 10.0]));
            && ClosestIndex(h.clock.table, 10.0) == 0
            && Predicted(h.created, 1) && Age(h.created, 0) == 0.0 && Age(h.created, 1) == 10.0
  {
    TableStaysSorted(3, Ticking([0.0, 10.0]));
    hide After, ClosestIndex;
    TwoTicks();
    FirstOfTable(After(3, Ticking([0.0, 10.0])).clock.table, 10.0);
  }

  lemma TwoTicks()
    ensures var h := After(3, Ticking([0.0, 10.0]));
            && h.clock.table[0] == 0.0 && h.clock.table[1] >= UNREACHED
            && h.created == [Some(10.0), Some(0.0), None]
  {
    hide After;
    StartUp(3);
    assert [] + [0.0] == [0.0] && [0.0] + [10.0] == [0.0, 10.0];
    OneMoreTick([], 0.0);
    OneMoreTick([0.0], 10.0);
  }

  lemma FirstOfTable(table: seq<real>, target: real)
    requires Nondecreasing(table) && |table| >= 2 && table[0] == 0.0 && table[1] >= UNREACHED && 0.0 <= target < REACH
    ensures ClosestIndex(table, target) == 0
  {
    var i := ClosestIndex(table, target);
    if i > 0 {
      assert table[1] <= table[if i < |table| then i else |table| - 1];
    }
  }
}

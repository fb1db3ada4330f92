/** The adaptive concurrency controller and its budget: bounded, unit steps, paced by a cooldown. */
module Controller {
  import opened Common

  /** The settings that a budget takes over as they are. */
  datatype Thresholds = Thresholds(
    queuedSoft: int, queuedHard: int, cpuLow: real, cpuHigh: real, memorySoft: real, memoryHard: real, cooldown: real,
    p95Warn: real, p95Critical: real, p95Recovery: real, minSamples: int, sustainSeconds: real, criticalHoldsAll: bool)

  datatype Settings = Settings(minWorkers: int, maxWorkers: int, maxConcurrentHeavy: int, thresholds: Thresholds)

  datatype Budget = Budget(minConcurrency: int, maxConcurrency: int, maxConcurrentHeavy: int, thresholds: Thresholds)
  {
    predicate Valid() {
      1 <= minConcurrency <= maxConcurrency && 0 <= maxConcurrentHeavy <= maxConcurrency
    }
  }

  /** Any settings give a budget that is in order: the settings' own numbers, cut where they are out of order. */
  function FromSettings(s: Settings): (b: Budget)
    ensures b.Valid() && b.thresholds == s.thresholds
    ensures 1 <= s.minWorkers <= s.maxWorkers ==> b.minConcurrency == s.minWorkers && b.maxConcurrency == s.maxWorkers
    ensures 0 <= s.maxConcurrentHeavy <= s.maxWorkers && 1 <= s.maxWorkers ==>
            b.maxConcurrentHeavy == s.maxConcurrentHeavy
    ensures s.maxWorkers < 1 ==> b.maxConcurrency == 1
    ensures s.maxWorkers >= 1 ==> b.maxConcurrency == s.maxWorkers
    ensures s.minWorkers < 1 ==> b.minConcurrency == 1
    ensures s.minWorkers > b.maxConcurrency ==> b.minConcurrency == b.maxConcurrency
    ensures s.maxConcurrentHeavy < 0 ==> b.maxConcurrentHeavy == 0
    ensures s.maxConcurrentHeavy > b.maxConcurrency ==> b.maxConcurrentHeavy == b.maxConcurrency
  {
    var most := Max(1, s.maxWorkers);
    Budget(Max(1, Min(s.minWorkers, most)), most, Max(0, Min(s.maxConcurrentHeavy, most)), s.thresholds)
  }

  /** The nearest value within the limits. */
  function Clamp(b: Budget, value: int): (r: int)
    requires b.Valid()
    ensures b.minConcurrency <= r <= b.maxConcurrency
    ensures value < r ==> r == b.minConcurrency
    ensures value > r ==> r == b.maxConcurrency
    ensures b.minConcurrency <= value <= b.maxConcurrency ==> r == value
  {
    Max(b.minConcurrency, Min(b.maxConcurrency, value))
  }

  datatype Snapshot = Snapshot(cpuPercent: Option<real>, rssMb: Option<real>, queued: int)
  datatype Reason = Hold | DegradedDecrease | PressuredDecrease | PressuredHold | NormalBacklogIncrease | NormalHold
  datatype Change = Change(at: real, before: int, after: int, reason: Reason, pressure: Pressure, snapshot: Snapshot)
  datatype Call = Call(pressure: Pressure, snapshot: Snapshot, now: real)

  /** The controller's fields as a value. */
  datatype State = State(effective: int, lastAt: Option<real>, history: seq<Change>)

  /** There is a backlog, and the host has room for it. */
  predicate WantsMore(b: Budget, s: Snapshot) {
    && s.queued > 0
    && (s.cpuPercent.None? || s.cpuPercent.value <= b.thresholds.cpuLow)
    && (s.rssMb.None? || s.rssMb.value <= b.thresholds.memorySoft)
  }

  predicate Cooling(b: Budget, lastAt: Option<real>, now: real) {
    lastAt.Some? && now - lastAt.value < b.thresholds.cooldown
  }

  /** Where steady conditions lead. */
  function Goal(b: Budget, start: int, pressure: Pressure, wantsMore: bool): int {
    match pressure
    case Degraded => b.minConcurrency
    case Pressured => Min(start, b.minConcurrency + 1)
    case Normal => if wantsMore then b.maxConcurrency else start
  }

  /** `n` unit steps from `start` towards `goal`, and no further. */
  function Toward(start: int, goal: int, n: nat): int {
    if start <= goal then Min(goal, start + n) else Max(goal, start - n)
  }

  function ReasonFor(pressure: Pressure): Reason {
    match pressure
    case Degraded => DegradedDecrease
    case Pressured => PressuredDecrease
    case Normal => NormalBacklogIncrease
  }

  /** One call, as a function of the fields: unless cooling down, one step towards the goal, on record. */
  function Adjusted(b: Budget, s: State, c: Call): State {
    var next := Toward(s.effective, Goal(b, s.effective, c.pressure, WantsMore(b, c.snapshot)), 1);
    if Cooling(b, s.lastAt, c.now) || next == s.effective then s
    else
      var change := Change(c.now, s.effective, next, ReasonFor(c.pressure), c.pressure, c.snapshot);
      State(next, Some(c.now), s.history + [change])
  }

  class AdaptiveConcurrencyController {
    const budget: Budget
    var effectiveMaxWorkers: int
    var lastAdjustAt: Option<real>
    var history: seq<Change>

    ghost predicate Valid()
      reads this
    {
      budget.Valid() && budget.minConcurrency <= effectiveMaxWorkers <= budget.maxConcurrency
    }

    ghost function Fields(): State
      reads this
    {
      State(effectiveMaxWorkers, lastAdjustAt, history)
    }

    constructor (budget: Budget, initial: Option<int>)
      requires budget.Valid()
      ensures Valid() && this.budget == budget
      ensures Fields() == State(if initial.None? then budget.minConcurrency else Clamp(budget, initial.value), None, [])
    {
      this.budget := budget;
      effectiveMaxWorkers := if initial.None? then budget.minConcurrency else Clamp(budget, initial.value);
      lastAdjustAt, history := None, [];
    }

    method Adjust(pressure: Pressure, snapshot: Snapshot, now: real) returns (limit: int)
      requires Valid()
      modifies this
      ensures Valid() && Fields() == Adjusted(budget, old(Fields()), Call(pressure, snapshot, now))
      ensures limit == effectiveMaxWorkers
      // Down under pressure, up for a backlog that the host has room for, and not within the cooldown.
      ensures var t, was := budget.thresholds, old(effectiveMaxWorkers);
              effectiveMaxWorkers ==
                if old(lastAdjustAt).Some? && now - old(lastAdjustAt).value < t.cooldown then was
                else if pressure.Degraded? && was > budget.minConcurrency then was - 1
                else if pressure.Pressured? && was > budget.minConcurrency + 1 then was - 1
                else if pressure.Normal? && snapshot.queued > 0 && was < budget.maxConcurrency
                  && (snapshot.cpuPercent.None? || snapshot.cpuPercent.value <= t.cpuLow)
                  && (snapshot.rssMb.None? || snapshot.rssMb.value <= t.memorySoft) then was + 1
                else was
      ensures effectiveMaxWorkers == old(effectiveMaxWorkers) ==>
                lastAdjustAt == old(lastAdjustAt) && history == old(history)
      ensures effectiveMaxWorkers != old(effectiveMaxWorkers) ==>
                && lastAdjustAt == Some(now)
                && history == old(history) + [Change(
                     now, old(effectiveMaxWorkers), effectiveMaxWorkers,
                     if pressure.Degraded? then DegradedDecrease
                     else if pressure.Pressured? then PressuredDecrease else NormalBacklogIncrease,
                     pressure, snapshot)]
    {
      var current := Clamp(budget, if effectiveMaxWorkers != 0 then effectiveMaxWorkers else 1);
      if lastAdjustAt.Some? && now - lastAdjustAt.value < budget.thresholds.cooldown {
        return current;
      }
      var target, reason := current, Hold;
      if pressure == Degraded {
        if current > budget.minConcurrency {
          target, reason := current - 1, DegradedDecrease;
        }
      } else if pressure == Pressured {
        if current > budget.minConcurrency + 1 {
          target, reason := current - 1, PressuredDecrease;
        } else {
          reason := PressuredHold;
        }
      } else {
        var cpuOk := snapshot.cpuPercent.None? || snapshot.cpuPercent.value <= budget.thresholds.cpuLow;
        var memOk := snapshot.rssMb.None? || snapshot.rssMb.value <= budget.thresholds.memorySoft;
        if snapshot.queued > 0 && cpuOk && memOk && current < budget.maxConcurrency {
          target, reason := current + 1, NormalBacklogIncrease;
        } else {
          reason := NormalHold;
        }
      }
      target := Clamp(budget, target);
      if target != current {
        lastAdjustAt := Some(now);
        effectiveMaxWorkers := target;
        history := history + [Change(now, current, target, reason, pressure, snapshot)];
      }
      return if effectiveMaxWorkers != 0 then effectiveMaxWorkers else target;
    }
  }

  // ---------------------------------------------------------------- whole runs

  function Run(b: Budget, s: State, calls: seq<Call>): State {
    if calls == [] then s else Adjusted(b, Run(b, s, calls[..|calls| - 1]), calls[|calls| - 1])
  }

  function Fresh(start: int): State {
    State(start, None, [])
  }

  /** The recorded changes lead from one value to the other, one unit at a time, for the reasons there are. */
  ghost predicate Chains(b: Budget, start: int, history: seq<Change>, end: int) {
    if history == [] then start == end
    else
      var last := history[|history| - 1];
      && last.after == end && Chains(b, start, history[..|history| - 1], last.before)
      && b.minConcurrency <= last.after <= b.maxConcurrency
      && last.reason == ReasonFor(last.pressure)
      && match last.reason {
           case DegradedDecrease => end == last.before - 1
           case PressuredDecrease => end == last.before - 1 && end >= b.minConcurrency + 1
           case _ => end == last.before + 1 && WantsMore(b, last.snapshot)
         }
  }

  /** Successive changes are at least the cooldown apart. */
  ghost predicate Paced(b: Budget, history: seq<Change>) {
    forall i | 0 < i < |history| :: history[i].at - history[i - 1].at >= b.thresholds.cooldown
  }

  /** The fields are in order: in range, with a record that chains, is paced, and dates the last change. */
  ghost predicate InOrder(b: Budget, start: int, s: State) {
    && b.minConcurrency <= s.effective <= b.maxConcurrency
    && Chains(b, start, s.history, s.effective) && Paced(b, s.history)
    && s.lastAt == if s.history == [] then None else Some(s.history[|s.history| - 1].at)
  }

  lemma RecordGrows(b: Budget, start: int, history: seq<Change>, c: Change)
    requires Chains(b, start, history, c.before) && Paced(b, history)
    requires b.minConcurrency <= c.after <= b.maxConcurrency && c.reason == ReasonFor(c.pressure)
    requires match c.reason {
               case DegradedDecrease => c.after == c.before - 1
               case PressuredDecrease => c.after == c.before - 1 && c.after >= b.minConcurrency + 1
               case _ => c.after == c.before + 1 && WantsMore(b, c.snapshot)
             }
    requires history != [] ==> c.at - history[|history| - 1].at >= b.thresholds.cooldown
    ensures Chains(b, start, history + [c], c.after) && Paced(b, history + [c])
  {
    hide WantsMore, ReasonFor;
    assert (history + [c])[..|history|] == history;
  }

  lemma AdjustedInOrder(b: Budget, start: int, s: State, c: Call)
    requires b.Valid() && InOrder(b, start, s)
    ensures InOrder(b, start, Adjusted(b, s, c))
  {
    hide Chains, Paced, WantsMore;
    var next := Adjusted(b, s, c);
    if next != s {
      var change := Change(c.now, s.effective, next.effective, ReasonFor(c.pressure), c.pressure, c.snapshot);
      RecordGrows(b, start, s.history, change);
    }
  }

  /** The recorded changes lead from `start` to `end`, each a unit down or up within the limits. */
  lemma {:induction false} ChainMeans(b: Budget, start: int, history: seq<Change>, end: int)
    requires Chains(b, start, history, end)
    ensures end == if history == [] then start else history[|history| - 1].after
    ensures history != [] ==> history[0].before == start
    ensures forall i | 0 < i < |history| :: history[i].before == history[i - 1].after
    ensures forall c | c in history ::
              && c.after == c.before + (if c.pressure.Normal? then 1 else -1)
              && b.minConcurrency <= c.after <= b.maxConcurrency
    decreases |history|
  {
    hide WantsMore;
    if history != [] {
      ChainMeans(b, start, history[..|history| - 1], history[|history| - 1].before);
    }
  }

  /**
   * Over any calls, whatever their clock: the limit stays in range, the record leads from the
   * initial to the current value in unit steps, and successive changes keep the cooldown apart.
   */
  lemma RunsAreRecordedAndPaced(b: Budget, start: int, calls: seq<Call>) returns (s: State)
    requires b.Valid() && b.minConcurrency <= start <= b.maxConcurrency
    ensures s == Run(b, Fresh(start), calls)
    ensures b.minConcurrency <= s.effective <= b.maxConcurrency
    ensures s.effective == if s.history == [] then start else s.history[|s.history| - 1].after
    ensures s.lastAt == if s.history == [] then None else Some(s.history[|s.history| - 1].at)
    ensures forall i | 0 < i < |s.history| :: s.history[i].at - s.history[i - 1].at >= b.thresholds.cooldown
    ensures s.history != [] ==> s.history[0].before == start
    ensures forall i | 0 < i < |s.history| :: s.history[i].before == s.history[i - 1].after
    ensures forall c | c in s.history ::
              && c.after == c.before + (if c.pressure.Normal? then 1 else -1)
              && b.minConcurrency <= c.after <= b.maxConcurrency
  {
    hide Chains, Adjusted;
    RunsAreInOrder(b, start, calls);
    s := Run(b, Fresh(start), calls);
    ChainMeans(b, start, s.history, s.effective);
  }

  lemma {:induction false} RunsAreInOrder(b: Budget, start: int, calls: seq<Call>)
    requires b.Valid() && b.minConcurrency <= start <= b.maxConcurrency
    ensures InOrder(b, start, Run(b, Fresh(start), calls))
    decreases |calls|
  {
    hide Adjusted;
    if calls != [] {
      var n := |calls| - 1;
      RunsAreInOrder(b, start, calls[..n]);
      AdjustedInOrder(b, start, Run(b, Fresh(start), calls[..n]), calls[n]);
    }
  }

  /** A call moves the limit by at most one. */
  lemma OneStepPerCall(b: Budget, s: State, calls: seq<Call>, i: nat)
    requires i < |calls|
    ensures -1 <= Run(b, s, calls[..i + 1]).effective - Run(b, s, calls[..i]).effective <= 1
  {
    assert calls[..i + 1][..i] == calls[..i];
  }

  lemma {:induction false} Spread(b: Budget, history: seq<Change>, i: nat, j: nat)
    requires Paced(b, history) && i <= j < |history| && b.thresholds.cooldown >= 0.0
    ensures history[j].at - history[i].at >= (j - i) as real * b.thresholds.cooldown
    decreases j
  {
    if i < j {
      Spread(b, history, i, j - 1);
    }
  }

  /** The changes recorded from time `t` through `t + width`. */
  function Within(history: seq<Change>, t: real, width: real): set<nat> {
    set i: nat | i < |history| && t <= history[i].at <= t + width
  }

  lemma {:induction false} IntervalSize(lo: nat, hi: nat, s: set<nat>)
    requires lo <= hi && forall i | i in s :: lo <= i < hi
    ensures |s| <= hi - lo
    decreases hi
  {
    if lo == hi {
      assert s == {};
    } else {
      IntervalSize(lo, hi - 1, s - {hi - 1});
    }
  }

  lemma Fits(steps: nat, cooldown: real, width: real)
    requires cooldown > 0.0 && steps as real * cooldown <= width
    ensures steps <= (width / cooldown).Floor
  {
    assert steps as real <= width / cooldown;
  }

  /** Two changes in the window are at most so many changes apart. */
  lemma InOneWindow(b: Budget, history: seq<Change>, i: nat, j: nat, t: real, width: real)
    requires Paced(b, history) && b.thresholds.cooldown > 0.0 && i in Within(history, t, width)
             && j in Within(history, t, width)
    ensures j - i <= (width / b.thresholds.cooldown).Floor
  {
    hide Paced;
    Fits(0, b.thresholds.cooldown, width);
    if i <= j {
      Spread(b, history, i, j);
      Fits(j - i, b.thresholds.cooldown, width);
    }
  }

  /** In any window of time there are at most floor(width / cooldown) + 1 changes. */
  lemma WindowBound(b: Budget, start: int, calls: seq<Call>, t: real, width: real)
    requires b.Valid() && b.minConcurrency <= start <= b.maxConcurrency && b.thresholds.cooldown > 0.0 && width >= 0.0
    ensures var history := Run(b, Fresh(start), calls).history;
            var inside := set i: nat | i < |history| && t <= history[i].at <= t + width;
            |inside| <= (width / b.thresholds.cooldown).Floor + 1
  {
    hide Chains, Paced, Run;
    RunsAreInOrder(b, start, calls);
    var history := Run(b, Fresh(start), calls).history;
    var inside := Within(history, t, width);
    assert inside == set i: nat | i < |history| && t <= history[i].at <= t + width;
    var most := (width / b.thresholds.cooldown).Floor;
    Fits(0, b.thresholds.cooldown, width);
    if inside != {} {
      var first := Least(inside);
      forall i | i in inside ensures first <= i < first + most + 1 {
        InOneWindow(b, history, first, i, t, width);
      }
      IntervalSize(first, first + most + 1, inside);
    }
  }

  lemma {:induction false} Least(s: set<nat>) returns (least: nat)
    requires s != {}
    ensures least in s && forall i | i in s :: least <= i
    decreases s
  {
    var x :| x in s;
    if s == {x} {
      least := x;
    } else {
      var rest := Least(s - {x});
      least := Min(x, rest);
      assert s == (s - {x}) + {x};
    }
  }

  /** The calls come at least the cooldown apart, the first as long after the last change. */
  ghost predicate Spaced(b: Budget, lastAt: Option<real>, calls: seq<Call>) {
    && (calls != [] ==> !Cooling(b, lastAt, calls[0].now))
    && forall i | 0 < i < |calls| :: calls[i].now - calls[i - 1].now >= b.thresholds.cooldown
  }

  /** The same pressure at every call, and under normal pressure the same answer to whether there is a backlog. */
  ghost predicate Steady(b: Budget, calls: seq<Call>, pressure: Pressure, wantsMore: bool) {
    forall c | c in calls :: c.pressure == pressure && (pressure.Normal? ==> WantsMore(b, c.snapshot) == wantsMore)
  }

  /** One more step towards a goal that the steps so far have not moved. */
  lemma OneStepFurther(b: Budget, start: int, pressure: Pressure, wantsMore: bool, now: bool, n: nat)
    requires b.Valid() && b.minConcurrency <= start <= b.maxConcurrency
    requires pressure.Normal? ==> now == wantsMore
    ensures var there := Toward(start, Goal(b, start, pressure, wantsMore), n);
            Toward(there, Goal(b, there, pressure, now), 1)
            == Toward(start, Goal(b, start, pressure, wantsMore), n + 1)
  {
  }

  /** The last change, if there is one, is a cooldown behind any call that is a cooldown after `now`. */
  ghost predicate CooledBy(b: Budget, lastAt: Option<real>, now: real) {
    lastAt.Some? ==> lastAt.value <= now || now - lastAt.value >= b.thresholds.cooldown
  }

  /** Under steady conditions `n` spaced calls move the limit exactly `n` steps towards its goal and leave it there. */
  lemma {:induction false} SteadyConditionsConverge(
    b: Budget, s: State, calls: seq<Call>, pressure: Pressure, wantsMore: bool)
    requires b.Valid() && b.minConcurrency <= s.effective <= b.maxConcurrency && b.thresholds.cooldown >= 0.0
    requires Spaced(b, s.lastAt, calls) && Steady(b, calls, pressure, wantsMore)
    ensures Run(b, s, calls).effective == Toward(s.effective, Goal(b, s.effective, pressure, wantsMore), |calls|)
    ensures calls != [] ==> CooledBy(b, Run(b, s, calls).lastAt, calls[|calls| - 1].now)
    decreases |calls|
  {
    hide Toward, Goal, WantsMore, Adjusted;
    if calls == [] {
      StayPut(b, s.effective, pressure, wantsMore);
    } else {
      var n := |calls| - 1;
      var before, last := calls[..n], calls[n];
      SteadyConditionsConverge(b, s, before, pressure, wantsMore);
      assert last in calls;
      var r := Run(b, s, before);
      assert !Cooling(b, r.lastAt, last.now) by {
        if n > 0 {
          assert calls[n].now - calls[n - 1].now >= b.thresholds.cooldown;
        }
      }
      OneStepFurther(b, s.effective, pressure, wantsMore, WantsMore(b, last.snapshot), n);
      OneStep(b, r, last);
    }
  }

  /** A call that is not within the cooldown takes its step, and the next one may after another cooldown. */
  lemma OneStep(b: Budget, r: State, c: Call)
    requires !Cooling(b, r.lastAt, c.now)
    ensures Adjusted(b, r, c).effective ==
            Toward(r.effective, Goal(b, r.effective, c.pressure, WantsMore(b, c.snapshot)), 1)
    ensures CooledBy(b, Adjusted(b, r, c).lastAt, c.now)
  {
    hide Toward, Goal, WantsMore;
  }

  lemma StayPut(b: Budget, start: int, pressure: Pressure, wantsMore: bool)
    ensures b.Valid() && b.minConcurrency <= start <= b.maxConcurrency ==>
              Toward(start, Goal(b, start, pressure, wantsMore), 0) == start
  {
  }

  /** DEGRADED drives the limit to the minimum, one step a call. */
  lemma DegradedFallsToMinimum(b: Budget, s: State, calls: seq<Call>)
    requires b.Valid() && b.minConcurrency <= s.effective <= b.maxConcurrency && b.thresholds.cooldown >= 0.0
    requires calls != [] && s.lastAt.Some? ==> calls[0].now - s.lastAt.value >= b.thresholds.cooldown
    requires forall i | 0 < i < |calls| :: calls[i].now - calls[i - 1].now >= b.thresholds.cooldown
    requires forall c | c in calls :: c.pressure == Degraded
    ensures Run(b, s, calls).effective == Max(b.minConcurrency, s.effective - |calls|)
  {
    SteadyConditionsConverge(b, s, calls, Degraded, false);
  }

  /** PRESSURED drives the limit to one above the minimum and leaves a lower one where it is. */
  lemma PressuredKeepsOneAbove(b: Budget, s: State, calls: seq<Call>)
    requires b.Valid() && b.minConcurrency <= s.effective <= b.maxConcurrency && b.thresholds.cooldown >= 0.0
    requires calls != [] && s.lastAt.Some? ==> calls[0].now - s.lastAt.value >= b.thresholds.cooldown
    requires forall i | 0 < i < |calls| :: calls[i].now - calls[i - 1].now >= b.thresholds.cooldown
    requires forall c | c in calls :: c.pressure == Pressured
    ensures Run(b, s, calls).effective ==
            if s.effective <= b.minConcurrency + 1 then s.effective
            else Max(b.minConcurrency + 1, s.effective - |calls|)
  {
    SteadyConditionsConverge(b, s, calls, Pressured, false);
  }

  /** A backlog on a host with room drives the limit to the maximum, one step a call. */
  lemma BacklogRisesToMaximum(b: Budget, s: State, calls: seq<Call>)
    requires b.Valid() && b.minConcurrency <= s.effective <= b.maxConcurrency && b.thresholds.cooldown >= 0.0
    requires calls != [] && s.lastAt.Some? ==> calls[0].now - s.lastAt.value >= b.thresholds.cooldown
    requires forall i | 0 < i < |calls| :: calls[i].now - calls[i - 1].now >= b.thresholds.cooldown
    requires forall c | c in calls ::
               && c.pressure == Normal && c.snapshot.queued > 0
               && (c.snapshot.cpuPercent.None? || c.snapshot.cpuPercent.value <= b.thresholds.cpuLow)
               && (c.snapshot.rssMb.None? || c.snapshot.rssMb.value <= b.thresholds.memorySoft)
    ensures Run(b, s, calls).effective == Min(b.maxConcurrency, s.effective + |calls|)
  {
    SteadyConditionsConverge(b, s, calls, Normal, true);
  }

  /** Under normal pressure nothing moves for calls that see no backlog or a host without room, at any times. */
  lemma {:induction false} NoRoomNoChange(b: Budget, s: State, calls: seq<Call>)
    requires b.Valid() && b.minConcurrency <= s.effective <= b.maxConcurrency
    requires forall c | c in calls ::
               && c.pressure == Normal
               && (|| c.snapshot.queued <= 0
                   || (c.snapshot.cpuPercent.Some? && c.snapshot.cpuPercent.value > b.thresholds.cpuLow)
                   || (c.snapshot.rssMb.Some? && c.snapshot.rssMb.value > b.thresholds.memorySoft))
    ensures Run(b, s, calls) == s
    decreases |calls|
  {
    if calls != [] {
      NoRoomNoChange(b, s, calls[..|calls| - 1]);
      assert calls[|calls| - 1] in calls;
    }
  }
}

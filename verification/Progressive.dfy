/** The staged evaluator: one run, runs resumed after deferral, and what deferral leaves unchanged. */
module Progressive {
  import opened Common
  import opened Policy

  datatype Result = Result(
    finished: bool, score: int, nextStage: nat, earlyExit: Option<Reason>, deferReason: Option<Reason>,
    stages: seq<nat>, cost: nat, peakBytes: nat, finalTier: Option<string>, confidence: Option<Confidence>)

  // ---------------------------------------------------------------- one run

  /** The stage at which a run that begins at `index` stops. */
  function StopsAt(mode: Mode, plan: Plan, oracle: nat -> StageOutcome, env: Surroundings, index: nat): (stop: nat)
    requires index < |plan|
    ensures index <= stop < |plan|
    ensures DecisionAt(mode, plan, oracle, env, stop).action != Continue
    ensures forall k | index <= k < stop :: DecisionAt(mode, plan, oracle, env, k).action == Continue
    decreases |plan| - index
  {
    if DecisionAt(mode, plan, oracle, env, index).action == Continue
    then StopsAt(mode, plan, oracle, env, index + 1)
    else index
  }

  function CostOf(plan: Plan, lo: nat, hi: nat): nat
    requires lo <= hi <= |plan|
    decreases hi - lo
  {
    if lo == hi then 0 else plan[lo].costUnits + CostOf(plan, lo + 1, hi)
  }

  function PeakOf(oracle: nat -> StageOutcome, lo: nat, hi: nat): nat
    requires lo <= hi
    decreases hi - lo
  {
    if lo == hi then 0 else Max(oracle(lo).peakBytes, PeakOf(oracle, lo + 1, hi))
  }

  function Range(lo: nat, hi: nat): seq<nat>
    requires lo <= hi
  {
    seq(hi - lo, k requires 0 <= k => lo + k)
  }

  /** What a run returns, in terms of the stage at which it stops. */
  ghost predicate IsRun(mode: Mode, plan: Plan, oracle: nat -> StageOutcome, env: Surroundings, start: nat, r: Result) {
    if start >= |plan| then
      r == Result(true, 0, start, Some(PlanExhausted), None, [], 0, 0, None, None)
    else
      var stop := StopsAt(mode, plan, oracle, env, start);
      var d := DecisionAt(mode, plan, oracle, env, stop);
      && r.finished == (d.action == Finish)
      && r.score == oracle(stop).score
      && r.nextStage == stop + 1
      && r.earlyExit == (if d.action == Finish then Some(d.reason) else None)
      && r.deferReason == (if d.action == Defer then Some(d.reason) else None)
      && r.stages == Range(start, stop + 1)
      && r.cost == CostOf(plan, start, stop + 1)
      && r.peakBytes == PeakOf(oracle, start, stop + 1)
      && r.finalTier == Some(plan[stop].name)
      && r.confidence == Some(oracle(stop).confidence)
  }

  /** The stages from `start` up to `index` were run, at this cost and peak. */
  ghost predicate RanTo(
    plan: Plan, oracle: nat -> StageOutcome, start: nat, index: nat, stages: seq<nat>, cost: nat, peak: nat)
  {
    && start <= index <= |plan| && stages == Range(start, index)
    && cost == CostOf(plan, start, index) && peak == PeakOf(oracle, start, index)
  }

  lemma RanOneMore(
    plan: Plan, oracle: nat -> StageOutcome, start: nat, index: nat, stages: seq<nat>, cost: nat, peak: nat)
    requires RanTo(plan, oracle, start, index, stages, cost, peak) && index < |plan|
    ensures RanTo(plan, oracle, start, index + 1, stages + [index], cost + plan[index].costUnits,
                  Max(peak, oracle(index).peakBytes))
  {
    CostSnoc(plan, start, index);
    PeakSnoc(oracle, start, index);
    assert Range(start, index + 1) == Range(start, index) + [index];
  }

  method Run(mode: Mode, plan: Plan, oracle: nat -> StageOutcome, startStage: int, env: Surroundings)
    returns (r: Result)
    ensures IsRun(mode, plan, oracle, env, if startStage < 0 then 0 else startStage, r)
  {
    hide Decide, RanTo, DeadlineNear, Max;
    var start: nat := if startStage < 0 then 0 else startStage;
    var index: nat, stages: seq<nat>, cost: nat, peak: nat, score := start, [], 0, 0, 0;
    var confidence: Option<Confidence> := None;
    NothingRun(plan, oracle, start);
    while true
      invariant start >= |plan| ==> index == start && stages == [] && cost == peak == score == 0 && confidence == None
      invariant start < |plan| ==> index < |plan| && RanTo(plan, oracle, start, index, stages, cost, peak)
      invariant start < |plan| ==> StopsAt(mode, plan, oracle, env, start) == StopsAt(mode, plan, oracle, env, index)
      decreases |plan| - index
    {
      var stage := StageAt(plan, index);
      if stage.None? {
        break;
      }
      var outcome := oracle(index);
      RanOneMore(plan, oracle, start, index, stages, cost, peak);
      stages := stages + [index];
      peak := Max(peak, outcome.peakBytes);
      cost := cost + stage.value.costUnits;
      score := outcome.score;
      confidence := Some(outcome.confidence);
      var next := StageAt(plan, index + 1);
      var decision := Decide(mode, outcome.confidence, next.Some?, env.pressure,
                             DeadlineNear(env.deadlineAt, env.now(index)),
                             if next.Some? then next.value.costUnits else 0, outcome.safeToTerminate);
      if decision.action == Finish {
        RanIsRun(plan, oracle, start, index + 1, stages, cost, peak);
        return Result(true, score, index + 1, Some(decision.reason), None, stages, cost, peak, Some(stage.value.name),
          confidence);
      }
      if decision.action == Defer {
        RanIsRun(plan, oracle, start, index + 1, stages, cost, peak);
        return Result(false, score, index + 1, None, Some(decision.reason), stages, cost, peak,
          Some(stage.value.name), confidence);
      }
      index := index + 1;
    }
    r := Result(true, score, index, Some(PlanExhausted), None, stages, cost, peak, None, confidence);
  }

  /**
   * What a run reports: the stages it ran in order, up to the first whose decision is not to
   * continue, with the score, tier and confidence of that one, the sum of their costs and the
   * largest of their peaks; or nothing, if it began past the end of the plan.
   */
  lemma RunReports(mode: Mode, plan: Plan, oracle: nat -> StageOutcome, env: Surroundings, start: nat, r: Result)
    returns (costs: seq<nat>)
    requires IsRun(mode, plan, oracle, env, start, r)
    ensures start >= |plan| ==>
              r == Result(true, 0, start, Some(PlanExhausted), None, [], 0, 0, None, None)
    ensures start < |plan| ==>
              var last := start + |r.stages| - 1;
              var d := DecisionAt(mode, plan, oracle, env, last);
              && start <= last < |plan| && r.nextStage == last + 1
              && (forall k | start <= k < last :: DecisionAt(mode, plan, oracle, env, k).action == Continue)
              && d.action != Continue && (r.finished <==> d.action == Finish)
              && r.earlyExit == (if r.finished then Some(d.reason) else None)
              && r.deferReason == (if r.finished then None else Some(d.reason))
              && r.score == oracle(last).score && r.confidence == Some(oracle(last).confidence)
              && r.finalTier == Some(plan[last].name)
    ensures forall k | 0 <= k < |r.stages| :: r.stages[k] == start + k
    ensures start + |r.stages| <= Max(start, |plan|)
    ensures |costs| == |r.stages| + 1 && costs[0] == 0 && costs[|r.stages|] == r.cost
    ensures forall k | 0 <= k < |r.stages| :: costs[k + 1] == costs[k] + plan[start + k].costUnits
    ensures forall k | k in r.stages :: oracle(k).peakBytes <= r.peakBytes
    ensures r.stages != [] ==> exists k :: k in r.stages && oracle(k).peakBytes == r.peakBytes
  {
    hide DecisionAt;
    costs := [0];
    if start < |plan| {
      costs := RunningCosts(plan, start, start + |r.stages|);
      PeakIsLargest(oracle, start, start + |r.stages|);
    }
  }

  lemma {:induction false} RunningCosts(plan: Plan, lo: nat, hi: nat) returns (costs: seq<nat>)
    requires lo <= hi <= |plan|
    ensures |costs| == hi - lo + 1 && costs[0] == 0 && costs[hi - lo] == CostOf(plan, lo, hi)
    ensures forall k | 0 <= k < hi - lo :: costs[k + 1] == costs[k] + plan[lo + k].costUnits
    decreases hi
  {
    costs := [0];
    if lo < hi {
      costs := RunningCosts(plan, lo, hi - 1);
      CostSnoc(plan, lo, hi - 1);
      costs := costs + [CostOf(plan, lo, hi)];
    }
  }

  lemma {:induction false} PeakIsLargest(oracle: nat -> StageOutcome, lo: nat, hi: nat)
    requires lo <= hi
    ensures forall k | k in Range(lo, hi) :: oracle(k).peakBytes <= PeakOf(oracle, lo, hi)
    ensures lo < hi ==> exists k :: k in Range(lo, hi) && oracle(k).peakBytes == PeakOf(oracle, lo, hi)
    decreases hi
  {
    if lo < hi {
      PeakIsLargest(oracle, lo, hi - 1);
      PeakSnoc(oracle, lo, hi - 1);
      assert Range(lo, hi) == Range(lo, hi - 1) + [hi - 1];
    }
  }

  lemma NothingRun(plan: Plan, oracle: nat -> StageOutcome, start: nat)
    ensures start <= |plan| ==> RanTo(plan, oracle, start, start, [], 0, 0)
  {
  }

  lemma RanIsRun(
    plan: Plan, oracle: nat -> StageOutcome, start: nat, index: nat, stages: seq<nat>, cost: nat, peak: nat)
    requires RanTo(plan, oracle, start, index, stages, cost, peak)
    ensures start <= index <= |plan| && stages == Range(start, index)
    ensures cost == CostOf(plan, start, index) && peak == PeakOf(oracle, start, index)
  {
  }

  lemma {:induction false} CostSnoc(plan: Plan, lo: nat, hi: nat)
    requires lo <= hi < |plan|
    ensures CostOf(plan, lo, hi + 1) == CostOf(plan, lo, hi) + plan[hi].costUnits
    decreases hi - lo
  {
    if lo < hi {
      CostSnoc(plan, lo + 1, hi);
    }
  }

  lemma {:induction false} CostSplit(plan: Plan, lo: nat, mid: nat, hi: nat)
    requires lo <= mid <= hi <= |plan|
    ensures CostOf(plan, lo, hi) == CostOf(plan, lo, mid) + CostOf(plan, mid, hi)
    decreases mid - lo
  {
    if lo < mid {
      CostSplit(plan, lo + 1, mid, hi);
    }
  }

  lemma {:induction false} PeakSnoc(oracle: nat -> StageOutcome, lo: nat, hi: nat)
    requires lo <= hi
    ensures PeakOf(oracle, lo, hi + 1) == Max(PeakOf(oracle, lo, hi), oracle(hi).peakBytes)
    decreases hi - lo
  {
    if lo < hi {
      PeakSnoc(oracle, lo + 1, hi);
    }
  }

  lemma {:induction false} PeakSplit(oracle: nat -> StageOutcome, lo: nat, mid: nat, hi: nat)
    requires lo <= mid <= hi
    ensures PeakOf(oracle, lo, hi) == Max(PeakOf(oracle, lo, mid), PeakOf(oracle, mid, hi))
    decreases mid - lo
  {
    if lo < mid {
      PeakSplit(oracle, lo + 1, mid, hi);
    }
  }

  // ---------------------------------------------------------------- deferral is transparent

  /** Fixed-progressive decisions do not depend on the surroundings. */
  lemma {:induction false} FixedIgnoresSurroundings(
    plan: Plan, oracle: nat -> StageOutcome, e1: Surroundings, e2: Surroundings, index: nat)
    requires index < |plan|
    ensures StopsAt(FixedProgressive, plan, oracle, e1, index) == StopsAt(FixedProgressive, plan, oracle, e2, index)
    decreases |plan| - index
  {
    if DecisionAt(FixedProgressive, plan, oracle, e1, index).action == Continue {
      FixedIgnoresSurroundings(plan, oracle, e1, e2, index + 1);
    }
  }

  /** Adaptive and fixed decisions finish alike, and where the adaptive one defers the fixed one continues. */
  lemma DecisionsAgree(plan: Plan, oracle: nat -> StageOutcome, env: Surroundings, fixedEnv: Surroundings, index: nat)
    ensures var adaptive := DecisionAt(ResourceAwareAdaptive, plan, oracle, env, index);
            var fixed := DecisionAt(FixedProgressive, plan, oracle, fixedEnv, index);
            && (adaptive.action == Finish ==> fixed == adaptive)
            && (adaptive.action != Finish ==> fixed.action == Continue && index + 1 < |plan|)
  {
  }

  /**
   * An adaptive run finishes where and why the fixed run does, or it defers strictly earlier,
   * and then the fixed run would pass through the stage at which it resumes.
   */
  lemma {:induction false} AdaptiveFollowsFixed(
    plan: Plan, oracle: nat -> StageOutcome, env: Surroundings, fixedEnv: Surroundings, index: nat)
    requires index < |plan|
    ensures var fixed := StopsAt(FixedProgressive, plan, oracle, fixedEnv, index);
            var stop := StopsAt(ResourceAwareAdaptive, plan, oracle, env, index);
            if DecisionAt(ResourceAwareAdaptive, plan, oracle, env, stop).action == Finish then
              && stop == fixed
              && DecisionAt(ResourceAwareAdaptive, plan, oracle, env, stop)
                 == DecisionAt(FixedProgressive, plan, oracle, fixedEnv, fixed)
            else
              && stop < fixed
              && StopsAt(FixedProgressive, plan, oracle, fixedEnv, stop + 1) == fixed
    decreases |plan| - index
  {
    hide DecisionAt;
    DecisionsAgree(plan, oracle, env, fixedEnv, index);
    if DecisionAt(ResourceAwareAdaptive, plan, oracle, env, index).action == Continue {
      AdaptiveFollowsFixed(plan, oracle, env, fixedEnv, index + 1);
    }
  }

  /** Several runs taken together: all stages, their cost and peak, and the last run's verdict. */
  function Joined(a: Result, b: Result): Result {
    b.(stages := a.stages + b.stages, cost := a.cost + b.cost, peakBytes := Max(a.peakBytes, b.peakBytes))
  }

  /**
   * Runs adaptively, resuming each deferred run at its next stage under new surroundings.
   * However often it is deferred, the whole equals one uninterrupted fixed-progressive run,
   * and no more runs are needed than there are stages.
   */
  method RunToCompletion(
    plan: Plan, oracle: nat -> StageOutcome, envs: nat -> Surroundings, ghost fixedEnv: Surroundings)
    returns (total: Result, runs: nat)
    ensures IsRun(FixedProgressive, plan, oracle, fixedEnv, 0, total)
    ensures 1 <= runs <= Max(1, |plan|)
  {
    total := Run(ResourceAwareAdaptive, plan, oracle, 0, envs(0));
    runs := 1;
    if plan != [] {
      AdaptiveFollowsFixed(plan, oracle, envs(0), fixedEnv, 0);
    }
    while !total.finished
      invariant runs >= 1 && (plan != [] ==> runs <= |plan|) && (plan == [] ==> runs == 1)
      invariant total.finished ==> IsRun(FixedProgressive, plan, oracle, fixedEnv, 0, total)
      invariant !total.finished ==> IsDeferred(plan, oracle, fixedEnv, 0, total) && runs <= total.nextStage
      decreases |plan| - total.nextStage, !total.finished
    {
      var before := total;
      AdaptiveFollowsFixed(plan, oracle, envs(runs), fixedEnv, before.nextStage);
      var r := Run(ResourceAwareAdaptive, plan, oracle, before.nextStage, envs(runs));
      JoinRuns(plan, oracle, envs(runs), fixedEnv, before, r);
      total := Joined(before, r);
      runs := runs + 1;
    }
  }

  /** A deferred prefix of the fixed run from `start`. */
  ghost predicate IsDeferred(plan: Plan, oracle: nat -> StageOutcome, fixedEnv: Surroundings, start: nat, r: Result) {
    && start < |plan| && start < r.nextStage < |plan|
    && StopsAt(FixedProgressive, plan, oracle, fixedEnv, start)
       == StopsAt(FixedProgressive, plan, oracle, fixedEnv, r.nextStage)
    && r.stages == Range(start, r.nextStage)
    && r.cost == CostOf(plan, start, r.nextStage)
    && r.peakBytes == PeakOf(oracle, start, r.nextStage)
  }

  lemma JoinRuns(
    plan: Plan, oracle: nat -> StageOutcome, env: Surroundings, fixedEnv: Surroundings, before: Result, r: Result)
    requires IsDeferred(plan, oracle, fixedEnv, 0, before)
    requires IsRun(ResourceAwareAdaptive, plan, oracle, env, before.nextStage, r)
    ensures before.nextStage < r.nextStage <= |plan|
    ensures if r.finished then IsRun(FixedProgressive, plan, oracle, fixedEnv, 0, Joined(before, r))
            else IsDeferred(plan, oracle, fixedEnv, 0, Joined(before, r))
  {
    hide Decide, DeadlineNear;
    var mid := before.nextStage;
    AdaptiveFollowsFixed(plan, oracle, env, fixedEnv, mid);
    CostSplit(plan, 0, mid, r.nextStage);
    PeakSplit(oracle, 0, mid, r.nextStage);
    assert Range(0, r.nextStage) == Range(0, mid) + Range(mid, r.nextStage);
  }

  // ---------------------------------------------------------------- safe early exit

  /** Safe outcomes satisfy `correct`, and the last stage is safe. */
  ghost predicate SafeContract(plan: Plan, oracle: nat -> StageOutcome, correct: int -> bool) {
    && plan != []
    && (forall k | 0 <= k < |plan| && oracle(k).safeToTerminate :: correct(oracle(k).score))
    && oracle(|plan| - 1).safeToTerminate
  }

  predicate Agreeing(mode: Mode) {
    mode in {AlwaysExpensive, FixedProgressive, ResourceAwareAdaptive}
  }

  /** A run that finishes in one of the three modes has the correct score, wherever it started. */
  lemma SafeExitIsSound(
    mode: Mode, plan: Plan, oracle: nat -> StageOutcome, env: Surroundings, start: nat, r: Result, correct: int -> bool)
    requires mode != Legacy && mode != SyntheticExecution && SafeContract(plan, oracle, correct) && start < |plan|
    requires IsRun(mode, plan, oracle, env, start, r) && r.finished
    ensures correct(r.score)
  {
    var stop := StopsAt(mode, plan, oracle, env, start);
    assert oracle(stop).safeToTerminate;
  }

  /** An early exit from the last two modes is taken only on safe evidence. */
  lemma EarlyExitIsSafe(mode: Mode, plan: Plan, oracle: nat -> StageOutcome, env: Surroundings, start: nat, r: Result)
    requires mode in {FixedProgressive, ResourceAwareAdaptive} && start < |plan|
    requires IsRun(mode, plan, oracle, env, start, r) && r.finished && r.nextStage < |plan|
    ensures r.earlyExit.Some? && r.earlyExit.value.SafeEarlyExit?
    ensures oracle(r.nextStage - 1).safeToTerminate && IsConfident(oracle(r.nextStage - 1).confidence)
  {
  }

  /**
   * What `RunToCompletion` returns: if safe outcomes are right and the last stage is safe, the
   * resumed adaptive runs end in the right score, and an early exit among them was taken on safe,
   * confident and right evidence.
   */
  lemma CompletionIsSound(
    plan: Plan, oracle: nat -> StageOutcome, fixedEnv: Surroundings, total: Result, correct: int -> bool)
    requires SafeContract(plan, oracle, correct) && IsRun(FixedProgressive, plan, oracle, fixedEnv, 0, total)
    ensures total.finished && correct(total.score)
    ensures |total.stages| < |plan| ==>
              && total.earlyExit.Some? && total.earlyExit.value.SafeEarlyExit?
              && oracle(|total.stages| - 1).safeToTerminate && correct(oracle(|total.stages| - 1).score)
  {
    SafeExitIsSound(FixedProgressive, plan, oracle, fixedEnv, 0, total, correct);
    if |total.stages| < |plan| {
      EarlyExitIsSafe(FixedProgressive, plan, oracle, fixedEnv, 0, total);
    }
  }

  /** The same, run: whatever pressure, deadlines and clocks the runs meet. */
  method RunSafely(
    plan: Plan, oracle: nat -> StageOutcome, envs: nat -> Surroundings, ghost correct: int -> bool)
    returns (total: Result, runs: nat)
    requires SafeContract(plan, oracle, correct)
    ensures total.finished && correct(total.score) && runs <= |plan|
    ensures |total.stages| < |plan| ==> total.earlyExit.Some? && total.earlyExit.value.SafeEarlyExit?
  {
    total, runs := RunToCompletion(plan, oracle, envs, envs(0));
    CompletionIsSound(plan, oracle, envs(0), total, correct);
  }
}

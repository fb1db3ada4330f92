/** Evaluation plans, stage outcomes, and the policy that finishes, continues or defers. */
module Policy {

  import opened Common

  datatype Mode = Legacy | AlwaysExpensive | FixedProgressive | ResourceAwareAdaptive | SyntheticExecution
  datatype Confidence = PassConfident | FailConfident | Uncertain
  datatype Action = Finish | Continue | Defer

  datatype Reason =
    | AlwaysExpensiveContinue | PlanExhausted
    | SafeEarlyExit(confidence: Confidence)
    | UnsafeConfidentEscalate | PlanExhaustedUnsafeConfident
    | PlanExhaustedUncertain | UncertainEscalate | UnsupportedModeFinish
    | DegradedDeferHeavy | PressuredDeferHeavy | DeadlineNearEscalate

  datatype EscalationDecision = EscalationDecision(action: Action, reason: Reason)

  datatype StageSpec = StageSpec(name: string, costUnits: nat)

  type Plan = seq<StageSpec>

  function StageAt(plan: Plan, index: int): Option<StageSpec> {
    if index < 0 || index >= |plan| then None else Some(plan[index])
  }

  datatype StageOutcome = StageOutcome(confidence: Confidence, score: int, peakBytes: nat, safeToTerminate: bool)

  /** What a run sees of its surroundings; the clock is read anew at every decision. */
  datatype Surroundings = Surroundings(pressure: Pressure, deadlineAt: Option<real>, now: nat -> real)

  predicate IsConfident(c: Confidence) {
    c == PassConfident || c == FailConfident
  }

  predicate DeadlineNear(deadlineAt: Option<real>, now: real) {
    deadlineAt.Some? && deadlineAt.value - now <= 30.0
  }

  function Decide(
    mode: Mode, confidence: Confidence, nextStageExists: bool, pressure: Pressure,
    deadlineNear: bool, nextStageCost: nat, safeToTerminate: bool): (d: EscalationDecision)
    ensures d.action != Finish ==> nextStageExists
    ensures d.action == Defer ==>
              mode == ResourceAwareAdaptive && pressure != Normal && nextStageCost >= 9 && !deadlineNear
  {
    if mode == AlwaysExpensive then
      if nextStageExists then EscalationDecision(Continue, AlwaysExpensiveContinue)
      else EscalationDecision(Finish, PlanExhausted)
    else if IsConfident(confidence) && safeToTerminate then
      EscalationDecision(Finish, SafeEarlyExit(confidence))
    else if IsConfident(confidence) && !safeToTerminate then
      if nextStageExists then EscalationDecision(Continue, UnsafeConfidentEscalate)
      else EscalationDecision(Finish, PlanExhaustedUnsafeConfident)
    else if !nextStageExists then
      EscalationDecision(Finish, PlanExhaustedUncertain)
    else if mode == FixedProgressive then
      EscalationDecision(Continue, UncertainEscalate)
    else if mode != ResourceAwareAdaptive then
      EscalationDecision(Finish, UnsupportedModeFinish)
    else if pressure == Degraded && nextStageCost >= 9 && !deadlineNear then
      EscalationDecision(Defer, DegradedDeferHeavy)
    else if pressure == Pressured && nextStageCost >= 9 && !deadlineNear then
      EscalationDecision(Defer, PressuredDeferHeavy)
    else if deadlineNear then
      EscalationDecision(Continue, DeadlineNearEscalate)
    else
      EscalationDecision(Continue, UncertainEscalate)
  }

  /** Exactly when a run finishes, defers, and exits early on safe evidence; otherwise it continues. */
  lemma DecisionConditions(
    mode: Mode, confidence: Confidence, nextStageExists: bool, pressure: Pressure,
    deadlineNear: bool, nextStageCost: nat, safeToTerminate: bool)
    ensures var d := Decide(mode, confidence, nextStageExists, pressure, deadlineNear, nextStageCost, safeToTerminate);
            var safe := mode != AlwaysExpensive && IsConfident(confidence) && safeToTerminate;
            && (d.action == Finish <==>
                  !nextStageExists || safe || ((mode.Legacy? || mode.SyntheticExecution?) && !IsConfident(confidence)))
            && (d.action == Defer <==>
                  && mode == ResourceAwareAdaptive && !IsConfident(confidence) && nextStageExists
                  && (pressure.Pressured? || pressure.Degraded?) && nextStageCost >= 9 && !deadlineNear)
            && (d.reason.SafeEarlyExit? <==> safe)
            && (d.reason.SafeEarlyExit? ==> d.reason.confidence == confidence)
  {
  }

  /** The decision after the stage at `index` of the plan. */
  function DecisionAt(
    mode: Mode, plan: Plan, oracle: nat -> StageOutcome, env: Surroundings, index: nat): EscalationDecision {
    var outcome, next := oracle(index), StageAt(plan, index + 1);
    Decide(mode, outcome.confidence, next.Some?, env.pressure, DeadlineNear(env.deadlineAt, env.now(index)),
           if next.Some? then next.value.costUnits else 0, outcome.safeToTerminate)
  }

  /** Which reason a decision has: one condition for each. */
  lemma ReasonConditions(
    mode: Mode, confidence: Confidence, nextStageExists: bool, pressure: Pressure,
    deadlineNear: bool, nextStageCost: nat, safeToTerminate: bool)
    ensures var d := Decide(mode, confidence, nextStageExists, pressure, deadlineNear, nextStageCost, safeToTerminate);
            var staged := mode != AlwaysExpensive;
            var sure := confidence == PassConfident || confidence == FailConfident;
            var adaptive := mode == ResourceAwareAdaptive && confidence == Uncertain && nextStageExists;
            var heavy := nextStageCost >= 9 && !deadlineNear;
            && (d.reason == AlwaysExpensiveContinue <==> !staged && nextStageExists)
            && (d.reason == PlanExhausted <==> !staged && !nextStageExists)
            && (d.reason.SafeEarlyExit? <==> staged && sure && safeToTerminate)
            && (d.reason == UnsafeConfidentEscalate <==> staged && sure && !safeToTerminate && nextStageExists)
            && (d.reason == PlanExhaustedUnsafeConfident <==> staged && sure && !safeToTerminate && !nextStageExists)
            && (d.reason == PlanExhaustedUncertain <==> staged && !sure && !nextStageExists)
            && (d.reason == UnsupportedModeFinish <==>
                  (mode == Legacy || mode == SyntheticExecution) && !sure && nextStageExists)
            && (d.reason == DegradedDeferHeavy <==> adaptive && pressure == Degraded && heavy)
            && (d.reason == PressuredDeferHeavy <==> adaptive && pressure == Pressured && heavy)
            && (d.reason == DeadlineNearEscalate <==> adaptive && deadlineNear)
  {
  }

  /**
   * The decision after a stage, from the plan, the outcome and the clock: it defers a costly next
   * stage under pressure, unless there is a deadline no more than 30 seconds away.
   */
  lemma DeferralLeavesTime(
    mode: Mode, plan: Plan, oracle: nat -> StageOutcome, env: Surroundings, index: nat)
    ensures var d, outcome := DecisionAt(mode, plan, oracle, env, index), oracle(index);
            var time := env.deadlineAt.None? || env.deadlineAt.value - env.now(index) > 30.0;
            && (d.action == Defer <==>
                  && mode == ResourceAwareAdaptive && outcome.confidence == Uncertain && time
                  && index + 1 < |plan| && plan[index + 1].costUnits >= 9 && env.pressure != Normal)
            && (d.action == Continue <==>
                  && index + 1 < |plan|
                  && match mode {
                       case AlwaysExpensive => true
                       case FixedProgressive => outcome.confidence == Uncertain || !outcome.safeToTerminate
                       case ResourceAwareAdaptive =>
                         if outcome.confidence == Uncertain
                         then !time || plan[index + 1].costUnits < 9 || env.pressure == Normal
                         else !outcome.safeToTerminate
                       case _ => outcome.confidence != Uncertain && !outcome.safeToTerminate
                     })
            && (d.reason == DeadlineNearEscalate <==>
                  mode == ResourceAwareAdaptive && outcome.confidence == Uncertain && index + 1 < |plan| && !time)
  {
  }
}

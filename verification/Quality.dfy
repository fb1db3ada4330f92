/** Comparing an evaluation mode's decision with the ground truth. */
module Quality {
  import opened Common
  import opened Policy
  import opened Progressive
  import opened Workload

  datatype QualityComparison = QualityComparison(
    kind: WorkloadKind, groundTruth: Decision, decision: Decision, agreement: bool,
    falseEarlyPass: bool, falseEarlyFail: bool, earlyExit: bool, cost: nat, stages: nat)

  datatype Comparison = Compared(comparison: QualityComparison) | MissingKind

  /**
   * Runs one submission in a mode, resumes it under normal pressure while it is deferred (at most
   * five times), and compares. The three staged modes always agree with the truth and never exit
   * early on a wrong decision; the other modes agree exactly when the truth is a failure or the
   * submission is an easy pass.
   */
  method CompareToGroundTruth(
    digest: Digest, id: SubmissionId, parsedKind: Option<WorkloadKind>, mode: Mode, pressure: Pressure,
    peaks: nat -> nat,
    now: nat -> real)
    returns (r: Comparison, resumes: nat)
    ensures r.MissingKind? <==> parsedKind.None?
    ensures parsedKind.Some? ==>
              var c, kind := r.comparison, parsedKind.value;
              && c.kind == kind
              && c.groundTruth == (if kind.EasyPass? || kind.AmbiguousPass? || kind.HardPass? || kind.AdversarialPass?
                                   then Pass else Fail)
              && (c.agreement <==> c.decision == c.groundTruth)
              && (c.agreement <==>
                    (mode != Legacy && mode != SyntheticExecution) || c.groundTruth == Fail || kind == EasyPass)
              && !c.falseEarlyPass && !c.falseEarlyFail
    ensures parsedKind.Some? && mode == ResourceAwareAdaptive ==>
              forall fixed, env | IsRun(FixedProgressive, DEFAULT_PLAN,
                V3Oracle(DEFAULT_PLAN, digest, parsedKind.value, id, peaks), env, 0, fixed) ::
                r.comparison.cost == fixed.cost && r.comparison.stages == |fixed.stages|
    ensures resumes <= 1
    // An easy submission is settled by the first stage, an ambiguous one by the second, any other by the third.
    ensures parsedKind.Some? && (mode == FixedProgressive || mode == ResourceAwareAdaptive) ==>
              var c := r.comparison;
              match parsedKind.value {
                case EasyPass | EasyFail => c.stages == 1 && c.cost == 1 && c.earlyExit
                case AmbiguousPass | AmbiguousFail => c.stages == 2 && c.cost == 4 && c.earlyExit
                case _ => c.stages == 3 && c.cost == 13 && !c.earlyExit
              }
    ensures parsedKind.Some? && mode == AlwaysExpensive ==>
              r.comparison.stages == 3 && r.comparison.cost == 13 && !r.comparison.earlyExit
    // The other modes stop as soon as they are not sure, and only easy submissions let them be sure.
    ensures parsedKind.Some? && (mode == Legacy || mode == SyntheticExecution) ==>
              var c := r.comparison;
              match parsedKind.value {
                case EasyPass | EasyFail => c.stages == 1 && c.cost == 1 && c.earlyExit
                case AdversarialPass | AdversarialFail => c.stages == 2 && c.cost == 4 && !c.earlyExit
                case _ => c.stages == 1 && c.cost == 1 && !c.earlyExit
              }
  {
    hide IsRun, IsDeferred, V3Oracle, GroundTruthFor, DecisionFromScore, SafeContract;
    resumes := 0;
    if parsedKind.None? {
      return MissingKind, 0;
    }
    var kind := parsedKind.value;
    var truth := GroundTruthFor(digest, kind, id);
    var oracle := V3Oracle(DEFAULT_PLAN, digest, kind, id, peaks);
    V3MeetsContract(DEFAULT_PLAN, digest, kind, id, peaks);
    TruthOfKind(digest, kind, id);
    var env := Surroundings(pressure, None, now);
    var calm := Surroundings(Normal, None, now);
    var result := Run(mode, DEFAULT_PLAN, oracle, 0, env);
    var totalCost, totalStages, early := result.cost, result.stages, result.earlyExit;
    ghost var start: nat := 0;
    ghost var total, last := result, env;
    FirstRun(mode, oracle, env, calm, result);
    while !result.finished && resumes < 5
      invariant start < |DEFAULT_PLAN| && IsRun(mode, DEFAULT_PLAN, oracle, last, start, result)
      invariant result.finished ==> early == total.earlyExit
      invariant mode != ResourceAwareAdaptive ==> total == result
      invariant total.cost == totalCost && total.stages == totalStages
      invariant !result.finished ==> mode == ResourceAwareAdaptive && resumes == 0 && total == result
      invariant !result.finished ==> IsDeferred(DEFAULT_PLAN, oracle, calm, 0, result)
      invariant result.finished && (mode == FixedProgressive || mode == ResourceAwareAdaptive) ==>
        IsRun(FixedProgressive, DEFAULT_PLAN, oracle, calm, 0, total)
      invariant mode != ResourceAwareAdaptive ==> start == 0
      invariant resumes <= 1
    {
      start, last := result.nextStage, calm;
      var next := Run(mode, DEFAULT_PLAN, oracle, result.nextStage, calm);
      JoinRuns(DEFAULT_PLAN, oracle, calm, calm, result, next);
      NormalRunsFinish(mode, DEFAULT_PLAN, oracle, calm, start, next);
      total := Joined(result, next);
      result := next;
      totalCost := totalCost + result.cost;
      totalStages := totalStages + result.stages;
      if result.earlyExit.Some? {
        early := result.earlyExit;
      }
      resumes := resumes + 1;
    }
    if Agreeing(mode) {
      SafeExitIsSound(mode, DEFAULT_PLAN, oracle, last, start, result,
        score => DecisionFromScore(score) == truth.decision);
    } else {
      UnsupportedModes(mode, digest, kind, id, peaks, last, result);
    }
    if mode == AlwaysExpensive {
      ExpensiveTotals(digest, kind, id, peaks, last, result);
    } else if Agreeing(mode) {
      FixedTotals(digest, kind, id, peaks, calm, total);
    }
    if mode == ResourceAwareAdaptive {
      forall fixed, e | IsRun(FixedProgressive, DEFAULT_PLAN, oracle, e, 0, fixed) ensures fixed == total {
        FixedRunIsUnique(DEFAULT_PLAN, oracle, e, calm, 0, fixed, total);
      }
    }
    var decision := DecisionFromScore(result.score);
    var exitedEarly := early.Some? && early.value.SafeEarlyExit? && |totalStages| < 3;
    r := Compared(QualityComparison(
      kind, truth.decision, decision, decision == truth.decision,
      exitedEarly && decision == Pass && truth.decision == Fail,
      exitedEarly && decision == Fail && truth.decision == Pass,
      exitedEarly, totalCost, |totalStages|));
  }

  lemma FirstRun(mode: Mode, oracle: nat -> StageOutcome, env: Surroundings, calm: Surroundings, r: Result)
    requires IsRun(mode, DEFAULT_PLAN, oracle, env, 0, r)
    ensures !r.finished ==> mode == ResourceAwareAdaptive && IsDeferred(DEFAULT_PLAN, oracle, calm, 0, r)
    ensures r.finished && (mode == FixedProgressive || mode == ResourceAwareAdaptive) ==>
              IsRun(FixedProgressive, DEFAULT_PLAN, oracle, calm, 0, r)
  {
    FixedIgnoresSurroundings(DEFAULT_PLAN, oracle, env, calm, 0);
    AdaptiveFollowsFixed(DEFAULT_PLAN, oracle, env, calm, 0);
  }

  /** Under normal pressure nothing is deferred. */
  lemma NormalRunsFinish(mode: Mode, plan: Plan, oracle: nat -> StageOutcome, env: Surroundings, start: nat, r: Result)
    requires IsRun(mode, plan, oracle, env, start, r) && env.pressure == Normal
    ensures r.finished && r.earlyExit.Some?
  {
  }

  lemma FixedRunIsUnique(
    plan: Plan, oracle: nat -> StageOutcome, e1: Surroundings, e2: Surroundings, start: nat, r1: Result, r2: Result)
    requires IsRun(FixedProgressive, plan, oracle, e1, start, r1)
             && IsRun(FixedProgressive, plan, oracle, e2, start, r2)
    ensures r1 == r2
  {
    if start < |plan| {
      FixedIgnoresSurroundings(plan, oracle, e1, e2, start);
    }
  }

  /** The other modes stop at the first stage that is not confidently unsafe. */
  lemma UnsupportedModes(
    mode: Mode, digest: Digest, kind: WorkloadKind, id: SubmissionId, peaks: nat -> nat, env: Surroundings, r: Result)
    requires !Agreeing(mode)
    requires IsRun(mode, DEFAULT_PLAN, V3Oracle(DEFAULT_PLAN, digest, kind, id, peaks), env, 0, r)
    ensures var truth := GroundTruthFor(digest, kind, id).decision;
            && (DecisionFromScore(r.score) == truth <==> truth == Fail || kind == EasyPass)
            && (r.earlyExit.Some? && r.earlyExit.value.SafeEarlyExit? ==> DecisionFromScore(r.score) == truth)
            && (r.earlyExit.Some? && r.earlyExit.value.SafeEarlyExit? <==> kind.EasyPass? || kind.EasyFail?)
    ensures if kind.AdversarialPass? || kind.AdversarialFail? then |r.stages| == 2 && r.cost == 4
            else |r.stages| == 1 && r.cost == 1
  {
    hide IsRun, V3Oracle, GroundTruthFor, DecisionFromScore;
    StagesSay(digest, kind, id, peaks);
    StagesScore(digest, kind, id, peaks);
    var oracle := V3Oracle(DEFAULT_PLAN, digest, kind, id, peaks);
    var costs := RunReports(mode, DEFAULT_PLAN, oracle, env, 0, r);
    SumsOfStages(costs, |r.stages|);
    DeferralLeavesTime(mode, DEFAULT_PLAN, oracle, env, 0);
    DeferralLeavesTime(mode, DEFAULT_PLAN, oracle, env, 1);
    DecisionsInOtherModes(mode, DEFAULT_PLAN, oracle, env, 0);
    DecisionsInOtherModes(mode, DEFAULT_PLAN, oracle, env, 1);
  }

  lemma DecisionsInOtherModes(mode: Mode, plan: Plan, oracle: nat -> StageOutcome, env: Surroundings, index: nat)
    requires !Agreeing(mode)
    ensures DecisionAt(mode, plan, oracle, env, index).reason.SafeEarlyExit? <==>
            oracle(index).confidence != Uncertain && oracle(index).safeToTerminate
  {
  }

  /** The scores at which the other modes may stop: right for an easy submission, and else below the threshold. */
  lemma StagesScore(digest: Digest, kind: WorkloadKind, id: SubmissionId, peaks: nat -> nat)
    ensures var oracle, truth :=
              V3Oracle(DEFAULT_PLAN, digest, kind, id, peaks), GroundTruthFor(digest, kind, id).decision;
            && (kind.EasyPass? || kind.EasyFail? ==> DecisionFromScore(oracle(0).score) == truth)
            && (kind.AmbiguousPass? || kind.AmbiguousFail? || kind.HardPass? || kind.HardFail? ==>
                  DecisionFromScore(oracle(0).score) == Fail)
            && (kind.AdversarialPass? || kind.AdversarialFail? ==> DecisionFromScore(oracle(1).score) == Fail)
            && (kind.EasyFail? ==> truth == Fail)
  {
    assert DEFAULT_PLAN[0].name == "cheap" && DEFAULT_PLAN[1].name == "medium";
    assert "medium" != "cheap" by { assert "medium"[0] != "cheap"[0]; }
    var oracle := V3Oracle(DEFAULT_PLAN, digest, kind, id, peaks);
    var cheap, medium := CheapEvidence(digest, kind, id), MediumEvidence(digest, kind, id);
    assert oracle(0) ==
      StageOutcome(cheap.confidence, ClampScore(cheap.score), peaks(0), cheap.safeToTerminate);
    assert oracle(1) ==
      StageOutcome(medium.confidence, ClampScore(medium.score), peaks(1), medium.safeToTerminate);
  }

  /** What the three stages say of a submission of each kind. */
  lemma StagesSay(digest: Digest, kind: WorkloadKind, id: SubmissionId, peaks: nat -> nat)
    ensures var oracle := V3Oracle(DEFAULT_PLAN, digest, kind, id, peaks);
            && (oracle(0).confidence == Uncertain <==>
                  kind.AmbiguousPass? || kind.AmbiguousFail? || kind.HardPass? || kind.HardFail?)
            && (oracle(0).safeToTerminate <==> kind.EasyPass? || kind.EasyFail?)
            && (oracle(1).confidence == Uncertain <==> !kind.AmbiguousPass? && !kind.AmbiguousFail?)
            && (oracle(1).safeToTerminate <==> kind.AmbiguousPass? || kind.AmbiguousFail?)
            && oracle(2).confidence != Uncertain && oracle(2).safeToTerminate
  {
    var names := ["cheap", "medium", "heavy"];
    assert names[0] != names[1] && names[0] != names[2] && names[1] != names[2] by {
      assert names[0][0] == 'c' && names[1][0] == 'm' && names[2][0] == 'h';
    }
    forall k: nat | k < 3
      ensures var outcome, evidence :=
                V3Oracle(DEFAULT_PLAN, digest, kind, id, peaks)(k), EvidenceForStage(names[k], digest, kind, id);
              outcome.confidence == evidence.confidence && outcome.safeToTerminate == evidence.safeToTerminate
    {
      assert DEFAULT_PLAN[k].name == names[k];
    }
  }

  lemma SumsOfStages(costs: seq<nat>, n: nat)
    requires n <= 3 && |costs| == n + 1 && costs[0] == 0
    requires forall k | 0 <= k < n :: costs[k + 1] == costs[k] + DEFAULT_PLAN[0 + k].costUnits
    ensures n == 1 ==> costs[n] == 1
    ensures n == 2 ==> costs[n] == 4
    ensures n == 3 ==> costs[n] == 13
  {
    if n > 0 {
      assert costs[0 + 1] == 1;
    }
    if n > 1 {
      assert costs[1 + 1] == 4;
    }
    if n > 2 {
      assert costs[2 + 1] == 13;
    }
  }

  lemma TruthOfKind(digest: Digest, kind: WorkloadKind, id: SubmissionId)
    ensures GroundTruthFor(digest, kind, id).decision ==
            if kind.EasyPass? || kind.AmbiguousPass? || kind.HardPass? || kind.AdversarialPass? then Pass else Fail
  {
  }

  /** A fixed run on the three stages: how far it goes, what it costs, and whether it exits early. */
  lemma FixedTotals(
    digest: Digest, kind: WorkloadKind, id: SubmissionId, peaks: nat -> nat, env: Surroundings, r: Result)
    requires IsRun(FixedProgressive, DEFAULT_PLAN, V3Oracle(DEFAULT_PLAN, digest, kind, id, peaks), env, 0, r)
    ensures r.earlyExit.Some? && r.earlyExit.value.SafeEarlyExit?
    ensures match kind {
              case EasyPass | EasyFail => |r.stages| == 1 && r.cost == 1
              case AmbiguousPass | AmbiguousFail => |r.stages| == 2 && r.cost == 4
              case _ => |r.stages| == 3 && r.cost == 13
            }
  {
    hide IsRun, V3Oracle;
    StagesSay(digest, kind, id, peaks);
    var oracle := V3Oracle(DEFAULT_PLAN, digest, kind, id, peaks);
    var costs := RunReports(FixedProgressive, DEFAULT_PLAN, oracle, env, 0, r);
    SumsOfStages(costs, |r.stages|);
    DeferralLeavesTime(FixedProgressive, DEFAULT_PLAN, oracle, env, 0);
    DeferralLeavesTime(FixedProgressive, DEFAULT_PLAN, oracle, env, 1);
    DeferralLeavesTime(FixedProgressive, DEFAULT_PLAN, oracle, env, 2);
  }

  lemma ExpensiveTotals(
    digest: Digest, kind: WorkloadKind, id: SubmissionId, peaks: nat -> nat, env: Surroundings, r: Result)
    requires IsRun(AlwaysExpensive, DEFAULT_PLAN, V3Oracle(DEFAULT_PLAN, digest, kind, id, peaks), env, 0, r)
    ensures |r.stages| == 3 && r.cost == 13
  {
    hide IsRun, V3Oracle;
    var oracle := V3Oracle(DEFAULT_PLAN, digest, kind, id, peaks);
    var costs := RunReports(AlwaysExpensive, DEFAULT_PLAN, oracle, env, 0, r);
    SumsOfStages(costs, |r.stages|);
    DeferralLeavesTime(AlwaysExpensive, DEFAULT_PLAN, oracle, env, 0);
    DeferralLeavesTime(AlwaysExpensive, DEFAULT_PLAN, oracle, env, 1);
  }
}

/** The synthetic v3 workload: ground truth and what each stage may claim. */
module Workload {
  import opened Common
  import opened Policy
  import opened Progressive

  datatype WorkloadKind =
    EasyPass | EasyFail | AmbiguousPass | AmbiguousFail | HardPass | HardFail | AdversarialPass | AdversarialFail

  datatype Decision = Pass | Fail

  type SubmissionId = nat

  /** The first 16 bits of the hash of kind and submission. */
  type Digest = (WorkloadKind, SubmissionId) -> nat

  const PASS_THRESHOLD := 60

  datatype GroundTruth = GroundTruth(decision: Decision, truthScore: int)

  datatype StageEvidence = StageEvidence(
    confidence: Confidence, safeToTerminate: bool, provisional: Option<Decision>, score: int)

  predicate EndsInPass(kind: WorkloadKind) {
    kind in {EasyPass, AmbiguousPass, HardPass, AdversarialPass}
  }

  function GroundTruthFor(digest: Digest, kind: WorkloadKind, id: SubmissionId): GroundTruth {
    var decision := if EndsInPass(kind) then Pass else Fail;
    var jitter := digest(kind, id) % 15;
    GroundTruth(decision, if decision == Pass then 70 + jitter else 10 + jitter)
  }

  function DecisionFromScore(score: int): Decision {
    if score >= PASS_THRESHOLD then Pass else Fail
  }

  function ConfidentIn(d: Decision): Confidence {
    if d == Pass then PassConfident else FailConfident
  }

  function CheapEvidence(digest: Digest, kind: WorkloadKind, id: SubmissionId): StageEvidence {
    var truth := GroundTruthFor(digest, kind, id);
    if kind in {EasyPass, EasyFail} then
      StageEvidence(ConfidentIn(truth.decision), true, Some(truth.decision), truth.truthScore)
    else if kind in {AdversarialPass, AdversarialFail} then
      var wrong := if truth.decision == Pass then Fail else Pass;
      StageEvidence(ConfidentIn(wrong), false, Some(wrong), if wrong == Pass then 95 else 5)
    else
      StageEvidence(Uncertain, false, None, 50)
  }

  function MediumEvidence(digest: Digest, kind: WorkloadKind, id: SubmissionId): StageEvidence {
    var truth := GroundTruthFor(digest, kind, id);
    if kind in {AmbiguousPass, AmbiguousFail} then
      StageEvidence(ConfidentIn(truth.decision), true, Some(truth.decision), truth.truthScore)
    else
      StageEvidence(Uncertain, false, None, 50)
  }

  function HeavyEvidence(digest: Digest, kind: WorkloadKind, id: SubmissionId): StageEvidence {
    var truth := GroundTruthFor(digest, kind, id);
    StageEvidence(ConfidentIn(truth.decision), true, Some(truth.decision), truth.truthScore)
  }

  function EvidenceForStage(stage: string, digest: Digest, kind: WorkloadKind, id: SubmissionId): StageEvidence {
    if stage == "cheap" then CheapEvidence(digest, kind, id)
    else if stage == "medium" then MediumEvidence(digest, kind, id)
    else HeavyEvidence(digest, kind, id)
  }

  function ClampScore(score: int): int {
    if score < 0 then 0 else if score > 100 then 100 else score
  }

  const DEFAULT_PLAN: Plan := [StageSpec("cheap", 1), StageSpec("medium", 3), StageSpec("heavy", 9)]

  /** Running the stage at an index of the plan on a submission of a v3 kind. */
  function V3Oracle(
    plan: Plan, digest: Digest, kind: WorkloadKind, id: SubmissionId, peaks: nat -> nat): nat -> StageOutcome {
    (index: nat) =>
      var e := EvidenceForStage(if index < |plan| then plan[index].name else "", digest, kind, id);
      StageOutcome(e.confidence, ClampScore(e.score), peaks(index), e.safeToTerminate)
  }

  /** Whatever a stage says, a claim of safety comes with a score that decides as the truth does. */
  lemma SafeEvidenceIsTrue(stage: string, digest: Digest, kind: WorkloadKind, id: SubmissionId)
    ensures var e := EvidenceForStage(stage, digest, kind, id);
            e.safeToTerminate ==>
              DecisionFromScore(ClampScore(e.score)) == GroundTruthFor(digest, kind, id).decision
  {
  }

  /** Any plan that ends in a heavy stage meets the contract of safe early exit, for every submission. */
  lemma V3MeetsContract(plan: Plan, digest: Digest, kind: WorkloadKind, id: SubmissionId, peaks: nat -> nat)
    requires plan != [] && plan[|plan| - 1].name !in {"cheap", "medium"}
    ensures SafeContract(plan, V3Oracle(plan, digest, kind, id, peaks),
                         score => DecisionFromScore(score) == GroundTruthFor(digest, kind, id).decision)
  {
    forall k | 0 <= k < |plan| && V3Oracle(plan, digest, kind, id, peaks)(k).safeToTerminate
      ensures DecisionFromScore(V3Oracle(plan, digest, kind, id, peaks)(k).score) == GroundTruthFor(digest, kind,
              id).decision
    {
      SafeEvidenceIsTrue(plan[k].name, digest, kind, id);
    }
    var last := plan[|plan| - 1].name;
    assert EvidenceForStage(last, digest, kind, id) == HeavyEvidence(digest, kind, id);
    assert V3Oracle(plan, digest, kind, id, peaks)(|plan| - 1).safeToTerminate;
  }
}

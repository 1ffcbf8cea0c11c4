/**
 Constraint filtering and deterministic ranking of execution paths: hard gates first, then floor-division
 scores, then a total order on score, priority and identifier.
 */
module Routing {
  import opened Wrappers
  import Sorting
  import Text

  const MAX_LATENCY_MS := 86_400_000
  const MAX_COST := 1_000_000_000_000_000

  datatype RiskClass = ReadOnly | ReversibleWrite | ConsequentialWrite

  datatype DataClass = Public | Internal | Confidential | Restricted

  datatype Level = L0 | L1 | L2 | L3

  datatype Channel = Api | Edi | Browser | Human

  datatype Status = Unknown | Healthy | Degraded | Unavailable

  function RiskRank(r: RiskClass): nat {
    match r case ReadOnly => 0 case ReversibleWrite => 1 case ConsequentialWrite => 2
  }

  function DataRank(d: DataClass): nat {
    match d case Public => 0 case Internal => 1 case Confidential => 2 case Restricted => 3
  }

  function LevelRank(l: Level): nat {
    match l case L0 => 0 case L1 => 1 case L2 => 2 case L3 => 3
  }

  datatype Candidate = Candidate(
    candidateId: string, capability: string, channel: Channel,
    baselineSuccess: int, baselineWeight: int, expectedLatency: int, cost: int, priority: int,
    maximumRisk: RiskClass, maximumData: DataClass, maximumLevel: Level,
    requiresApproval: bool, enabled: bool, profile: string)
  {
    predicate Valid() {
      && 0 <= baselineSuccess <= 10_000 && 1 <= baselineWeight <= 10_000
      && 1 <= expectedLatency <= MAX_LATENCY_MS && 0 <= cost <= MAX_COST && 0 <= priority <= 1_000_000
    }
  }

  datatype Weights = Weights(reliability: int, latency: int, cost: int)

  datatype Policy = Policy(
    policyId: string, version: string,
    allowedChannels: seq<Channel>, allowedIds: seq<string>, deniedIds: seq<string>,
    minimumSuccess: int, maximumLatency: int, maximumCost: int,
    maximumRisk: RiskClass, maximumData: DataClass, minimumLevel: Level,
    approvalAtOrAbove: Option<RiskClass>,
    minimumSamples: int, windowSize: int, failureThreshold: int, cooldownSeconds: int,
    maximumFallbacks: nat, weights: Weights)
  {
    predicate Valid() {
      && 0 <= minimumSuccess <= 10_000 && 1 <= maximumLatency <= MAX_LATENCY_MS && 0 <= maximumCost <= MAX_COST
      && 0 <= minimumSamples <= 10_000 && 1 <= windowSize <= 10_000
      && 1 <= failureThreshold <= 100 && 1 <= cooldownSeconds <= 86_400 && maximumFallbacks <= 15
      && 0 <= weights.reliability <= 1000 && 0 <= weights.latency <= 1000 && 0 <= weights.cost <= 1000
      && 0 < weights.reliability + weights.latency + weights.cost
    }
  }

  datatype Request = Request(
    tenantId: string, capability: string, risk: RiskClass, data: DataClass, level: Level, evaluatedAt: int)

  datatype Snapshot = Snapshot(
    tenantId: string, candidateId: string, evaluatedAt: int, status: Status,
    sampleCount: int, successCount: int, retryableCount: int, terminalCount: int, consecutiveFailures: int,
    observedSuccess: Option<int>, p95Latency: Option<int>, lastOutcomeAt: Option<int>, circuitOpenUntil: Option<int>)
  {
    /** What the snapshot's own validator accepts. */
    predicate Valid() {
      && 0 <= sampleCount <= 10_000 && 0 <= successCount && 0 <= retryableCount && 0 <= terminalCount
      && successCount + retryableCount + terminalCount == sampleCount
      && 0 <= consecutiveFailures <= sampleCount
      && (observedSuccess.Some? ==> 0 <= observedSuccess.value <= 10_000)
      && (p95Latency.Some? ==> 0 <= p95Latency.value <= MAX_LATENCY_MS)
      && (sampleCount == 0 ==>
            && observedSuccess.None? && p95Latency.None? && lastOutcomeAt.None? && circuitOpenUntil.None?
            && status.Unknown?)
      && (0 < sampleCount ==> observedSuccess.Some? && p95Latency.Some? && lastOutcomeAt.Some?)
      && (status.Unavailable? <==> circuitOpenUntil.Some?)
      && (circuitOpenUntil.Some? ==> evaluatedAt < circuitOpenUntil.value)
    }
  }

  datatype Reason =
    | HealthSnapshotMissing | CandidateDisabled | CapabilityMismatch | ChannelNotAllowed
    | CandidateNotAllowed | CandidateDenied | CandidateRiskUnsupported | PolicyRiskExceeded
    | CandidateDataUnsupported | PolicyDataExceeded | VerificationLevelUnsupported
    | CostLimitExceeded | LatencyLimitExceeded | ReliabilityBelowMinimum | CircuitOpen | ApprovalRequired

  datatype Scores = Scores(reliability: int, latency: int, cost: int, weighted: int)

  /** A rejected candidate carries its reasons, an eligible one its scores. */
  datatype Evaluation = Evaluation(
    candidateId: string, profile: string, status: Status, reasons: set<Reason>,
    effectiveSuccess: int, effectiveLatency: int, cost: int, priority: int, scores: Option<Scores>)
  {
    predicate Eligible() {
      reasons == {}
    }
  }

  datatype Decision = Decision(
    request: Request, policyId: string, policyVersion: string,
    snapshots: seq<Snapshot>, evaluations: seq<Evaluation>,
    rankedIds: seq<string>, selectedId: string, fallbackIds: seq<string>)

  datatype Error =
    | NoEligibleRoute | TooManyCandidates | DuplicateCandidate
    | DuplicateSnapshot | SnapshotIdentity | DecisionInvalid

  // ---------------------------------------------------------------- scores

  function EffectiveSuccess(candidate: Candidate, health: Snapshot): int
    requires candidate.Valid() && health.Valid()
  {
    if health.sampleCount == 0 then candidate.baselineSuccess
    else
      (candidate.baselineSuccess * candidate.baselineWeight + health.successCount * 10_000)
      / (candidate.baselineWeight + health.sampleCount)
  }

  function InverseScore(value: int, maximum: int): int
    requires 0 <= value && 0 <= maximum
  {
    if maximum == 0 then if value == 0 then 10_000 else 0
    else
      var score := 10_000 - value * 10_000 / maximum;
      if score < 0 then 0 else score
  }

  function WeightedScore(weights: Weights, reliability: int, latency: int, cost: int): int
    requires 0 < weights.reliability + weights.latency + weights.cost
  {
    (reliability * weights.reliability + latency * weights.latency + cost * weights.cost)
    / (weights.reliability + weights.latency + weights.cost)
  }

  function SuccessOf(candidate: Candidate, health: Option<Snapshot>): int
    requires candidate.Valid() && (health.Some? ==> health.value.Valid())
  {
    if health.None? then candidate.baselineSuccess else EffectiveSuccess(candidate, health.value)
  }

  /** A missing or zero percentile falls back to the expected latency. */
  function LatencyOf(candidate: Candidate, health: Option<Snapshot>): int {
    if health.Some? && health.value.p95Latency.Some? && health.value.p95Latency.value != 0
    then health.value.p95Latency.value
    else candidate.expectedLatency
  }

  // ---------------------------------------------------------------- gates

  function Max(a: nat, b: nat): nat {
    if a < b then b else a
  }

  /** When each reason to reject applies. */
  predicate Rejects(reason: Reason, request: Request, c: Candidate, health: Option<Snapshot>, policy: Policy)
    requires c.Valid() && (health.Some? ==> health.value.Valid())
  {
    match reason
    case HealthSnapshotMissing => health.None?
    case CandidateDisabled => !c.enabled
    case CapabilityMismatch => c.capability != request.capability
    case ChannelNotAllowed => c.channel !in policy.allowedChannels
    case CandidateNotAllowed => policy.allowedIds != [] && c.candidateId !in policy.allowedIds
    case CandidateDenied => c.candidateId in policy.deniedIds
    case CandidateRiskUnsupported => RiskRank(c.maximumRisk) < RiskRank(request.risk)
    case PolicyRiskExceeded => RiskRank(policy.maximumRisk) < RiskRank(request.risk)
    case CandidateDataUnsupported => DataRank(c.maximumData) < DataRank(request.data)
    case PolicyDataExceeded => DataRank(policy.maximumData) < DataRank(request.data)
    case VerificationLevelUnsupported =>
      LevelRank(c.maximumLevel) < Max(LevelRank(request.level), LevelRank(policy.minimumLevel))
    case CostLimitExceeded => policy.maximumCost < c.cost
    case LatencyLimitExceeded => policy.maximumLatency < LatencyOf(c, health)
    case ReliabilityBelowMinimum => SuccessOf(c, health) < policy.minimumSuccess
    case CircuitOpen => health.Some? && health.value.status.Unavailable?
    case ApprovalRequired =>
      && policy.approvalAtOrAbove.Some? && RiskRank(policy.approvalAtOrAbove.value) <= RiskRank(request.risk)
      && !c.requiresApproval
  }

  ghost function Reasons(request: Request, c: Candidate, health: Option<Snapshot>, policy: Policy): set<Reason>
    requires c.Valid() && (health.Some? ==> health.value.Valid())
  {
    set reason: Reason | Rejects(reason, request, c, health, policy)
  }

  ghost function Evaluate(request: Request, c: Candidate, health: Option<Snapshot>, policy: Policy): Evaluation
    requires c.Valid() && policy.Valid() && (health.Some? ==> health.value.Valid())
  {
    var reasons := Reasons(request, c, health, policy);
    var success, latency := SuccessOf(c, health), LatencyOf(c, health);
    Evaluation(
      c.candidateId, c.profile, if health.None? then Unknown else health.value.status,
      reasons, success, latency, c.cost, c.priority,
      if reasons != {} then None
      else
        var latencyScore := InverseScore(latency, policy.maximumLatency);
        var costScore := InverseScore(c.cost, policy.maximumCost);
        Some(Scores(success, latencyScore, costScore,
                    WeightedScore(policy.weights, success, latencyScore, costScore))))
  }

  // ---------------------------------------------------------------- ranking

  predicate CandidateOrder(a: Candidate, b: Candidate) {
    Text.Leq(a.candidateId, b.candidateId)
  }

  predicate SnapshotOrder(a: Snapshot, b: Snapshot) {
    Text.Leq(a.candidateId, b.candidateId)
  }

  function Score(e: Evaluation): int {
    if e.scores.None? then 0 else e.scores.value.weighted
  }

  /** Higher score first, then lower priority number, then identifier. */
  predicate RankOrder(a: Evaluation, b: Evaluation) {
    if Score(a) != Score(b) then Score(a) > Score(b)
    else if a.priority != b.priority then a.priority < b.priority
    else Text.Leq(a.candidateId, b.candidateId)
  }

  function CandidateIds(candidates: seq<Candidate>): seq<string> {
    seq(|candidates|, i requires 0 <= i < |candidates| => candidates[i].candidateId)
  }

  function SnapshotIds(snapshots: seq<Snapshot>): seq<string> {
    seq(|snapshots|, i requires 0 <= i < |snapshots| => snapshots[i].candidateId)
  }

  function EvaluationIds(evaluations: seq<Evaluation>): seq<string> {
    seq(|evaluations|, i requires 0 <= i < |evaluations| => evaluations[i].candidateId)
  }

  /** As many different identifiers as identifiers. */
  predicate Unique(ids: seq<string>) {
    |set id | id in ids| == |ids|
  }

  function FindSnapshot(snapshots: seq<Snapshot>, id: string): (r: Option<Snapshot>)
    ensures r.Some? ==> r.value in snapshots && r.value.candidateId == id
    ensures r.None? ==> forall s | s in snapshots :: s.candidateId != id
  {
    if snapshots == [] then None
    else if snapshots[0].candidateId == id then Some(snapshots[0])
    else FindSnapshot(snapshots[1..], id)
  }

  predicate NeedsApproval(candidates: seq<Candidate>, id: string) {
    exists i :: 0 <= i < |candidates| && candidates[i].candidateId == id && candidates[i].requiresApproval
  }

  predicate Identified(request: Request, snapshot: Snapshot) {
    snapshot.tenantId == request.tenantId && snapshot.evaluatedAt == request.evaluatedAt
  }

  /** The first snapshot that repeats an identifier or does not match the request decides the error. */
  function HealthError(request: Request, snapshots: seq<Snapshot>, seen: set<string>): Option<Error> {
    if snapshots == [] then None
    else if snapshots[0].candidateId in seen then Some(DuplicateSnapshot)
    else if !Identified(request, snapshots[0]) then Some(SnapshotIdentity)
    else HealthError(request, snapshots[1..], seen + {snapshots[0].candidateId})
  }

  predicate ValidInputs(candidates: seq<Candidate>, snapshots: seq<Snapshot>, policy: Policy) {
    && policy.Valid()
    && (forall c | c in candidates :: c.Valid())
    && forall s | s in snapshots :: s.Valid()
  }

  ghost function EvaluateAll(request: Request, candidates: seq<Candidate>, snapshots: seq<Snapshot>, policy: Policy)
    : seq<Evaluation>
    requires ValidInputs(candidates, snapshots, policy)
  {
    seq(|candidates|, i requires 0 <= i < |candidates| =>
      Evaluate(request, candidates[i], FindSnapshot(snapshots, candidates[i].candidateId), policy))
  }

  function Eligible(evaluations: seq<Evaluation>): seq<Evaluation> {
    Sorting.Filter((e: Evaluation) => e.Eligible(), evaluations)
  }

  function Take(ids: seq<string>, n: nat): seq<string> {
    if |ids| <= n then ids else ids[..n]
  }

  function Fallbacks(request: Request, candidates: seq<Candidate>, ranked: seq<string>, policy: Policy): seq<string>
    requires ranked != []
  {
    if !request.risk.ReadOnly? then []
    else Take(Sorting.Filter((id: string) => !NeedsApproval(candidates, id), ranked[1..]), policy.maximumFallbacks)
  }

  /** The decision model itself refuses health for candidates that were not evaluated. */
  predicate DecisionAccepts(candidates: seq<Candidate>, snapshots: seq<Snapshot>) {
    |snapshots| <= 16 && forall s | s in snapshots :: s.candidateId in CandidateIds(candidates)
  }

  ghost function Select(request: Request, candidates: seq<Candidate>, snapshots: seq<Snapshot>, policy: Policy)
    : Result<Decision, Error>
    requires ValidInputs(candidates, snapshots, policy)
  {
    if candidates == [] then Failure(NoEligibleRoute)
    else if 16 < |candidates| then Failure(TooManyCandidates)
    else if !Unique(CandidateIds(candidates)) then Failure(DuplicateCandidate)
    else if HealthError(request, snapshots, {}).Some? then Failure(HealthError(request, snapshots, {}).value)
    else
      SortedCandidatesValid(candidates);
      var evaluations := EvaluateAll(request, Sorting.Sort(CandidateOrder, candidates), snapshots, policy);
      var ranked := Sorting.Sort(RankOrder, Eligible(evaluations));
      if ranked == [] then Failure(NoEligibleRoute)
      else if !DecisionAccepts(candidates, snapshots) then Failure(DecisionInvalid)
      else
        var rankedIds := EvaluationIds(ranked);
        Success(Decision(request, policy.policyId, policy.version, Sorting.Sort(SnapshotOrder, snapshots),
                         evaluations, rankedIds, rankedIds[0],
                         Fallbacks(request, candidates, rankedIds, policy)))
  }

  // ---------------------------------------------------------------- the orders

  lemma OrdersArePreorders()
    ensures Sorting.Preorder(CandidateOrder) && Sorting.Preorder(SnapshotOrder) && Sorting.Preorder(RankOrder)
  {
    forall a: string, b: string ensures Text.Leq(a, b) || Text.Leq(b, a) {
      Text.Total(a, b);
    }
    forall a: string, b: string, c: string | Text.Leq(a, b) && Text.Leq(b, c) ensures Text.Leq(a, c) {
      Text.Transitive(a, b, c);
    }
  }

  lemma SortedCandidatesValid(candidates: seq<Candidate>)
    ensures forall c :: c in Sorting.Sort(CandidateOrder, candidates) <==> c in candidates
    ensures |Sorting.Sort(CandidateOrder, candidates)| == |candidates|
  {
    OrdersArePreorders();
    Sorting.SortMembers(CandidateOrder, candidates);
  }

  // ---------------------------------------------------------------- the original's statements

  const PROFILE_GATES := {CandidateDisabled, CapabilityMismatch, ChannelNotAllowed, CandidateNotAllowed, CandidateDenied}
  const CLASS_GATES := {CandidateRiskUnsupported, PolicyRiskExceeded, CandidateDataUnsupported, PolicyDataExceeded}
  const ASSURANCE_GATES := {VerificationLevelUnsupported, ApprovalRequired}
  const MEASURE_GATES := {HealthSnapshotMissing, CostLimitExceeded, LatencyLimitExceeded, ReliabilityBelowMinimum, CircuitOpen}

  /** `reasons` are exactly those of `gates` that reject. */
  ghost predicate Decided(reasons: set<Reason>, gates: set<Reason>, request: Request, c: Candidate,
                          health: Option<Snapshot>, policy: Policy)
    requires c.Valid() && (health.Some? ==> health.value.Valid())
  {
    forall q: Reason :: q in reasons <==> q in gates && Rejects(q, request, c, health, policy)
  }

  method ProfileGates(request: Request, c: Candidate, ghost health: Option<Snapshot>, policy: Policy)
    returns (reasons: set<Reason>)
    requires c.Valid() && (health.Some? ==> health.value.Valid())
    ensures Decided(reasons, PROFILE_GATES, request, c, health, policy)
  {
    reasons := {};
    if !c.enabled {
      reasons := reasons + {CandidateDisabled};
    }
    if c.capability != request.capability {
      reasons := reasons + {CapabilityMismatch};
    }
    if c.channel !in policy.allowedChannels {
      reasons := reasons + {ChannelNotAllowed};
    }
    if policy.allowedIds != [] && c.candidateId !in policy.allowedIds {
      reasons := reasons + {CandidateNotAllowed};
    }
    if c.candidateId in policy.deniedIds {
      reasons := reasons + {CandidateDenied};
    }
  }

  method ClassGates(request: Request, c: Candidate, ghost health: Option<Snapshot>, policy: Policy)
    returns (reasons: set<Reason>)
    requires c.Valid() && (health.Some? ==> health.value.Valid())
    ensures Decided(reasons, CLASS_GATES, request, c, health, policy)
  {
    reasons := {};
    if RiskRank(request.risk) > RiskRank(c.maximumRisk) {
      reasons := reasons + {CandidateRiskUnsupported};
    }
    if RiskRank(request.risk) > RiskRank(policy.maximumRisk) {
      reasons := reasons + {PolicyRiskExceeded};
    }
    if DataRank(request.data) > DataRank(c.maximumData) {
      reasons := reasons + {CandidateDataUnsupported};
    }
    if DataRank(request.data) > DataRank(policy.maximumData) {
      reasons := reasons + {PolicyDataExceeded};
    }
  }

  method AssuranceGates(request: Request, c: Candidate, ghost health: Option<Snapshot>, policy: Policy)
    returns (reasons: set<Reason>)
    requires c.Valid() && (health.Some? ==> health.value.Valid())
    ensures Decided(reasons, ASSURANCE_GATES, request, c, health, policy)
  {
    reasons := {};
    var required := Max(LevelRank(request.level), LevelRank(policy.minimumLevel));
    if LevelRank(c.maximumLevel) < required {
      reasons := reasons + {VerificationLevelUnsupported};
    }
    if policy.approvalAtOrAbove.Some? && RiskRank(request.risk) >= RiskRank(policy.approvalAtOrAbove.value)
       && !c.requiresApproval {
      reasons := reasons + {ApprovalRequired};
    }
  }

  method MeasureGates(request: Request, c: Candidate, health: Option<Snapshot>, policy: Policy,
                      success: int, latency: int)
    returns (reasons: set<Reason>)
    requires c.Valid() && (health.Some? ==> health.value.Valid())
    requires success == SuccessOf(c, health) && latency == LatencyOf(c, health)
    ensures Decided(reasons, MEASURE_GATES, request, c, health, policy)
  {
    reasons := if health.None? then {HealthSnapshotMissing} else {};
    if c.cost > policy.maximumCost {
      reasons := reasons + {CostLimitExceeded};
    }
    if latency > policy.maximumLatency {
      reasons := reasons + {LatencyLimitExceeded};
    }
    if success < policy.minimumSuccess {
      reasons := reasons + {ReliabilityBelowMinimum};
    }
    if health.Some? && health.value.status == Unavailable {
      reasons := reasons + {CircuitOpen};
    }
  }

  method EvaluateCandidate(request: Request, c: Candidate, health: map<string, Snapshot>, policy: Policy)
    returns (r: Evaluation)
    requires c.Valid() && policy.Valid() && forall id | id in health :: health[id].Valid()
    ensures r == Evaluate(request, c, if c.candidateId in health then Some(health[c.candidateId]) else None, policy)
  {
    var known := if c.candidateId in health then Some(health[c.candidateId]) else None;
    var status, success, latency := Unknown, c.baselineSuccess, c.expectedLatency;
    if known.Some? {
      status, success := known.value.status, EffectiveSuccess(c, known.value);
      if known.value.p95Latency.Some? && known.value.p95Latency.value != 0 {
        latency := known.value.p95Latency.value;
      }
    }
    var profile := ProfileGates(request, c, known, policy);
    var classes := ClassGates(request, c, known, policy);
    var assurance := AssuranceGates(request, c, known, policy);
    var measures := MeasureGates(request, c, known, policy, success, latency);
    var reasons := profile + classes + assurance + measures;
    GatesCoverReasons(request, c, known, policy, profile, classes, assurance, measures);
    if reasons != {} {
      return Evaluation(c.candidateId, c.profile, status, reasons, success, latency, c.cost, c.priority, None);
    }
    var latencyScore := InverseScore(latency, policy.maximumLatency);
    var costScore := InverseScore(c.cost, policy.maximumCost);
    var weighted := WeightedScore(policy.weights, success, latencyScore, costScore);
    return Evaluation(c.candidateId, c.profile, status, {}, success, latency, c.cost, c.priority,
                      Some(Scores(success, latencyScore, costScore, weighted)));
  }

  lemma GatesCoverReasons(request: Request, c: Candidate, health: Option<Snapshot>, policy: Policy,
                          profile: set<Reason>, classes: set<Reason>,
                          assurance: set<Reason>, measures: set<Reason>)
    requires c.Valid() && (health.Some? ==> health.value.Valid())
    requires Decided(profile, PROFILE_GATES, request, c, health, policy)
    requires Decided(classes, CLASS_GATES, request, c, health, policy)
    requires Decided(assurance, ASSURANCE_GATES, request, c, health, policy)
    requires Decided(measures, MEASURE_GATES, request, c, health, policy)
    ensures profile + classes + assurance + measures == Reasons(request, c, health, policy)
  {
    hide Rejects;
    forall q: Reason ensures q in profile + classes + assurance + measures <==> Rejects(q, request, c, health, policy) {
      assert q.HealthSnapshotMissing? || q.CandidateDisabled? || q.CapabilityMismatch? || q.ChannelNotAllowed?
          || q.CandidateNotAllowed? || q.CandidateDenied? || q.CandidateRiskUnsupported? || q.PolicyRiskExceeded?
          || q.CandidateDataUnsupported? || q.PolicyDataExceeded? || q.VerificationLevelUnsupported?
          || q.CostLimitExceeded? || q.LatencyLimitExceeded? || q.ReliabilityBelowMinimum? || q.CircuitOpen?
          || q.ApprovalRequired?;
    }
  }

  method ValidatedHealth(request: Request, snapshots: seq<Snapshot>)
    returns (r: Result<map<string, Snapshot>, Error>)
    ensures r.Failure? <==> HealthError(request, snapshots, {}).Some?
    ensures r.Failure? ==> r.error == HealthError(request, snapshots, {}).value
    ensures r.Success? ==>
              && (forall id :: id in r.value <==> FindSnapshot(snapshots, id).Some?)
              && forall id | id in r.value :: FindSnapshot(snapshots, id) == Some(r.value[id])
  {
    var result: map<string, Snapshot> := map[];
    assert snapshots[0..] == snapshots && result.Keys == {};
    for i := 0 to |snapshots|
      invariant HealthError(request, snapshots, {}) == HealthError(request, snapshots[i..], result.Keys)
      invariant forall id :: id in result <==> FindSnapshot(snapshots[..i], id).Some?
      invariant forall id | id in result :: FindSnapshot(snapshots[..i], id) == Some(result[id])
    {
      var snapshot := snapshots[i];
      assert snapshots[i..][0] == snapshot && snapshots[i..][1..] == snapshots[i + 1..];
      if snapshot.candidateId in result {
        return Failure(DuplicateSnapshot);
      }
      if snapshot.tenantId != request.tenantId || snapshot.evaluatedAt != request.evaluatedAt {
        return Failure(SnapshotIdentity);
      }
      forall id {
        FindAppend(snapshots[..i], snapshot, id);
      }
      assert snapshots[..i + 1] == snapshots[..i] + [snapshot];
      ghost var keys := result.Keys + {snapshot.candidateId};
      result := result[snapshot.candidateId := snapshot];
      assert result.Keys == keys;
    }
    assert snapshots[..|snapshots|] == snapshots;
    return Success(result);
  }

  lemma {:induction false} FindAppend(snapshots: seq<Snapshot>, last: Snapshot, id: string)
    ensures FindSnapshot(snapshots + [last], id) ==
            if FindSnapshot(snapshots, id).Some? then FindSnapshot(snapshots, id)
            else if last.candidateId == id then Some(last) else None
  {
    if snapshots == [] {
      assert [last][1..] == [];
    } else {
      assert (snapshots + [last])[0] == snapshots[0] && (snapshots + [last])[1..] == snapshots[1..] + [last];
      FindAppend(snapshots[1..], last, id);
    }
  }

  method SelectRoute(request: Request, candidates: seq<Candidate>, snapshots: seq<Snapshot>, policy: Policy)
    returns (r: Result<Decision, Error>)
    requires ValidInputs(candidates, snapshots, policy)
    ensures r == Select(request, candidates, snapshots, policy)
  {
    if candidates == [] {
      return Failure(NoEligibleRoute);
    }
    if |candidates| > 16 {
      return Failure(TooManyCandidates);
    }
    if !Unique(CandidateIds(candidates)) {
      return Failure(DuplicateCandidate);
    }
    var health := ValidatedHealth(request, snapshots);
    if health.Failure? {
      return Failure(health.error);
    }
    SortedCandidatesValid(candidates);
    var ordered := Sorting.Sort(CandidateOrder, candidates);
    var evaluations: seq<Evaluation> := [];
    ghost var expected := EvaluateAll(request, ordered, snapshots, policy);
    for i := 0 to |ordered|
      invariant evaluations == expected[..i]
    {
      var evaluation := EvaluateCandidate(request, ordered[i], health.value, policy);
      evaluations := evaluations + [evaluation];
    }
    assert evaluations == expected;
    var eligible := Eligible(evaluations);
    OrdersArePreorders();
    Sorting.SortMembers(RankOrder, eligible);
    if eligible == [] {
      return Failure(NoEligibleRoute);
    }
    var ranked := Sorting.Sort(RankOrder, eligible);
    var rankedIds := EvaluationIds(ranked);
    var fallbackIds: seq<string> := [];
    if request.risk == ReadOnly {
      fallbackIds := Take(Sorting.Filter((id: string) => !NeedsApproval(candidates, id), rankedIds[1..]),
                          policy.maximumFallbacks);
    }
    if !DecisionAccepts(candidates, snapshots) {
      return Failure(DecisionInvalid);
    }
    return Success(Decision(request, policy.policyId, policy.version, Sorting.Sort(SnapshotOrder, snapshots),
                            evaluations, rankedIds, rankedIds[0], fallbackIds));
  }
}

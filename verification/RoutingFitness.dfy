/** Which candidates are ranked and on what scores, in terms of the policy and without rounding. */
module RoutingFitness {
  import opened Wrappers
  import opened Routing
  import RoutingBounds
  import P = RoutingProperties
  import Sorting

  // ---------------------------------------------------------------- who is ranked

  predicate RiskAtMost(a: RiskClass, b: RiskClass) {
    a == b || a.ReadOnly? || b.ConsequentialWrite?
  }

  predicate DataAtMost(a: DataClass, b: DataClass) {
    a == b || a.Public? || b.Restricted? || (a.Internal? && b.Confidential?)
  }

  predicate LevelAtMost(a: Level, b: Level) {
    a == b || a.L0? || b.L3? || (a.L1? && b.L2?)
  }

  lemma RanksAreOrders(r: RiskClass, r': RiskClass, d: DataClass, d': DataClass, l: Level, l': Level)
    ensures RiskAtMost(r, r') <==> RiskRank(r) <= RiskRank(r')
    ensures DataAtMost(d, d') <==> DataRank(d) <= DataRank(d')
    ensures LevelAtMost(l, l') <==> LevelRank(l) <= LevelRank(l')
  {}

  /** The expected success without rounding: the baseline weighs like that many samples. */
  predicate ReliableEnough(c: Candidate, health: Snapshot, policy: Policy) {
    policy.minimumSuccess * (c.baselineWeight + health.sampleCount)
    <= c.baselineSuccess * c.baselineWeight + health.successCount * 10_000
  }

  predicate FastEnough(c: Candidate, health: Snapshot, policy: Policy) {
    if health.p95Latency.Some? && health.p95Latency.value > 0 then health.p95Latency.value <= policy.maximumLatency
    else c.expectedLatency <= policy.maximumLatency
  }

  /** Everything the request and the policy ask of a candidate and of its health. */
  predicate Fit(request: Request, c: Candidate, health: Snapshot, policy: Policy) {
    && c.enabled && c.capability == request.capability && c.channel in policy.allowedChannels
    && (policy.allowedIds == [] || c.candidateId in policy.allowedIds) && c.candidateId !in policy.deniedIds
    && RiskAtMost(request.risk, c.maximumRisk) && RiskAtMost(request.risk, policy.maximumRisk)
    && DataAtMost(request.data, c.maximumData) && DataAtMost(request.data, policy.maximumData)
    && LevelAtMost(request.level, c.maximumLevel) && LevelAtMost(policy.minimumLevel, c.maximumLevel)
    && (policy.approvalAtOrAbove.Some? && RiskAtMost(policy.approvalAtOrAbove.value, request.risk) ==> c.requiresApproval)
    && c.cost <= policy.maximumCost && FastEnough(c, health, policy) && ReliableEnough(c, health, policy)
    && !health.status.Unavailable?
  }

  /** Rounding down never decides the reliability gate. */
  lemma ReliabilityGate(c: Candidate, health: Snapshot, policy: Policy)
    requires c.Valid() && health.Valid()
    ensures policy.minimumSuccess <= EffectiveSuccess(c, health) <==> ReliableEnough(c, health, policy)
  {
    RoutingBounds.EffectiveAsQuotient(c, health);
    var x, d := c.baselineSuccess * c.baselineWeight + health.successCount * 10_000, c.baselineWeight + health.sampleCount;
    QuotientAtLeast(x, d, policy.minimumSuccess);
  }

  lemma QuotientAtLeast(x: int, d: int, m: int)
    requires 0 < d
    ensures m <= x / d <==> m * d <= x
  {
    if m * d <= x {
      RoutingBounds.DivideLower(x, d, m);
    } else {
      assert x < (m - 1 + 1) * d;
      RoutingBounds.DivideUpper(x, d, m - 1);
    }
  }

  lemma FitHasNoReason(request: Request, c: Candidate, health: Snapshot, policy: Policy, reason: Reason)
    requires c.Valid() && policy.Valid() && health.Valid() && Fit(request, c, health, policy)
    ensures !Rejects(reason, request, c, Some(health), policy)
  {
    ReliabilityGate(c, health, policy);
  }

  lemma NoReasonIsFit(request: Request, c: Candidate, health: Snapshot, policy: Policy)
    requires c.Valid() && policy.Valid() && health.Valid()
    requires forall reason :: !Rejects(reason, request, c, Some(health), policy)
    ensures Fit(request, c, health, policy)
  {
    var h := Some(health);
    ReliabilityGate(c, health, policy);
    assert !Rejects(CandidateDisabled, request, c, h, policy) && !Rejects(CapabilityMismatch, request, c, h, policy);
    assert !Rejects(ChannelNotAllowed, request, c, h, policy) && !Rejects(CandidateNotAllowed, request, c, h, policy);
    assert !Rejects(CandidateDenied, request, c, h, policy) && !Rejects(CandidateRiskUnsupported, request, c, h, policy);
    assert !Rejects(PolicyRiskExceeded, request, c, h, policy) && !Rejects(CandidateDataUnsupported, request, c, h, policy);
    assert !Rejects(PolicyDataExceeded, request, c, h, policy) && !Rejects(CircuitOpen, request, c, h, policy);
    assert !Rejects(VerificationLevelUnsupported, request, c, h, policy) && !Rejects(ApprovalRequired, request, c, h, policy);
    assert !Rejects(CostLimitExceeded, request, c, h, policy) && !Rejects(LatencyLimitExceeded, request, c, h, policy);
    assert !Rejects(ReliabilityBelowMinimum, request, c, h, policy);
  }

  /** A candidate carries scores exactly if its health is known and it is fit. */
  lemma ScoredIffFit(request: Request, c: Candidate, health: Option<Snapshot>, policy: Policy)
    requires c.Valid() && policy.Valid() && (health.Some? ==> health.value.Valid())
    ensures Evaluate(request, c, health, policy).scores.Some? <==> health.Some? && Fit(request, c, health.value, policy)
  {
    hide Fit;
    var reasons := Reasons(request, c, health, policy);
    if health.None? {
      assert HealthSnapshotMissing in reasons;
    } else if reasons == {} {
      forall reason ensures !Rejects(reason, request, c, health, policy) {
        assert reason !in reasons;
      }
      NoReasonIsFit(request, c, health.value, policy);
    } else if Fit(request, c, health.value, policy) {
      var reason :| reason in reasons;
      FitHasNoReason(request, c, health.value, policy, reason);
    }
  }

  /** A decision ranks exactly the candidates whose health it was given and which are fit. */
  lemma RankedIffFit(request: Request, candidates: seq<Candidate>, snapshots: seq<Snapshot>, policy: Policy, c: Candidate)
    requires ValidInputs(candidates, snapshots, policy) && Select(request, candidates, snapshots, policy).Success?
    requires c in candidates
    ensures c.candidateId in Select(request, candidates, snapshots, policy).value.rankedIds <==>
              exists s :: s in snapshots && s.candidateId == c.candidateId && Fit(request, c, s, policy)
  {
    hide Fit, Evaluate, P.Better;
    var d := Select(request, candidates, snapshots, policy).value;
    P.RankedBestFirst(request, candidates, snapshots, policy);
    P.DecisionParts(request, candidates, snapshots, policy);
    P.HealthAccepted(request, snapshots, {});
    var ordered, health := Sorting.Sort(CandidateOrder, candidates), FindSnapshot(snapshots, c.candidateId);
    var i :| 0 <= i < |ordered| && ordered[i] == c;
    var e := d.evaluations[i];
    assert e == Evaluate(request, c, health, policy) && e in d.evaluations;
    P.EvaluateKeepsId(request, c, health, policy);
    ScoredIffFit(request, c, health, policy);
    if s :| s in snapshots && s.candidateId == c.candidateId && Fit(request, c, s, policy) {
      P.SameIdSameSnapshot(snapshots, s, health.value);
    }
  }

  /** One to sixteen candidates of different identifiers, and health of this tenant and time for each at most once. */
  ghost predicate Coherent(request: Request, candidates: seq<Candidate>, snapshots: seq<Snapshot>) {
    && 1 <= |candidates| <= 16 && |snapshots| <= 16
    && (forall i, j | 0 <= i < j < |candidates| :: candidates[i].candidateId != candidates[j].candidateId)
    && (forall i, j | 0 <= i < j < |snapshots| :: snapshots[i].candidateId != snapshots[j].candidateId)
    && forall s | s in snapshots ::
         && s.tenantId == request.tenantId && s.evaluatedAt == request.evaluatedAt
         && exists c :: c in candidates && c.candidateId == s.candidateId
  }

  lemma CoherentIff(request: Request, candidates: seq<Candidate>, snapshots: seq<Snapshot>)
    ensures Coherent(request, candidates, snapshots) <==>
              && candidates != [] && |candidates| <= 16 && Unique(CandidateIds(candidates))
              && HealthError(request, snapshots, {}).None? && DecisionAccepts(candidates, snapshots)
  {
    P.UniqueMeansDistinct(CandidateIds(candidates));
    P.HealthAccepted(request, snapshots, {});
    forall s: Snapshot ensures s.candidateId in CandidateIds(candidates) <==> exists c :: c in candidates && c.candidateId == s.candidateId {
      P.CandidateIdMembers(candidates, s.candidateId);
    }
    assert forall i | 0 <= i < |candidates| :: CandidateIds(candidates)[i] == candidates[i].candidateId;
    assert forall i | 0 <= i < |snapshots| :: SnapshotIds(snapshots)[i] == snapshots[i].candidateId;
  }

  lemma SomeRankedIff(request: Request, candidates: seq<Candidate>, snapshots: seq<Snapshot>, policy: Policy)
    requires ValidInputs(candidates, snapshots, policy)
    ensures P.Ranking(request, candidates, snapshots, policy) != [] <==>
              exists c :: c in candidates && Evaluate(request, c, FindSnapshot(snapshots, c.candidateId), policy).Eligible()
  {
    hide Evaluate, RankOrder;
    SortedCandidatesValid(candidates);
    var ordered := Sorting.Sort(CandidateOrder, candidates);
    var all := EvaluateAll(request, ordered, snapshots, policy);
    var ranked := P.Ranking(request, candidates, snapshots, policy);
    OrdersArePreorders();
    Sorting.SortMembers(RankOrder, Eligible(all));
    Sorting.FilterMembers((e: Evaluation) => e.Eligible(), all);
    if ranked != [] {
      assert ranked[0] in ranked;
      var c := P.EvaluationHasCandidate(request, ordered, snapshots, policy, ranked[0]);
      assert c in candidates;
    }
    if c :| c in candidates && Evaluate(request, c, FindSnapshot(snapshots, c.candidateId), policy).Eligible() {
      var i :| 0 <= i < |ordered| && ordered[i] == c;
      assert all[i] in all && all[i] in ranked;
    }
  }

  lemma EligibleIffFit(request: Request, snapshots: seq<Snapshot>, policy: Policy, c: Candidate)
    requires c.Valid() && policy.Valid() && forall s | s in snapshots :: s.Valid()
    requires HealthError(request, snapshots, {}).None?
    ensures Evaluate(request, c, FindSnapshot(snapshots, c.candidateId), policy).Eligible() <==>
              exists s :: s in snapshots && s.candidateId == c.candidateId && Fit(request, c, s, policy)
  {
    hide Fit, Evaluate;
    var health := FindSnapshot(snapshots, c.candidateId);
    P.HealthAccepted(request, snapshots, {});
    ScoredIffFit(request, c, health, policy);
    P.EligibleHasScores(request, c, health, policy);
    if s :| s in snapshots && s.candidateId == c.candidateId && Fit(request, c, s, policy) {
      P.SameIdSameSnapshot(snapshots, s, health.value);
    }
  }

  /** A route is decided exactly on coherent inputs with a fit candidate among them. */
  lemma DecidedIff(request: Request, candidates: seq<Candidate>, snapshots: seq<Snapshot>, policy: Policy)
    requires ValidInputs(candidates, snapshots, policy)
    ensures Select(request, candidates, snapshots, policy).Success? <==>
              && Coherent(request, candidates, snapshots)
              && exists c, s :: c in candidates && s in snapshots && s.candidateId == c.candidateId && Fit(request, c, s, policy)
  {
    hide Fit, Evaluate, Coherent, RankOrder;
    CoherentIff(request, candidates, snapshots);
    SomeRankedIff(request, candidates, snapshots, policy);
    if HealthError(request, snapshots, {}).None? {
      forall c | c in candidates
        ensures Evaluate(request, c, FindSnapshot(snapshots, c.candidateId), policy).Eligible() <==>
                  exists s :: s in snapshots && s.candidateId == c.candidateId && Fit(request, c, s, policy)
      {
        EligibleIffFit(request, snapshots, policy, c);
      }
    }
  }

  // ---------------------------------------------------------------- what they score

  /** `q` is `x / d` rounded down. */
  predicate Floor(q: int, x: int, d: int) {
    q * d <= x < (q + 1) * d
  }

  lemma QuotientIsFloor(x: int, d: int)
    requires 0 < d
    ensures Floor(x / d, x, d)
  {}

  /** `score` is ten thousand less the share of `maximum` that `value` uses up, in basis points rounded down. */
  predicate Spared(score: int, value: int, maximum: int) {
    if maximum == 0 then score == 10_000 else Floor(10_000 - score, value * 10_000, maximum)
  }

  lemma InverseIsSpared(value: int, maximum: int)
    requires 0 <= value <= maximum
    ensures Spared(InverseScore(value, maximum), value, maximum)
  {
    if 0 < maximum {
      QuotientIsFloor(value * 10_000, maximum);
      RoutingBounds.InverseInRange(value, maximum);
    }
  }

  lemma FitScores(request: Request, c: Candidate, health: Snapshot, policy: Policy)
    requires c.Valid() && policy.Valid() && health.Valid() && Fit(request, c, health, policy)
    ensures var e := Evaluate(request, c, Some(health), policy); var latency := LatencyOf(c, Some(health));
            && e.status == health.status && e.effectiveLatency == latency && e.effectiveSuccess == EffectiveSuccess(c, health)
            && e.cost == c.cost && e.priority == c.priority && e.candidateId == c.candidateId && e.profile == c.profile
            && e.scores.Some?
            && e.scores.value.reliability == EffectiveSuccess(c, health)
            && e.scores.value.latency == InverseScore(latency, policy.maximumLatency)
            && e.scores.value.cost == InverseScore(c.cost, policy.maximumCost)
            && e.scores.value.weighted
               == WeightedScore(policy.weights, e.scores.value.reliability, e.scores.value.latency, e.scores.value.cost)
  {
    hide EffectiveSuccess, InverseScore, WeightedScore, Fit, Rejects;
    ScoredIffFit(request, c, Some(health), policy);
  }

  lemma WithinLimits(request: Request, c: Candidate, health: Snapshot, policy: Policy)
    requires c.Valid() && health.Valid() && Fit(request, c, health, policy)
    ensures 0 <= LatencyOf(c, Some(health)) <= policy.maximumLatency && 0 <= c.cost <= policy.maximumCost
  {}

  lemma ReliabilityIsFloor(c: Candidate, health: Snapshot)
    requires c.Valid() && health.Valid()
    ensures Floor(EffectiveSuccess(c, health), c.baselineSuccess * c.baselineWeight + health.successCount * 10_000,
                  c.baselineWeight + health.sampleCount)
  {
    RoutingBounds.EffectiveAsQuotient(c, health);
    QuotientIsFloor(c.baselineSuccess * c.baselineWeight + health.successCount * 10_000, c.baselineWeight + health.sampleCount);
  }

  lemma WeightedIsFloor(w: Weights, reliability: int, latency: int, cost: int)
    requires 0 < w.reliability + w.latency + w.cost
    ensures Floor(WeightedScore(w, reliability, latency, cost),
                  reliability * w.reliability + latency * w.latency + cost * w.cost, w.reliability + w.latency + w.cost)
  {
    QuotientIsFloor(reliability * w.reliability + latency * w.latency + cost * w.cost, w.reliability + w.latency + w.cost);
  }

  /** Every score of a fit candidate, each rounded down once. */
  lemma ScoresMean(request: Request, c: Candidate, health: Snapshot, policy: Policy)
    requires c.Valid() && policy.Valid() && health.Valid() && Fit(request, c, health, policy)
    ensures var e := Evaluate(request, c, Some(health), policy);
            var latency := if health.p95Latency.Some? && health.p95Latency.value > 0 then health.p95Latency.value else c.expectedLatency;
            && e.status == health.status && e.effectiveLatency == latency && e.scores.Some?
            && e.effectiveSuccess == e.scores.value.reliability && e.cost == c.cost && e.priority == c.priority
            && Floor(e.scores.value.reliability, c.baselineSuccess * c.baselineWeight + health.successCount * 10_000,
                     c.baselineWeight + health.sampleCount)
            && Spared(e.scores.value.latency, latency, policy.maximumLatency)
            && Spared(e.scores.value.cost, c.cost, policy.maximumCost)
            && var w := policy.weights;
               Floor(e.scores.value.weighted,
                     e.scores.value.reliability * w.reliability + e.scores.value.latency * w.latency + e.scores.value.cost * w.cost,
                     w.reliability + w.latency + w.cost)
  {
    hide Evaluate, Floor, Spared, Fit;
    FitScores(request, c, health, policy);
    WithinLimits(request, c, health, policy);
    ReliabilityIsFloor(c, health);
    InverseIsSpared(LatencyOf(c, Some(health)), policy.maximumLatency);
    InverseIsSpared(c.cost, policy.maximumCost);
    var s := Evaluate(request, c, Some(health), policy).scores.value;
    WeightedIsFloor(policy.weights, s.reliability, s.latency, s.cost);
  }
}

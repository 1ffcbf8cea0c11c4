/** What every run of the repair lifecycle keeps, whatever the collaborators and the storage answer. */
module RepairLifecycleSafety {
  import opened Wrappers
  import opened RepairLifecycle

  datatype Op =
    | CandidateOp(request: Request, candidate: Candidate, write: Write)
    | ValidationOp(request: Request, candidate: Candidate, report: Report, write: Write)
    | ProposalOp(request: Request, candidate: Candidate, report: Report, proposal: Proposal, write: Write)
    | ApproveOp(request: Request, proposal: Proposal, approval: Approval, now: int, verdict: Option<bool>, write: Write)
    | CanaryOp(request: Request, candidate: Candidate, proposal: Proposal, now: int, canary: CanaryWorld)
    | PromoteOp(request: Request, candidate: Candidate, proposal: Proposal, decision: Decision, promote: PromoteWorld)

  ghost function Step(c: Config, s: State, op: Op): State {
    match op
    case CandidateOp(request, candidate, write) => RecordCandidateStep(c, s, request, candidate, write).0
    case ValidationOp(request, candidate, report, write) => RecordValidationStep(c, s, request, candidate, report, write).0
    case ProposalOp(request, candidate, report, proposal, write) =>
      RecordProposalStep(c, s, request, candidate, report, proposal, write).0
    case ApproveOp(request, proposal, approval, now, verdict, write) =>
      ApproveStep(c, s, request, proposal, approval, now, verdict, write).0
    case CanaryOp(request, candidate, proposal, now, world) => CanaryStep(c, s, request, candidate, proposal, now, world).0
    case PromoteOp(request, candidate, proposal, decision, world) =>
      PromoteStep(c, s, request, candidate, proposal, decision, world).0
  }

  datatype Run = Begin(slot: string) | Do(prev: Run, op: Op)

  ghost function After(c: Config, run: Run): State {
    match run
    case Begin(slot) => State([], [], [], slot, None)
    case Do(prev, op) => Step(c, After(c, prev), op)
  }

  ghost predicate CollisionFree(hash: Transition -> string) {
    forall t, u :: hash(t) == hash(u) ==> t == u
  }

  // ---------------------------------------------------------------- one chain is a path

  function Rank(phase: Phase): nat {
    match phase
    case Nothing => 0
    case Generated => 1
    case Validated | Rejected => 2
    case Proposed => 3
    case Approved => 4
    case Canary => 5
    case Promoted | RolledBack | Failed => 6
  }

  /** A digest-linked path from `Nothing` along permitted transitions. */
  ghost predicate Path(hash: Transition -> string, chain: seq<Transition>) {
    Linked(hash, chain) && forall i | 0 <= i < |chain| :: Allowed(chain[i].from, chain[i].to)
  }

  lemma {:induction false} PositionIsRank(hash: Transition -> string, chain: seq<Transition>, i: nat)
    requires Path(hash, chain) && i < |chain|
    ensures Rank(chain[i].to) == i + 1
  {
    assert LinkedAt(hash, chain, i);
    if 0 < i {
      PositionIsRank(hash, chain, i - 1);
    }
  }

  /** A path to promotion passed through every stage, in order and once. */
  lemma PromotedPassedEveryStage(hash: Transition -> string, chain: seq<Transition>)
    requires Path(hash, chain) && PhaseOf(chain).Promoted?
    ensures |chain| == 6
    ensures chain[0].to.Generated? && chain[1].to.Validated? && chain[2].to.Proposed? && chain[3].to.Approved?
         && chain[4].to.Canary? && chain[5].to.Promoted?
  {
    PositionIsRank(hash, chain, |chain| - 1);
    forall i | 0 <= i < 6 ensures Rank(chain[i].to) == i + 1 && LinkedAt(hash, chain, i) {
      PositionIsRank(hash, chain, i);
    }
    assert chain[2].from == chain[1].to && chain[1].from == chain[0].to;
    assert chain[4].from == chain[3].to && chain[3].from == chain[2].to;
  }

  lemma {:induction false} ChainHolds(rows: seq<Transition>, i: nat)
    requires i < |rows|
    ensures rows[i] in Chain(rows, rows[i].key)
  {
    var n := |rows| - 1;
    if i < n {
      ChainHolds(rows[..n], i);
      assert rows[..n][i] == rows[i];
    }
  }

  lemma ChainAppend(rows: seq<Transition>, t: Transition, key: Key)
    ensures Chain(rows + [t], key) == if t.key == key then Chain(rows, key) + [t] else Chain(rows, key)
  {
    assert (rows + [t])[..|rows|] == rows;
  }

  lemma PathIsLinked(hash: Transition -> string, chain: seq<Transition>)
    requires Path(hash, chain)
    ensures Linked(hash, chain)
  {
  }

  /** The next transition ranks above every stored one of its chain, so it is none of them. */
  lemma DigestIsFree(hash: Transition -> string, rows: seq<Transition>, key: Key, subject: string, to: Phase,
                     event: string, at: int)
    requires CollisionFree(hash) && Path(hash, Chain(rows, key)) && Allowed(PhaseOf(Chain(rows, key)), to)
    ensures !DigestTaken(hash, rows, NextTransition(hash, Chain(rows, key), key, subject, to, event, at))
  {
    hide Path, Chain;
    var chain := Chain(rows, key);
    var t := NextTransition(hash, chain, key, subject, to, event, at);
    if i :| 0 <= i < |rows| && hash(rows[i]) == hash(t) {
      ChainHolds(rows, i);
      var j :| 0 <= j < |chain| && chain[j] == t;
      PositionIsRank(hash, chain, j);
      PositionIsRank(hash, chain, |chain| - 1);
      assert false;
    }
  }

  /** On a path a permitted transition is new, so its digest is free and the insert goes through. */
  lemma AppendNeverCollides(hash: Transition -> string, rows: seq<Transition>, key: Key, subject: string, to: Phase,
                            event: string, write: Write)
    requires CollisionFree(hash) && Path(hash, Chain(rows, key))
    ensures var (next, r) := AppendStep(hash, rows, key, subject, to, event, write);
            var chain := Chain(rows, key);
            if write.storage.Healthy? && Allowed(PhaseOf(chain), to) then
              && r == Success(NextTransition(hash, chain, key, subject, to, event, write.at))
              && next == rows + [r.value]
            else next == rows && r.Failure?
  {
    hide Path, Linked, Chain, DigestTaken, NextTransition, PhaseOf;
    var chain := Chain(rows, key);
    PathIsLinked(hash, chain);
    if Allowed(PhaseOf(chain), to) {
      DigestIsFree(hash, rows, key, subject, to, event, write.at);
    }
  }

  lemma PathExtends(hash: Transition -> string, chain: seq<Transition>, key: Key, subject: string, to: Phase,
                    event: string, at: int)
    requires Path(hash, chain) && Allowed(PhaseOf(chain), to)
    ensures Path(hash, chain + [NextTransition(hash, chain, key, subject, to, event, at)])
  {
    var t := NextTransition(hash, chain, key, subject, to, event, at);
    forall i | 0 <= i < |chain| + 1 ensures LinkedAt(hash, chain + [t], i) {
      assert i < |chain| ==> LinkedAt(hash, chain, i);
    }
  }

  // ---------------------------------------------------------------- the invariant of every run

  function PhaseIn(rows: seq<Transition>, key: Key): Phase {
    PhaseOf(Chain(rows, key))
  }

  ghost predicate AllPaths(hash: Transition -> string, rows: seq<Transition>) {
    forall key :: Path(hash, Chain(rows, key))
  }

  function RunsOf(canaries: seq<CanaryRun>, key: Key): nat {
    if canaries == [] then 0
    else
      var n := |canaries| - 1;
      RunsOf(canaries[..n], key) + if canaries[n].key == key then 1 else 0
  }

  /** The evidence a canary needs, with the success ratio compared without rounding. */
  predicate Meets(thresholds: Thresholds, proposal: Proposal, evidence: Evidence) {
    && evidence.proposalDigest == proposal.digest && evidence.verified && evidence.violations == 0
    && thresholds.minimumObservations <= evidence.observations
    && thresholds.minimumSuccessPpm * evidence.observations <= evidence.successes * 1_000_000
  }

  /** The executor ran once for each request whose chain reached the canary, and for no other. */
  ghost predicate CanariesMatchChains(rows: seq<Transition>, canaries: seq<CanaryRun>) {
    forall key {:trigger RunsOf(canaries, key)} ::
      RunsOf(canaries, key) == if 5 <= Rank(PhaseIn(rows, key)) then 1 else 0
  }

  /** The slot holds what the request that last drove it ended with. */
  predicate SlotMatches(phase: Phase, slot: string, touch: Touch) {
    && 5 <= Rank(phase)
    && (phase.Promoted? ==> slot == touch.candidate)
    && (phase.RolledBack? ==> slot == touch.base)
  }

  ghost predicate SlotMatchesChain(s: State) {
    s.touched.Some? ==> SlotMatches(PhaseIn(s.rows, s.touched.value.key), s.slot, s.touched.value)
  }

  ghost predicate PassedOnEvidence(thresholds: Thresholds, canaries: seq<CanaryRun>) {
    forall i | 0 <= i < |canaries| && canaries[i].decision.passed ::
      && canaries[i].decision.proposalDigest == canaries[i].proposal.digest
      && canaries[i].evidence.Some?
      && Meets(thresholds, canaries[i].proposal, canaries[i].evidence.value)
  }

  ghost predicate Safe(c: Config, s: State) {
    && AllPaths(c.hash, s.rows) && CanariesMatchChains(s.rows, s.canaries)
    && SlotMatchesChain(s) && PassedOnEvidence(c.thresholds, s.canaries)
  }

  /** One request's phase is now `phase`; every other request's is what it was. */
  ghost predicate Moved(rows: seq<Transition>, next: seq<Transition>, key: Key, phase: Phase) {
    PhaseIn(next, key) == phase && forall k | k != key :: PhaseIn(next, k) == PhaseIn(rows, k)
  }

  ghost predicate ValidConfig(c: Config) {
    CollisionFree(c.hash) && 1 <= c.thresholds.minimumObservations
  }

  /** One recorded transition: the request's chain grows by it when it is permitted, and no other changes. */
  lemma RecordEffect(c: Config, s: State, request: Request, subject: string, to: Phase, event: string, write: Write)
    requires CollisionFree(c.hash) && AllPaths(c.hash, s.rows)
    ensures var (next, r) := RecordStep(c, s, request, subject, to, event, write);
            var ok := write.storage.Healthy? && Allowed(PhaseIn(s.rows, request.key), to);
            && next == s.(rows := next.rows) && AllPaths(c.hash, next.rows)
            && Moved(s.rows, next.rows, request.key, if ok then to else PhaseIn(s.rows, request.key))
            && r.Success? == ok && (r.Failure? ==> next == s)
  {
    hide Path;
    var (next, r) := RecordStep(c, s, request, subject, to, event, write);
    AppendNeverCollides(c.hash, s.rows, request.key, subject, to, event, write);
    if r.Success? {
      forall key ensures Chain(next.rows, key) == if key == request.key then Chain(s.rows, key) + [r.value] else Chain(s.rows, key) {
        ChainAppend(s.rows, r.value, key);
      }
      PathExtends(c.hash, Chain(s.rows, request.key), request.key, subject, to, event, write.at);
    }
  }

  /** The cross-multiplied form of the parts-per-million comparison. */
  lemma PpmComparison(successes: nat, observations: nat, minimum: int)
    requires 0 < observations
    ensures minimum <= successes * 1_000_000 / observations <==> minimum * observations <= successes * 1_000_000
  {
    var a, b := successes * 1_000_000, observations;
    var q := a / b;
    assert q * b <= a < (q + 1) * b;
    if minimum <= q {
      MulMono(minimum, q, b);
    } else {
      MulMono(q + 1, minimum, b);
    }
  }

  lemma MulMono(x: int, y: int, b: nat)
    requires x <= y
    ensures x * b <= y * b
  {
  }

  /** A canary passes exactly on evidence that meets the thresholds; the rounding never decides. */
  lemma CanaryPassesIff(proposal: Proposal, world: CanaryWorld, thresholds: Thresholds, seal: Decision -> string)
    requires 1 <= thresholds.minimumObservations
    ensures var decision := CanaryOutcome(proposal, world, thresholds, seal).0;
            && decision.proposalDigest == proposal.digest && decision.thresholdsDigest == thresholds.digest
            && (decision.passed <==>
                world.result == Some(proposal.digest) && world.evidence.Some? && Meets(thresholds, proposal, world.evidence.value))
  {
    if world.evidence.Some? && 0 < world.evidence.value.observations {
      var e := world.evidence.value;
      PpmComparison(e.successes, e.observations, thresholds.minimumSuccessPpm);
    }
  }

  lemma RunsAppend(canaries: seq<CanaryRun>, run: CanaryRun, key: Key)
    ensures RunsOf(canaries + [run], key) == RunsOf(canaries, key) + if run.key == key then 1 else 0
  {
    assert (canaries + [run])[..|canaries|] == canaries;
  }

  /** Executor runs still match the chains after a move that does not cross into the canary. */
  lemma MoveKeepsCanaries(rows: seq<Transition>, next: seq<Transition>, canaries: seq<CanaryRun>, key: Key, phase: Phase)
    requires CanariesMatchChains(rows, canaries) && Moved(rows, next, key, phase)
    requires 5 <= Rank(PhaseIn(rows, key)) <==> 5 <= Rank(phase)
    ensures CanariesMatchChains(next, canaries)
  {
    hide PhaseIn, Rank;
    forall k ensures RunsOf(canaries, k) == if 5 <= Rank(PhaseIn(next, k)) then 1 else 0 {
      assert k != key ==> PhaseIn(next, k) == PhaseIn(rows, k);
    }
  }

  /** The stages before the canary touch neither the executor nor the slot. */
  lemma StageIsSafe(c: Config, s: State, request: Request, subject: string, to: Phase, event: string, write: Write)
    requires ValidConfig(c) && Safe(c, s) && Rank(to) <= 4
    ensures Safe(c, RecordStep(c, s, request, subject, to, event, write).0)
  {
    hide AllPaths, RecordStep, PhaseIn, PassedOnEvidence, CanariesMatchChains;
    RecordEffect(c, s, request, subject, to, event, write);
    var next := RecordStep(c, s, request, subject, to, event, write).0;
    MoveKeepsCanaries(s.rows, next.rows, s.canaries, request.key, PhaseIn(next.rows, request.key));
  }

  lemma RollbackEffect(c: Config, s: State, request: Request, candidate: Candidate, code: string, world: RollbackWorld)
    requires ValidConfig(c) && PhaseIn(s.rows, request.key).Canary?
    requires AllPaths(c.hash, s.rows) && CanariesMatchChains(s.rows, s.canaries) && PassedOnEvidence(c.thresholds, s.canaries)
    ensures var (next, r) := RollbackReleaseStep(c, s, request, candidate, code, world);
            && Safe(c, next) && next.canaries == s.canaries && next.promotions == s.promotions
            && Moved(s.rows, next.rows, request.key,
                 if !world.write.storage.Healthy? then Canary else if world.completes then RolledBack else Failed)
            && next.touched == Some(Touch(request.key, candidate.base, candidate.package))
  {
    hide AllPaths, RecordStep, PhaseIn, PassedOnEvidence, CanariesMatchChains;
    var touched := Some(Touch(request.key, candidate.base, candidate.package));
    var (to, event, slot) :=
      if world.completes then (RolledBack, code, candidate.base) else (Failed, "rollback_failed", world.slotIfNot);
    var turned := s.(slot := slot, touched := touched);
    RecordEffect(c, turned, request, candidate.base, to, event, world.write);
    var next := RecordStep(c, turned, request, candidate.base, to, event, world.write).0;
    MoveKeepsCanaries(s.rows, next.rows, s.canaries, request.key, PhaseIn(next.rows, request.key));
  }

  /** Starting a canary: the phase moves to it and the executor's one run is recorded. */
  lemma StartEffect(c: Config, s: State, request: Request, proposal: Proposal, write: Write, run: CanaryRun)
    requires ValidConfig(c) && Safe(c, s) && run.key == request.key
    requires run.decision.passed ==>
               run.decision.proposalDigest == run.proposal.digest && run.evidence.Some?
               && Meets(c.thresholds, run.proposal, run.evidence.value)
    ensures var (started, r) := RecordStep(c, s, request, proposal.digest, Canary, "canary_started", write);
            if r.Failure? then started == s
            else
              && PhaseIn(s.rows, request.key).Approved? && Moved(s.rows, started.rows, request.key, Canary)
              && Safe(c, started.(canaries := s.canaries + [run])) && started == s.(rows := started.rows)
  {
    hide AllPaths, RecordStep, PhaseIn, Meets;
    RecordEffect(c, s, request, proposal.digest, Canary, "canary_started", write);
    var (started, r) := RecordStep(c, s, request, proposal.digest, Canary, "canary_started", write);
    if r.Success? {
      forall k ensures RunsOf(s.canaries + [run], k) == if 5 <= Rank(PhaseIn(started.rows, k)) then 1 else 0 {
        RunsAppend(s.canaries, run, k);
        assert RunsOf(s.canaries, k) == if 5 <= Rank(PhaseIn(s.rows, k)) then 1 else 0;
      }
    }
  }

  /** A canary that starts runs the executor once and leaves the request at the canary or past it. */
  lemma CanaryEffect(c: Config, s: State, request: Request, candidate: Candidate, proposal: Proposal, now: int, world: CanaryWorld)
    requires ValidConfig(c) && Safe(c, s)
    ensures var next := CanaryStep(c, s, request, candidate, proposal, now, world).0;
            var decision := CanaryOutcome(proposal, world, c.thresholds, c.seal).0;
            && Safe(c, next) && next.promotions == s.promotions
            && if next.canaries == s.canaries then next == s
               else
                 && next.canaries == s.canaries + [CanaryRun(request.key, proposal, world.evidence, decision)]
                 && PhaseIn(s.rows, request.key).Approved?
                 && Moved(s.rows, next.rows, request.key,
                      if decision.passed || !world.rollback.write.storage.Healthy? then Canary
                      else if world.rollback.completes then RolledBack else Failed)
                 && if decision.passed then next.slot == s.slot && next.touched == s.touched
                    else next.touched == Some(Touch(request.key, request.base, candidate.package))
  {
    hide Safe, RecordStep, RollbackReleaseStep, CanaryOutcome, PhaseIn, Meets;
    CanaryPassesIff(proposal, world, c.thresholds, c.seal);
    var (decision, code) := CanaryOutcome(proposal, world, c.thresholds, c.seal);
    var run := CanaryRun(request.key, proposal, world.evidence, decision);
    StartEffect(c, s, request, proposal, world.start, run);
    var (started, r) := RecordStep(c, s, request, proposal.digest, Canary, "canary_started", world.start);
    if r.Success? && !decision.passed {
      RollbackAfterCanary(c, started.(canaries := s.canaries + [run]), request, candidate, code, world.rollback);
    }
  }

  lemma RollbackAfterCanary(c: Config, s: State, request: Request, candidate: Candidate, code: string, world: RollbackWorld)
    requires ValidConfig(c) && PhaseIn(s.rows, request.key).Canary? && Safe(c, s)
    ensures var next := RollbackReleaseStep(c, s, request, candidate, code, world).0;
            && Safe(c, next) && next.canaries == s.canaries && next.promotions == s.promotions
            && Moved(s.rows, next.rows, request.key,
                 if !world.write.storage.Healthy? then Canary else if world.completes then RolledBack else Failed)
            && next.touched == Some(Touch(request.key, candidate.base, candidate.package))
  {
    hide AllPaths, RollbackReleaseStep, PhaseIn, PassedOnEvidence, CanariesMatchChains;
    RollbackEffect(c, s, request, candidate, code, world);
  }

  // ---------------------------------------------------------------- promotion

  /** The guards a promotion passes before it calls the deployment boundary. */
  ghost predicate ReachesDeployment(c: Config, s: State, op: Op) {
    && op.PromoteOp? && op.decision.passed && op.promote.readable
    && ArtifactScope(op.request, op.candidate, op.proposal)
    && op.decision.proposalDigest == op.proposal.digest && op.decision.thresholdsDigest == c.thresholds.digest
    && PhaseIn(s.rows, op.request.key).Canary?
  }

  /** Where a promotion that reached the deployment leaves its request. */
  function PhaseAfterPromotion(w: PromoteWorld): Phase {
    if w.promoted == Some(true) then if w.write.storage.Healthy? then Promoted else Canary
    else if !w.rollback.write.storage.Healthy? then Canary
    else if w.rollback.completes then RolledBack else Failed
  }

  lemma SuccessfulPromotionEffect(c: Config, s: State, op: Op)
    requires ValidConfig(c) && Safe(c, s) && ReachesDeployment(c, s, op) && op.promote.promoted == Some(true)
    ensures var next := Step(c, s, op); var key := op.request.key;
            && Safe(c, next) && next.canaries == s.canaries && next.promotions == s.promotions + [key]
            && Moved(s.rows, next.rows, key, PhaseAfterPromotion(op.promote))
  {
    hide AllPaths, RecordStep, RollbackReleaseStep, PassedOnEvidence, CanariesMatchChains;
    var PromoteOp(request, candidate, proposal, decision, w) := op;
    var done := s.(promotions := s.promotions + [request.key], slot := candidate.package,
                   touched := Some(Touch(request.key, candidate.base, candidate.package)));
    RecordEffect(c, done, request, decision.digest, Promoted, "promoted", w.write);
    var next := RecordStep(c, done, request, decision.digest, Promoted, "promoted", w.write).0;
    PathsAreLinked(c.hash, s.rows, request.key);
    MoveKeepsCanaries(s.rows, next.rows, s.canaries, request.key, PhaseIn(next.rows, request.key));
  }

  lemma PathsAreLinked(hash: Transition -> string, rows: seq<Transition>, key: Key)
    requires AllPaths(hash, rows)
    ensures Linked(hash, Chain(rows, key))
  {
    assert Path(hash, Chain(rows, key));
  }

  lemma FailedPromotionEffect(c: Config, s: State, op: Op)
    requires ValidConfig(c) && Safe(c, s) && ReachesDeployment(c, s, op) && op.promote.promoted != Some(true)
    ensures var next := Step(c, s, op); var key := op.request.key;
            && Safe(c, next) && next.canaries == s.canaries && next.promotions == s.promotions + [key]
            && Moved(s.rows, next.rows, key, PhaseAfterPromotion(op.promote))
  {
    hide AllPaths, RecordStep, RollbackReleaseStep, PassedOnEvidence, CanariesMatchChains;
    var PromoteOp(request, candidate, proposal, decision, w) := op;
    var failed := s.(promotions := s.promotions + [request.key], slot := w.slotIfNot,
                     touched := Some(Touch(request.key, candidate.base, candidate.package)));
    RollbackEffect(c, failed, request, candidate, "promotion_failed", w.rollback);
    PathsAreLinked(c.hash, s.rows, request.key);
  }

  /** Without reaching the deployment a promotion changes nothing, or rolls a failing decision back. */
  lemma RefusedPromotionEffect(c: Config, s: State, op: Op)
    requires ValidConfig(c) && Safe(c, s) && op.PromoteOp? && !ReachesDeployment(c, s, op)
    ensures var next := Step(c, s, op);
            && Safe(c, next) && next.canaries == s.canaries && next.promotions == s.promotions
            && (next == s
                || (PhaseIn(s.rows, op.request.key).Canary?
                    && exists phase :: Moved(s.rows, next.rows, op.request.key, phase)
                                       && (phase.Canary? || phase.RolledBack? || phase.Failed?)))
  {
    hide AllPaths, RecordStep, RollbackReleaseStep, PassedOnEvidence, CanariesMatchChains;
    if PhaseIn(s.rows, op.request.key).Canary? {
      RollbackEffect(c, s, op.request, op.candidate, "canary_failed", op.promote.rollback);
    }
  }

  // ---------------------------------------------------------------- every run

  ghost predicate IsStage(op: Op) {
    !op.CanaryOp? && !op.PromoteOp?
  }

  /** A stage moves its own request along a permitted transition, or changes nothing. */
  lemma StageEffect(c: Config, s: State, op: Op)
    requires ValidConfig(c) && Safe(c, s) && IsStage(op)
    ensures var next := Step(c, s, op);
            && Safe(c, next) && next == s.(rows := next.rows)
            && (next == s || exists to | Rank(to) <= 4 && Allowed(PhaseIn(s.rows, op.request.key), to) ::
                               Moved(s.rows, next.rows, op.request.key, to))
  {
    hide Safe, RecordStep, PhaseIn, Moved;
    var (subject, to, event, write) :=
      match op
      case CandidateOp(_, candidate, write) => (candidate.digest, Generated, "candidate_generated", write)
      case ValidationOp(_, _, report, write) =>
        (report.digest, if report.passed then Validated else Rejected,
         if report.passed then "validation_passed" else "validation_failed", write)
      case ProposalOp(_, _, _, proposal, write) => (proposal.digest, Proposed, "proposal_created", write)
      case ApproveOp(_, _, approval, _, _, write) => (approval.digest, Approved, "proposal_approved", write)
      case CanaryOp(_, _, _, _, w) => ("", Approved, "", w.start)
      case PromoteOp(_, _, _, _, w) => ("", Approved, "", w.write);
    StageIsSafe(c, s, op.request, subject, to, event, write);
    SafePaths(c, s);
    RecordEffect(c, s, op.request, subject, to, event, write);
  }

  lemma SafePaths(c: Config, s: State)
    requires Safe(c, s)
    ensures AllPaths(c.hash, s.rows)
  {
  }

  lemma StepIsSafe(c: Config, s: State, op: Op)
    requires ValidConfig(c) && Safe(c, s)
    ensures Safe(c, Step(c, s, op))
  {
    hide Safe, CanaryStep, PromoteStep, RecordStep;
    if IsStage(op) {
      StageEffect(c, s, op);
    } else if op.CanaryOp? {
      CanaryEffect(c, s, op.request, op.candidate, op.proposal, op.now, op.canary);
    } else if !ReachesDeployment(c, s, op) {
      RefusedPromotionEffect(c, s, op);
    } else if op.promote.promoted == Some(true) {
      SuccessfulPromotionEffect(c, s, op);
    } else {
      FailedPromotionEffect(c, s, op);
    }
  }

  lemma {:induction false} EveryRunIsSafe(c: Config, run: Run)
    requires ValidConfig(c)
    ensures Safe(c, After(c, run))
  {
    match run
    case Begin(slot) =>
    case Do(prev, op) =>
      EveryRunIsSafe(c, prev);
      StepIsSafe(c, After(c, prev), op);
  }

  /**
   In every run, with any storage faults: each stored chain loads and is a digest-linked path from
   `Nothing`, and the executor ran once for each request that reached the canary and never otherwise.
   */
  lemma ChainsArePaths(c: Config, run: Run, key: Key)
    requires ValidConfig(c)
    ensures var s := After(c, run); var chain := Chain(s.rows, key);
            && Path(c.hash, chain)
            && RunsOf(s.canaries, key) == (if 5 <= Rank(PhaseOf(chain)) then 1 else 0)
            && (PhaseOf(chain).Promoted? ==>
                |chain| == 6 && chain[0].to.Generated? && chain[1].to.Validated? && chain[2].to.Proposed?
                && chain[3].to.Approved? && chain[4].to.Canary?)
  {
    EveryRunIsSafe(c, run);
    var s := After(c, run);
    var chain := Chain(s.rows, key);
    assert Path(c.hash, chain) && PhaseIn(s.rows, key) == PhaseOf(chain) && RunsOf(s.canaries, key) <= 1;
    if PhaseOf(chain).Promoted? {
      PromotedPassedEveryStage(c.hash, chain);
    }
  }

  predicate Terminal(phase: Phase) {
    phase.Promoted? || phase.RolledBack? || phase.Failed? || phase.Rejected?
  }

  /** Where one step can leave a request: in place, one stage on, or at the end from the canary. */
  ghost predicate Advances(from: Phase, to: Phase) {
    to == from || Allowed(from, to) || (from.Approved? && (to.RolledBack? || to.Failed?))
  }

  lemma StepAdvances(c: Config, s: State, op: Op, key: Key)
    requires ValidConfig(c) && Safe(c, s)
    ensures Advances(PhaseIn(s.rows, key), PhaseIn(Step(c, s, op).rows, key))
  {
    hide Safe, CanaryStep, PromoteStep, RecordStep, PhaseIn, CanaryOutcome;
    if IsStage(op) {
      StageEffect(c, s, op);
    } else if op.CanaryOp? {
      CanaryEffect(c, s, op.request, op.candidate, op.proposal, op.now, op.canary);
    } else if !ReachesDeployment(c, s, op) {
      RefusedPromotionEffect(c, s, op);
    } else if op.promote.promoted == Some(true) {
      SuccessfulPromotionEffect(c, s, op);
    } else {
      FailedPromotionEffect(c, s, op);
    }
  }

  ghost predicate Later(early: Run, late: Run) {
    early == late || (late.Do? && Later(early, late.prev))
  }

  /** Promoted, rolled back, failed and rejected requests stay so. */
  lemma {:induction false} TerminalForever(c: Config, early: Run, late: Run, key: Key)
    requires ValidConfig(c) && Later(early, late) && Terminal(PhaseIn(After(c, early).rows, key))
    ensures PhaseIn(After(c, late).rows, key) == PhaseIn(After(c, early).rows, key)
  {
    hide Safe, Step, PhaseIn;
    if early != late {
      TerminalForever(c, early, late.prev, key);
      EveryRunIsSafe(c, late.prev);
      StepAdvances(c, After(c, late.prev), late.op, key);
    }
  }

  // ---------------------------------------------------------------- how often the deployment is called

  /** The write that follows the deployment's answer. */
  function ClosingWrite(w: PromoteWorld): Write {
    if w.promoted == Some(true) then w.write else w.rollback.write
  }

  /**
   A request is handed to the deployment again, by a repeat of the same call or at any later time,
   if and only if the write recording the first answer failed.
   */
  lemma PromotionRepeatsIff(c: Config, run: Run, op: Op)
    requires ValidConfig(c) && ReachesDeployment(c, After(c, run), op)
    ensures !ClosingWrite(op.promote).storage.Healthy? ==> ReachesDeployment(c, After(c, Do(run, op)), op)
    ensures ClosingWrite(op.promote).storage.Healthy? ==>
              forall late: Run, again: Op | Later(Do(run, op), late) && again.PromoteOp? && again.request.key == op.request.key ::
                !ReachesDeployment(c, After(c, late), again)
  {
    hide Safe, PromoteStep;
    EveryRunIsSafe(c, run);
    if op.promote.promoted == Some(true) {
      SuccessfulPromotionEffect(c, After(c, run), op);
    } else {
      FailedPromotionEffect(c, After(c, run), op);
    }
    if ClosingWrite(op.promote).storage.Healthy? {
      forall late: Run, again: Op | Later(Do(run, op), late) && again.PromoteOp? && again.request.key == op.request.key
        ensures !ReachesDeployment(c, After(c, late), again)
      {
        TerminalForever(c, Do(run, op), late, op.request.key);
      }
    }
  }

  function Calls(promotions: seq<Key>, key: Key): nat {
    multiset(promotions)[key]
  }

  ghost predicate HasPassingRun(canaries: seq<CanaryRun>, key: Key) {
    exists i | 0 <= i < |canaries| :: canaries[i].key == key && canaries[i].decision.passed
  }

  /** A failed canary of the request was rolled back, but the write recording that was lost. */
  ghost predicate RollbackLost(run: Run, key: Key) {
    && run.Do?
    && (RollbackLost(run.prev, key)
        || (run.op.CanaryOp? && run.op.request.key == key && !run.op.canary.rollback.write.storage.Healthy?))
  }

  /** The deployment answered for the request, but the write recording its answer was lost. */
  ghost predicate AnswerLost(run: Run, key: Key) {
    && run.Do?
    && (AnswerLost(run.prev, key)
        || (run.op.PromoteOp? && run.op.request.key == key && !ClosingWrite(run.op.promote).storage.Healthy?))
  }

  ghost predicate CalledOnce(s: State, key: Key) {
    Calls(s.promotions, key) <= if Rank(PhaseIn(s.rows, key)) == 6 then 1 else 0
  }

  ghost predicate OnEvidence(s: State, key: Key) {
    PhaseIn(s.rows, key).Canary? || PhaseIn(s.rows, key).Promoted? ==> HasPassingRun(s.canaries, key)
  }

  lemma StepKeepsEvidence(c: Config, s: State, op: Op, key: Key)
    requires ValidConfig(c) && Safe(c, s) && OnEvidence(s, key)
    requires op.CanaryOp? && op.request.key == key ==> op.canary.rollback.write.storage.Healthy?
    ensures OnEvidence(Step(c, s, op), key)
  {
    hide Safe, CanaryStep, PromoteStep, RecordStep, PhaseIn, CanaryOutcome;
    var next := Step(c, s, op);
    if IsStage(op) {
      StageEffect(c, s, op);
    } else if op.CanaryOp? {
      CanaryEffect(c, s, op.request, op.candidate, op.proposal, op.now, op.canary);
      if next.canaries != s.canaries {
        PassingRunKept(s.canaries, next.canaries[|s.canaries|], key);
      }
    } else if !ReachesDeployment(c, s, op) {
      RefusedPromotionEffect(c, s, op);
    } else if op.promote.promoted == Some(true) {
      SuccessfulPromotionEffect(c, s, op);
    } else {
      FailedPromotionEffect(c, s, op);
    }
  }

  lemma StepKeepsCalls(c: Config, s: State, op: Op, key: Key)
    requires ValidConfig(c) && Safe(c, s) && CalledOnce(s, key)
    requires op.PromoteOp? && op.request.key == key ==> ClosingWrite(op.promote).storage.Healthy?
    ensures CalledOnce(Step(c, s, op), key)
  {
    hide Safe, CanaryStep, PromoteStep, RecordStep, PhaseIn, CanaryOutcome;
    if IsStage(op) {
      StageEffect(c, s, op);
    } else if op.CanaryOp? {
      CanaryEffect(c, s, op.request, op.candidate, op.proposal, op.now, op.canary);
    } else if !ReachesDeployment(c, s, op) {
      RefusedPromotionEffect(c, s, op);
    } else if op.promote.promoted == Some(true) {
      SuccessfulPromotionEffect(c, s, op);
    } else {
      FailedPromotionEffect(c, s, op);
    }
  }

  lemma PassingRunKept(canaries: seq<CanaryRun>, run: CanaryRun, key: Key)
    ensures HasPassingRun(canaries + [run], key) <==> HasPassingRun(canaries, key) || (run.key == key && run.decision.passed)
  {
    var next := canaries + [run];
    assert next[|canaries|] == run;
    if i :| 0 <= i < |canaries| && canaries[i].key == key && canaries[i].decision.passed {
      assert next[i] == canaries[i];
    }
  }

  lemma {:induction false} EvidenceUnlessLost(c: Config, run: Run, key: Key)
    requires ValidConfig(c)
    ensures OnEvidence(After(c, run), key) || RollbackLost(run, key)
  {
    match run
    case Begin(slot) =>
    case Do(prev, op) =>
      EvidenceUnlessLost(c, prev, key);
      if !RollbackLost(run, key) {
        EveryRunIsSafe(c, prev);
        StepKeepsEvidence(c, After(c, prev), op, key);
      }
  }

  lemma {:induction false} CalledOnceUnlessLost(c: Config, run: Run, key: Key)
    requires ValidConfig(c)
    ensures CalledOnce(After(c, run), key) || AnswerLost(run, key)
  {
    match run
    case Begin(slot) =>
    case Do(prev, op) =>
      CalledOnceUnlessLost(c, prev, key);
      if !AnswerLost(run, key) {
        EveryRunIsSafe(c, prev);
        StepKeepsCalls(c, After(c, prev), op, key);
      }
  }

  /**
   In every run the deployment is called at most once per request, unless the write recording an answer
   for that request was lost; and a promoted request's one canary run brought verified evidence that meets
   the configured thresholds, unless the write recording that very canary's rollback was lost.
   */
  lemma PromotedOnlyOnEvidence(c: Config, run: Run, key: Key)
    requires ValidConfig(c)
    ensures var s := After(c, run);
            && (Calls(s.promotions, key) <= 1 || AnswerLost(run, key))
            && (PhaseIn(s.rows, key).Promoted? ==>
                || RollbackLost(run, key)
                || exists i | 0 <= i < |s.canaries| ::
                     && s.canaries[i].key == key && s.canaries[i].evidence.Some?
                     && Meets(c.thresholds, s.canaries[i].proposal, s.canaries[i].evidence.value))
  {
    EveryRunIsSafe(c, run);
    EvidenceUnlessLost(c, run, key);
    CalledOnceUnlessLost(c, run, key);
  }

  /** A decision the canary itself issued is only ever honoured for the proposal its evidence was about. */
  lemma IssuedDecisionNamesItsEvidence(c: Config, run: Run, op: Op, i: nat)
    requires ValidConfig(c) && ReachesDeployment(c, After(c, run), op)
    requires i < |After(c, run).canaries| && After(c, run).canaries[i].decision == op.decision
    ensures var ran := After(c, run).canaries[i];
            && ran.proposal.digest == op.proposal.digest && ran.evidence.Some?
            && Meets(c.thresholds, ran.proposal, ran.evidence.value)
  {
    EveryRunIsSafe(c, run);
  }

  /**
   A promotion trusts whatever passing decision it is handed. After a failed canary that opens the way
   to the deployment if and only if the write recording the rollback failed.
   */
  lemma MadeUpDecisionPassesIff(c: Config, run: Run, canary: Op, promotion: Op)
    requires ValidConfig(c) && canary.CanaryOp? && promotion.PromoteOp? && promotion.request == canary.request
    requires After(c, Do(run, canary)).canaries != After(c, run).canaries
    requires !CanaryOutcome(canary.proposal, canary.canary, c.thresholds, c.seal).0.passed
    requires ArtifactScope(promotion.request, promotion.candidate, promotion.proposal) && promotion.promote.readable
    requires promotion.decision.passed && promotion.decision.proposalDigest == promotion.proposal.digest
    requires promotion.decision.thresholdsDigest == c.thresholds.digest
    ensures ReachesDeployment(c, After(c, Do(run, canary)), promotion)
            <==> !canary.canary.rollback.write.storage.Healthy?
  {
    hide Safe, CanaryStep, CanaryOutcome;
    EveryRunIsSafe(c, run);
    CanaryEffect(c, After(c, run), canary.request, canary.candidate, canary.proposal, canary.now, canary.canary);
  }

  // ---------------------------------------------------------------- the deployment slot

  /** Every operation of the run is for this one request. */
  ghost predicate OnlyFor(run: Run, request: Request) {
    run.Do? ==> run.op.request == request && OnlyFor(run.prev, request)
  }

  function Initially(run: Run): string {
    match run
    case Begin(slot) => slot
    case Do(prev, _) => Initially(prev)
  }

  ghost predicate SlotDriven(s: State, request: Request, initial: string) {
    && (s.touched.None? ==> s.slot == initial && Rank(PhaseIn(s.rows, request.key)) < 6)
    && (s.touched.Some? ==> s.touched.value.key == request.key && s.touched.value.base == request.base)
  }

  /** Any step leaves the slot and its last driver alone, or is this request's turn to drive it. */
  lemma StepTouches(c: Config, s: State, op: Op)
    requires ValidConfig(c) && Safe(c, s)
    ensures var next := Step(c, s, op);
            || (next.slot == s.slot && next.touched == s.touched
                && (Rank(PhaseIn(next.rows, op.request.key)) == 6 ==> Rank(PhaseIn(s.rows, op.request.key)) == 6))
            || ((op.CanaryOp? || op.PromoteOp?)
                && next.touched == Some(Touch(op.request.key, op.request.base, op.candidate.package)))
  {
    hide Safe, PhaseIn, CanaryStep, RecordStep, CanaryOutcome;
    if IsStage(op) {
      StageEffect(c, s, op);
    } else if op.CanaryOp? {
      CanaryEffect(c, s, op.request, op.candidate, op.proposal, op.now, op.canary);
    } else {
      PromotionTouches(c, s, op);
    }
  }

  lemma PromotionTouches(c: Config, s: State, op: Op)
    requires ValidConfig(c) && Safe(c, s) && op.PromoteOp?
    ensures var next := Step(c, s, op);
            next == s || next.touched == Some(Touch(op.request.key, op.request.base, op.candidate.package))
  {
    hide AllPaths, RecordStep, PhaseIn, PassedOnEvidence, CanariesMatchChains;
    var PromoteOp(request, candidate, proposal, decision, w) := op;
    var touched := Some(Touch(request.key, candidate.base, candidate.package));
    var called := s.(promotions := s.promotions + [request.key], touched := touched);
    RecordEffect(c, called.(slot := candidate.package), request, decision.digest, Promoted, "promoted", w.write);
    RollbackTouches(c, s, request, candidate, "canary_failed", w.rollback);
    RollbackTouches(c, called.(slot := w.slotIfNot), request, candidate, "promotion_failed", w.rollback);
  }

  lemma RollbackTouches(c: Config, s: State, request: Request, candidate: Candidate, code: string, world: RollbackWorld)
    requires ValidConfig(c) && AllPaths(c.hash, s.rows)
    ensures RollbackReleaseStep(c, s, request, candidate, code, world).0.touched
            == Some(Touch(request.key, candidate.base, candidate.package))
  {
    hide AllPaths, RecordStep, PhaseIn;
    var turned := s.(slot := if world.completes then candidate.base else world.slotIfNot,
                     touched := Some(Touch(request.key, candidate.base, candidate.package)));
    var (to, event) := if world.completes then (RolledBack, code) else (Failed, "rollback_failed");
    RecordEffect(c, turned, request, candidate.base, to, event, world.write);
  }

  lemma {:induction false} OneRequestDrivesSlot(c: Config, run: Run, request: Request)
    requires ValidConfig(c) && OnlyFor(run, request)
    ensures SlotDriven(After(c, run), request, Initially(run))
  {
    hide Step, Safe;
    match run
    case Begin(slot) =>
    case Do(prev, op) =>
      OneRequestDrivesSlot(c, prev, request);
      EveryRunIsSafe(c, prev);
      StepTouches(c, After(c, prev), op);
  }

  /**
   The slot of one request's run, with any faults: the candidate package if promoted, the base package
   if rolled back, and what it held at the start until the request drives it.
   */
  lemma SlotHoldsOutcome(c: Config, run: Run, request: Request)
    requires ValidConfig(c) && OnlyFor(run, request)
    ensures var s := After(c, run); var phase := PhaseIn(s.rows, request.key);
            && (phase.Promoted? ==> s.touched == Some(Touch(request.key, request.base, s.slot)))
            && (phase.RolledBack? ==> s.slot == request.base)
            && (Rank(phase) < 5 ==> s.slot == Initially(run))
  {
    hide PhaseIn, AllPaths, PassedOnEvidence, CanariesMatchChains;
    EveryRunIsSafe(c, run);
    OneRequestDrivesSlot(c, run, request);
  }

  lemma {:induction false} UntouchedSlotStays(c: Config, run: Run)
    requires ValidConfig(c)
    ensures After(c, run).touched.None? ==> After(c, run).slot == Initially(run)
  {
    hide Step, Safe;
    match run
    case Begin(slot) =>
    case Do(prev, op) =>
      UntouchedSlotStays(c, prev);
      EveryRunIsSafe(c, prev);
      StepTouches(c, After(c, prev), op);
  }

  /**
   In a run of any requests that share the slot, whichever drove it last owns it: the slot holds that
   request's candidate if it is promoted and its base if it is rolled back; undriven, it is as it was.
   */
  lemma LastDriverOwnsSlot(c: Config, run: Run)
    requires ValidConfig(c)
    ensures var s := After(c, run);
            if s.touched.None? then s.slot == Initially(run)
            else SlotMatches(PhaseIn(s.rows, s.touched.value.key), s.slot, s.touched.value)
  {
    EveryRunIsSafe(c, run);
    UntouchedSlotStays(c, run);
  }

  /** The one way a request becomes promoted, and what the slot then holds. */
  lemma BecomesPromotedIff(c: Config, run: Run, op: Op, key: Key)
    requires ValidConfig(c) && !PhaseIn(After(c, run).rows, key).Promoted?
    ensures var next := After(c, Do(run, op));
            && (PhaseIn(next.rows, key).Promoted? <==>
                && ReachesDeployment(c, After(c, run), op) && op.request.key == key
                && op.promote.promoted == Some(true) && op.promote.write.storage.Healthy?)
            && (PhaseIn(next.rows, key).Promoted? ==> next.slot == op.candidate.package)
  {
    hide Safe, CanaryStep, RecordStep, PhaseIn, CanaryOutcome, RollbackReleaseStep;
    EveryRunIsSafe(c, run);
    var s := After(c, run);
    if IsStage(op) {
      StageEffect(c, s, op);
    } else if op.CanaryOp? {
      CanaryEffect(c, s, op.request, op.candidate, op.proposal, op.now, op.canary);
    } else if !ReachesDeployment(c, s, op) {
      RefusedPromotionEffect(c, s, op);
    } else if op.promote.promoted == Some(true) {
      SuccessfulPromotionEffect(c, s, op);
      SafePaths(c, s);
      var done := s.(promotions := s.promotions + [op.request.key], slot := op.candidate.package,
                     touched := Some(Touch(op.request.key, op.candidate.base, op.candidate.package)));
      RecordEffect(c, done, op.request, op.decision.digest, Promoted, "promoted", op.promote.write);
    } else {
      FailedPromotionEffect(c, s, op);
    }
  }
}

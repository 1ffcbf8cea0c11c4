/**
 The repair lifecycle: an append-only, digest-linked chain of transitions per request, and the
 coordinator that drives approval, canary, promotion and rollback of one deployment slot.
 What the injected collaborators and the storage answer is a parameter.
 */
module RepairLifecycle {
  import opened Wrappers

  datatype Phase =
    | Nothing | Generated | Validated | Proposed | Approved | Canary | Promoted | RolledBack | Rejected | Failed

  predicate Allowed(from: Phase, to: Phase) {
    match from
    case Nothing => to.Generated?
    case Generated => to.Validated? || to.Rejected?
    case Validated => to.Proposed?
    case Proposed => to.Approved?
    case Approved => to.Canary?
    case Canary => to.Promoted? || to.RolledBack? || to.Failed?
    case _ => false
  }

  /** What the store files a chain under. */
  datatype Key = Key(tenantId: string, environmentId: string, jobId: string, requestDigest: string)

  datatype Request = Request(key: Key, base: string)

  datatype Transition = Transition(
    key: Key, subject: string, from: Phase, to: Phase, event: string, previous: Option<string>, occurredAt: int)

  datatype Candidate = Candidate(jobId: string, requestDigest: string, base: string, package: string, digest: string)

  datatype Report = Report(candidateDigest: string, passed: bool, digest: string)

  datatype Proposal = Proposal(
    requestDigest: string, candidateDigest: string, reportDigest: string, expiresAt: int, digest: string)

  datatype Approval = Approval(proposalDigest: string, approved: bool, digest: string)

  datatype Thresholds = Thresholds(minimumObservations: int, minimumSuccessPpm: int, digest: string)

  datatype Evidence = Evidence(
    proposalDigest: string, observations: nat, successes: nat, violations: nat, verified: bool, digest: string)

  datatype Decision = Decision(
    proposalDigest: string, evidenceDigest: string, thresholdsDigest: string, passed: bool, digest: string)

  datatype Release = Release(previous: string, candidate: string, released: bool, code: string)

  datatype Error =
    | StoreUnavailable | ChainInvalid | TransitionInvalid
    | CandidateMismatch | ValidationMismatch | ProposalInvalid | ApprovalMismatch | ApprovalUnverified
    | ProposalExpired | ArtifactMismatch | CanaryMismatch

  // ---------------------------------------------------------------- the transition store

  /** How the database serves one write, and when it happens. */
  datatype Storage = Healthy | FailsAtBegin | FailsAtInsert

  datatype Write = Write(storage: Storage, at: int)

  function Chain(rows: seq<Transition>, key: Key): (r: seq<Transition>)
    ensures forall t | t in r :: t in rows && t.key == key
  {
    if rows == [] then []
    else
      var init, last := rows[..|rows| - 1], rows[|rows| - 1];
      if last.key == key then Chain(init, key) + [last] else Chain(init, key)
  }

  /** Each transition names the digest and the state its predecessor left. */
  ghost predicate Linked(hash: Transition -> string, chain: seq<Transition>) {
    forall i | 0 <= i < |chain| :: LinkedAt(hash, chain, i)
  }

  predicate LinkedAt(hash: Transition -> string, chain: seq<Transition>, i: nat)
    requires i < |chain|
  {
    && chain[i].previous == (if i == 0 then None else Some(hash(chain[i - 1])))
    && chain[i].from == if i == 0 then Nothing else chain[i - 1].to
  }

  function PhaseOf(chain: seq<Transition>): Phase {
    if chain == [] then Nothing else chain[|chain| - 1].to
  }

  function NextTransition(hash: Transition -> string, chain: seq<Transition>, key: Key, subject: string, to: Phase,
                          event: string, at: int): Transition
  {
    Transition(key, subject, PhaseOf(chain), to, event,
               if chain == [] then None else Some(hash(chain[|chain| - 1])), at)
  }

  ghost predicate DigestTaken(hash: Transition -> string, rows: seq<Transition>, t: Transition) {
    exists i | 0 <= i < |rows| :: hash(rows[i]) == hash(t)
  }

  ghost function AppendStep(hash: Transition -> string, rows: seq<Transition>, key: Key, subject: string, to: Phase,
                            event: string, write: Write): (seq<Transition>, Result<Transition, Error>)
  {
    var chain := Chain(rows, key);
    if write.storage.FailsAtBegin? then (rows, Failure(StoreUnavailable))
    else if !Linked(hash, chain) then (rows, Failure(ChainInvalid))
    else if !Allowed(PhaseOf(chain), to) then (rows, Failure(TransitionInvalid))
    else
      var t := NextTransition(hash, chain, key, subject, to, event, write.at);
      if write.storage.FailsAtInsert? || DigestTaken(hash, rows, t) then (rows, Failure(StoreUnavailable))
      else (rows + [t], Success(t))
  }

  class SQLiteRepairLifecycle {
    const hash: Transition -> string
    var rows: seq<Transition>

    constructor (hash: Transition -> string)
      ensures this.hash == hash && rows == []
    {
      this.hash := hash;
      rows := [];
    }

    method SelectRows(key: Key) returns (chain: seq<Transition>)
      ensures chain == Chain(rows, key)
    {
      chain := [];
      for i := 0 to |rows|
        invariant chain == Chain(rows[..i], key)
      {
        assert rows[..i + 1][..i] == rows[..i];
        if rows[i].key == key {
          chain := chain + [rows[i]];
        }
      }
      assert rows[..|rows|] == rows;
    }

    method LoadChain(key: Key) returns (r: Result<seq<Transition>, Error>)
      ensures r == if Linked(hash, Chain(rows, key)) then Success(Chain(rows, key)) else Failure(ChainInvalid)
    {
      var chain := SelectRows(key);
      var previous: Option<Transition> := None;
      for i := 0 to |chain|
        invariant previous == if i == 0 then None else Some(chain[i - 1])
        invariant forall j | 0 <= j < i :: LinkedAt(hash, chain, j)
      {
        var expectedDigest := if previous.None? then None else Some(hash(previous.value));
        var expectedPhase := if previous.None? then Nothing else previous.value.to;
        if chain[i].previous != expectedDigest || chain[i].from != expectedPhase {
          assert !LinkedAt(hash, chain, i);
          return Failure(ChainInvalid);
        }
        previous := Some(chain[i]);
      }
      return Success(chain);
    }

    method Append(key: Key, subject: string, to: Phase, event: string, write: Write)
      returns (r: Result<Transition, Error>)
      modifies this
      ensures (rows, r) == AppendStep(hash, old(rows), key, subject, to, event, write)
    {
      if write.storage.FailsAtBegin? {
        return Failure(StoreUnavailable);
      }
      var loaded := LoadChain(key);
      if loaded.Failure? {
        return Failure(loaded.error);
      }
      var chain := loaded.value;
      if !Allowed(PhaseOf(chain), to) {
        return Failure(TransitionInvalid);
      }
      var t := NextTransition(hash, chain, key, subject, to, event, write.at);
      if write.storage.FailsAtInsert? || exists i | 0 <= i < |rows| :: hash(rows[i]) == hash(t) {
        return Failure(StoreUnavailable);
      }
      rows := rows + [t];
      return Success(t);
    }
  }

  // ---------------------------------------------------------------- checks of the coordinator

  predicate CandidateMatches(request: Request, candidate: Candidate) {
    && candidate.requestDigest == request.key.requestDigest
    && candidate.jobId == request.key.jobId
    && candidate.base == request.base
  }

  predicate ArtifactScope(request: Request, candidate: Candidate, proposal: Proposal) {
    && CandidateMatches(request, candidate)
    && proposal.requestDigest == request.key.requestDigest
    && proposal.candidateDigest == candidate.digest
  }

  function SuccessPpm(evidence: Evidence): nat {
    if evidence.observations == 0 then 0 else evidence.successes * 1_000_000 / evidence.observations
  }

  function EvaluateCanary(proposal: Proposal, evidence: Evidence, thresholds: Thresholds,
                          seal: Decision -> string): Result<Decision, Error>
  {
    if evidence.proposalDigest != proposal.digest then Failure(CanaryMismatch)
    else
      var passed :=
        && evidence.verified
        && thresholds.minimumObservations <= evidence.observations
        && thresholds.minimumSuccessPpm <= SuccessPpm(evidence)
        && evidence.violations == 0;
      Success(Sealed(seal, Decision(proposal.digest, evidence.digest, thresholds.digest, passed, "")))
  }

  function Sealed(seal: Decision -> string, d: Decision): Decision {
    d.(digest := seal(d))
  }

  const EMPTY_DIGEST := "sha256:0000000000000000000000000000000000000000000000000000000000000000"

  /** The decision a canary ends in: the evidence's, or a failing one if anything on the way went wrong. */
  function CanaryOutcome(proposal: Proposal, world: CanaryWorld, thresholds: Thresholds, seal: Decision -> string)
    : (Decision, string)
  {
    var unavailable := (Sealed(seal, Decision(proposal.digest, EMPTY_DIGEST, thresholds.digest, false, "")), "canary_unavailable");
    if world.result.None? || world.result.value != proposal.digest || world.evidence.None? then unavailable
    else
      var decision := EvaluateCanary(proposal, world.evidence.value, thresholds, seal);
      if decision.Failure? then unavailable else (decision.value, "canary_failed")
  }

  // ---------------------------------------------------------------- what each operation does

  /** The deployment boundary's answer to a rollback, and what its slot holds if it raises. */
  datatype RollbackWorld = RollbackWorld(completes: bool, slotIfNot: string, write: Write)

  /** `None` is an exception; the executor answers with the digest of the proposal it ran. */
  datatype CanaryWorld = CanaryWorld(
    start: Write, result: Option<string>, evidence: Option<Evidence>, rollback: RollbackWorld)

  datatype PromoteWorld = PromoteWorld(
    readable: bool, promoted: Option<bool>, slotIfNot: string, write: Write, rollback: RollbackWorld)

  datatype CanaryRun = CanaryRun(key: Key, proposal: Proposal, evidence: Option<Evidence>, decision: Decision)

  /** The request that last drove the slot, with the packages it drove it between. */
  datatype Touch = Touch(key: Key, base: string, candidate: string)

  /** The stored rows, every executor run and promotion call made, and the deployment slot. */
  datatype State = State(
    rows: seq<Transition>, canaries: seq<CanaryRun>, promotions: seq<Key>, slot: string, touched: Option<Touch>)

  datatype Config = Config(hash: Transition -> string, seal: Decision -> string, thresholds: Thresholds)

  ghost function RecordStep(c: Config, s: State, request: Request, subject: string, to: Phase, event: string, write: Write)
    : (State, Result<Transition, Error>)
  {
    var (rows, r) := AppendStep(c.hash, s.rows, request.key, subject, to, event, write);
    (s.(rows := rows), r)
  }

  ghost function RecordCandidateStep(c: Config, s: State, request: Request, candidate: Candidate, write: Write)
    : (State, Result<Transition, Error>)
  {
    if !CandidateMatches(request, candidate) then (s, Failure(CandidateMismatch))
    else RecordStep(c, s, request, candidate.digest, Generated, "candidate_generated", write)
  }

  ghost function RecordValidationStep(c: Config, s: State, request: Request, candidate: Candidate, report: Report, write: Write)
    : (State, Result<Transition, Error>)
  {
    if candidate.requestDigest != request.key.requestDigest || report.candidateDigest != candidate.digest
    then (s, Failure(ValidationMismatch))
    else if report.passed then RecordStep(c, s, request, report.digest, Validated, "validation_passed", write)
    else RecordStep(c, s, request, report.digest, Rejected, "validation_failed", write)
  }

  ghost function RecordProposalStep(c: Config, s: State, request: Request, candidate: Candidate, report: Report,
                                proposal: Proposal, write: Write): (State, Result<Transition, Error>)
  {
    if !report.passed || !ArtifactScope(request, candidate, proposal) || proposal.reportDigest != report.digest
    then (s, Failure(ProposalInvalid))
    else RecordStep(c, s, request, proposal.digest, Proposed, "proposal_created", write)
  }

  ghost function ApproveStep(c: Config, s: State, request: Request, proposal: Proposal, approval: Approval, now: int,
                         verdict: Option<bool>, write: Write): (State, Result<Transition, Error>)
  {
    if proposal.requestDigest != request.key.requestDigest || approval.proposalDigest != proposal.digest
    then (s, Failure(ApprovalMismatch))
    else if proposal.expiresAt <= now then (s, Failure(ProposalExpired))
    else if !approval.approved || verdict != Some(true) then (s, Failure(ApprovalUnverified))
    else RecordStep(c, s, request, approval.digest, Approved, "proposal_approved", write)
  }

  ghost function RollbackReleaseStep(c: Config, s: State, request: Request, candidate: Candidate, code: string, world: RollbackWorld)
    : (State, Result<Release, Error>)
  {
    var touched := Some(Touch(request.key, candidate.base, candidate.package));
    var (to, event, slot) :=
      if world.completes then (RolledBack, code, candidate.base) else (Failed, "rollback_failed", world.slotIfNot);
    var (next, r) := RecordStep(c, s.(slot := slot, touched := touched), request, candidate.base, to, event, world.write);
    (next, if r.Failure? then Failure(r.error) else Success(Release(candidate.base, candidate.package, false, event)))
  }

  ghost function CanaryStep(c: Config, s: State, request: Request, candidate: Candidate, proposal: Proposal, now: int,
                           world: CanaryWorld): (State, Result<(Decision, Option<Release>), Error>)
  {
    if !ArtifactScope(request, candidate, proposal) then (s, Failure(ArtifactMismatch))
    else if proposal.expiresAt <= now then (s, Failure(ProposalExpired))
    else
      var (started, r) := RecordStep(c, s, request, proposal.digest, Canary, "canary_started", world.start);
      if r.Failure? then (started, Failure(r.error))
      else
        var (decision, code) := CanaryOutcome(proposal, world, c.thresholds, c.seal);
        var ran := started.(canaries := s.canaries + [CanaryRun(request.key, proposal, world.evidence, decision)]);
        if decision.passed then (ran, Success((decision, None)))
        else
          var (next, release) := RollbackReleaseStep(c, ran, request, candidate, code, world.rollback);
          (next, if release.Failure? then Failure(release.error) else Success((decision, Some(release.value))))
  }

  ghost function PromoteStep(c: Config, s: State, request: Request, candidate: Candidate, proposal: Proposal,
                         decision: Decision, world: PromoteWorld): (State, Result<Release, Error>)
  {
    if !ArtifactScope(request, candidate, proposal) then (s, Failure(ArtifactMismatch))
    else if decision.proposalDigest != proposal.digest || decision.thresholdsDigest != c.thresholds.digest
    then (s, Failure(CanaryMismatch))
    else if !world.readable then (s, Failure(StoreUnavailable))
    else if !Linked(c.hash, Chain(s.rows, request.key)) then (s, Failure(ChainInvalid))
    else if !PhaseOf(Chain(s.rows, request.key)).Canary? then (s, Failure(TransitionInvalid))
    else if !decision.passed then RollbackReleaseStep(c, s, request, candidate, "canary_failed", world.rollback)
    else
      var done := world.promoted == Some(true);
      var called := s.(
        promotions := s.promotions + [request.key],
        slot := if done then candidate.package else world.slotIfNot,
        touched := Some(Touch(request.key, candidate.base, candidate.package)));
      if !done then RollbackReleaseStep(c, called, request, candidate, "promotion_failed", world.rollback)
      else
        var (next, r) := RecordStep(c, called, request, decision.digest, Promoted, "promoted", world.write);
        (next, if r.Failure? then Failure(r.error) else Success(Release(candidate.base, candidate.package, true, "promoted")))
  }

  // ---------------------------------------------------------------- the coordinator itself

  class RepairLifecycle {
    const transitions: SQLiteRepairLifecycle
    const seal: Decision -> string
    const thresholds: Thresholds
    /** What the canary executor and the deployment boundary have been asked to do. */
    var canaries: seq<CanaryRun>
    var promotions: seq<Key>
    var slot: string
    var touched: Option<Touch>

    ghost function Settings(): Config {
      Config(transitions.hash, seal, thresholds)
    }

    ghost function Contents(): State
      reads this, transitions
    {
      State(transitions.rows, canaries, promotions, slot, touched)
    }

    constructor (transitions: SQLiteRepairLifecycle, seal: Decision -> string, thresholds: Thresholds, slot: string)
      ensures this.transitions == transitions && this.seal == seal && this.thresholds == thresholds
      ensures Contents() == State(transitions.rows, [], [], slot, None)
    {
      this.transitions := transitions;
      this.seal := seal;
      this.thresholds := thresholds;
      this.canaries := [];
      this.promotions := [];
      this.slot := slot;
      this.touched := None;
    }

    method RecordCandidate(request: Request, candidate: Candidate, write: Write) returns (r: Result<Transition, Error>)
      modifies this, transitions
      ensures (Contents(), r) == RecordCandidateStep(Settings(), old(Contents()), request, candidate, write)
    {
      hide AppendStep;
      if !CandidateMatches(request, candidate) {
        return Failure(CandidateMismatch);
      }
      r := transitions.Append(request.key, candidate.digest, Generated, "candidate_generated", write);
    }

    method RecordValidation(request: Request, candidate: Candidate, report: Report, write: Write)
      returns (r: Result<Transition, Error>)
      modifies this, transitions
      ensures (Contents(), r) == RecordValidationStep(Settings(), old(Contents()), request, candidate, report, write)
    {
      hide AppendStep;
      if candidate.requestDigest != request.key.requestDigest || report.candidateDigest != candidate.digest {
        return Failure(ValidationMismatch);
      }
      var to := if report.passed then Validated else Rejected;
      r := transitions.Append(request.key, report.digest, to,
                              if report.passed then "validation_passed" else "validation_failed", write);
    }

    method RecordProposal(request: Request, candidate: Candidate, report: Report, proposal: Proposal, write: Write)
      returns (r: Result<Transition, Error>)
      modifies this, transitions
      ensures (Contents(), r) == RecordProposalStep(Settings(), old(Contents()), request, candidate, report, proposal, write)
    {
      hide AppendStep;
      if !report.passed || !ArtifactScope(request, candidate, proposal) || proposal.reportDigest != report.digest {
        return Failure(ProposalInvalid);
      }
      r := transitions.Append(request.key, proposal.digest, Proposed, "proposal_created", write);
    }

    method Approve(request: Request, proposal: Proposal, approval: Approval, now: int, verdict: Option<bool>, write: Write)
      returns (r: Result<Transition, Error>)
      modifies this, transitions
      ensures (Contents(), r) == ApproveStep(Settings(), old(Contents()), request, proposal, approval, now, verdict, write)
    {
      hide AppendStep;
      if proposal.requestDigest != request.key.requestDigest || approval.proposalDigest != proposal.digest {
        return Failure(ApprovalMismatch);
      }
      if proposal.expiresAt <= now {
        return Failure(ProposalExpired);
      }
      if verdict.None? {
        return Failure(ApprovalUnverified);
      }
      if !approval.approved || verdict.value != true {
        return Failure(ApprovalUnverified);
      }
      r := transitions.Append(request.key, approval.digest, Approved, "proposal_approved", write);
    }

    method RollbackRelease(request: Request, candidate: Candidate, code: string, world: RollbackWorld)
      returns (r: Result<Release, Error>)
      modifies this, transitions
      ensures (Contents(), r) == RollbackReleaseStep(Settings(), old(Contents()), request, candidate, code, world)
    {
      hide AppendStep;
      var event, to := code, RolledBack;
      touched := Some(Touch(request.key, candidate.base, candidate.package));
      if world.completes {
        slot := candidate.base;
      } else {
        slot := world.slotIfNot;
        event, to := "rollback_failed", Failed;
      }
      var appended := transitions.Append(request.key, candidate.base, to, event, world.write);
      if appended.Failure? {
        return Failure(appended.error);
      }
      return Success(Release(candidate.base, candidate.package, false, event));
    }

    method RunCanary(request: Request, candidate: Candidate, proposal: Proposal, now: int, world: CanaryWorld)
      returns (r: Result<(Decision, Option<Release>), Error>)
      modifies this, transitions
      ensures (Contents(), r) == CanaryStep(Settings(), old(Contents()), request, candidate, proposal, now, world)
    {
      hide AppendStep, RollbackReleaseStep, CanaryOutcome;
      if !ArtifactScope(request, candidate, proposal) {
        return Failure(ArtifactMismatch);
      }
      if proposal.expiresAt <= now {
        return Failure(ProposalExpired);
      }
      var started := transitions.Append(request.key, proposal.digest, Canary, "canary_started", world.start);
      if started.Failure? {
        return Failure(started.error);
      }
      var (decision, code) := CanaryOutcome(proposal, world, thresholds, seal);
      canaries := canaries + [CanaryRun(request.key, proposal, world.evidence, decision)];
      if decision.passed {
        return Success((decision, None));
      }
      var release := RollbackRelease(request, candidate, code, world.rollback);
      if release.Failure? {
        return Failure(release.error);
      }
      return Success((decision, Some(release.value)));
    }

    method Promote(request: Request, candidate: Candidate, proposal: Proposal, decision: Decision, world: PromoteWorld)
      returns (r: Result<Release, Error>)
      modifies this, transitions
      ensures (Contents(), r) == PromoteStep(Settings(), old(Contents()), request, candidate, proposal, decision, world)
    {
      hide AppendStep, RollbackReleaseStep;
      if !ArtifactScope(request, candidate, proposal) {
        return Failure(ArtifactMismatch);
      }
      if decision.proposalDigest != proposal.digest || decision.thresholdsDigest != thresholds.digest {
        return Failure(CanaryMismatch);
      }
      if !world.readable {
        return Failure(StoreUnavailable);
      }
      var chain := transitions.LoadChain(request.key);
      if chain.Failure? {
        return Failure(chain.error);
      }
      if !PhaseOf(chain.value).Canary? {
        return Failure(TransitionInvalid);
      }
      if !decision.passed {
        r := RollbackRelease(request, candidate, "canary_failed", world.rollback);
        return;
      }
      promotions := promotions + [request.key];
      touched := Some(Touch(request.key, candidate.base, candidate.package));
      var promoted := false;
      if world.promoted.Some? {
        promoted := world.promoted.value;
      }
      if !promoted {
        slot := world.slotIfNot;
        r := RollbackRelease(request, candidate, "promotion_failed", world.rollback);
        return;
      }
      slot := candidate.package;
      var appended := transitions.Append(request.key, decision.digest, Promoted, "promoted", world.write);
      if appended.Failure? {
        return Failure(appended.error);
      }
      return Success(Release(candidate.base, candidate.package, true, "promoted"));
    }
  }
}

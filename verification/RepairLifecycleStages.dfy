/** What it takes to enter each stage of a release, in runs of whole operations and in interleaved ones. */
module RepairLifecycleStages {
  import opened Wrappers
  import opened RepairLifecycle
  import opened S = RepairLifecycleSafety
  import O = RepairLifecycleOverlap

  predicate Describes(candidate: Candidate, request: Request) {
    && candidate.requestDigest == request.key.requestDigest && candidate.jobId == request.key.jobId
    && candidate.base == request.base
  }

  predicate Releases(proposal: Proposal, candidate: Candidate, request: Request) {
    && Describes(candidate, request)
    && proposal.requestDigest == request.key.requestDigest && proposal.candidateDigest == candidate.digest
  }

  /** The operation brings what the original asks for before it records this stage of the request. */
  predicate Earns(op: Op, key: Key, stage: Phase) {
    && op.request.key == key
    && match stage
       case Generated => op.CandidateOp? && Describes(op.candidate, op.request)
       case Validated => op.ValidationOp? && op.report.passed && Reports(op)
       case Rejected => op.ValidationOp? && !op.report.passed && Reports(op)
       case Proposed =>
         && op.ProposalOp? && op.report.passed && op.proposal.reportDigest == op.report.digest
         && Releases(op.proposal, op.candidate, op.request)
       case Approved =>
         && op.ApproveOp? && op.approval.approved && op.verdict == Some(true) && op.now < op.proposal.expiresAt
         && op.proposal.requestDigest == key.requestDigest && op.approval.proposalDigest == op.proposal.digest
       case Canary =>
         op.CanaryOp? && op.now < op.proposal.expiresAt && Releases(op.proposal, op.candidate, op.request)
       case _ => false
  }

  predicate Reports(op: Op)
    requires op.ValidationOp?
  {
    op.candidate.requestDigest == op.request.key.requestDigest && op.report.candidateDigest == op.candidate.digest
  }

  /** The write that records the stage an operation is for. */
  function FirstWrite(op: Op): Write {
    match op
    case CanaryOp(_, _, _, _, world) => world.start
    case PromoteOp(_, _, _, _, world) => world.write
    case _ => op.write
  }

  predicate Recorded(stage: Phase) {
    stage.Generated? || stage.Validated? || stage.Rejected? || stage.Proposed? || stage.Approved?
  }

  /** An operation records one of the five stages before the canary exactly if it earns it from the stage before. */
  lemma StageTakenIff(c: Config, s: State, op: Op, key: Key, stage: Phase)
    requires ValidConfig(c) && Safe(c, s) && Recorded(stage) && PhaseIn(s.rows, key) != stage
    ensures PhaseIn(Step(c, s, op).rows, key) == stage <==>
              Earns(op, key, stage) && Allowed(PhaseIn(s.rows, key), stage) && FirstWrite(op).storage.Healthy?
  {
    hide Safe, CanaryStep, PromoteStep, RecordStep, PhaseIn, CanaryOutcome;
    if IsStage(op) {
      SafePaths(c, s);
      StageRecorded(c, s, op, key, stage);
    } else {
      StepAdvances(c, s, op, key);
      LaterStagesOnly(c, s, op, key, stage);
    }
  }

  lemma StageRecorded(c: Config, s: State, op: Op, key: Key, stage: Phase)
    requires CollisionFree(c.hash) && AllPaths(c.hash, s.rows) && IsStage(op) && Recorded(stage) && PhaseIn(s.rows, key) != stage
    ensures PhaseIn(Step(c, s, op).rows, key) == stage <==>
              Earns(op, key, stage) && Allowed(PhaseIn(s.rows, key), stage) && FirstWrite(op).storage.Healthy?
  {
    hide AllPaths, RecordStep, PhaseIn;
    match op {
      case CandidateOp(request, candidate, write) =>
        RecordEffect(c, s, request, candidate.digest, Generated, "candidate_generated", write);
      case ValidationOp(request, _, report, write) =>
        RecordEffect(c, s, request, report.digest, Validated, "validation_passed", write);
        RecordEffect(c, s, request, report.digest, Rejected, "validation_failed", write);
      case ProposalOp(request, _, _, proposal, write) =>
        RecordEffect(c, s, request, proposal.digest, Proposed, "proposal_created", write);
      case ApproveOp(request, _, approval, _, _, write) =>
        RecordEffect(c, s, request, approval.digest, Approved, "proposal_approved", write);
      case _ =>
    }
  }

  lemma LaterStagesOnly(c: Config, s: State, op: Op, key: Key, stage: Phase)
    requires ValidConfig(c) && Safe(c, s) && !IsStage(op) && Recorded(stage) && PhaseIn(s.rows, key) != stage
    ensures PhaseIn(Step(c, s, op).rows, key) != stage
  {
    hide Safe, CanaryStep, PromoteStep, RecordStep, PhaseIn, CanaryOutcome;
    if op.CanaryOp? {
      CanaryEffect(c, s, op.request, op.candidate, op.proposal, op.now, op.canary);
    } else if !ReachesDeployment(c, s, op) {
      RefusedPromotionEffect(c, s, op);
    } else if op.promote.promoted == Some(true) {
      SuccessfulPromotionEffect(c, s, op);
    } else {
      FailedPromotionEffect(c, s, op);
    }
  }

  lemma CanaryRunsStep(c: Config, s: State, op: Op)
    requires ValidConfig(c) && AllPaths(c.hash, s.rows)
    ensures Step(c, s, op).canaries != s.canaries <==>
              Earns(op, op.request.key, Canary) && PhaseIn(s.rows, op.request.key).Approved? && FirstWrite(op).storage.Healthy?
  {
    hide AllPaths, PhaseIn, CanaryOutcome, AppendStep, EvaluateCanary;
    if op.CanaryOp? {
      RecordEffect(c, s, op.request, op.proposal.digest, Canary, "canary_started", op.canary.start);
    }
  }

  /** The executor runs exactly for a canary that earns it, from APPROVED, once its start is recorded. */
  lemma CanaryRunsIff(c: Config, run: Run, op: Op)
    requires ValidConfig(c)
    ensures var s := After(c, run);
            After(c, Do(run, op)).canaries != s.canaries <==>
              && Earns(op, op.request.key, Canary) && PhaseIn(s.rows, op.request.key).Approved?
              && FirstWrite(op).storage.Healthy?
  {
    EveryRunIsSafe(c, run);
    CanaryRunsStep(c, After(c, run), op);
  }

  // ---------------------------------------------------------------- what every run has behind it

  ghost predicate Did(run: Run, key: Key, stage: Phase) {
    run.Do? && (Did(run.prev, key, stage) || Earns(run.op, key, stage))
  }

  /** The stages a request at this phase has gone through. */
  predicate Behind(phase: Phase, stage: Phase) {
    match stage
    case Generated => 1 <= Rank(phase)
    case Validated => 2 <= Rank(phase) && !phase.Rejected?
    case Rejected => phase.Rejected?
    case Proposed => 3 <= Rank(phase)
    case Approved => 4 <= Rank(phase)
    case Canary => 5 <= Rank(phase)
    case _ => false
  }

  /**
   In every run, with any storage faults: whatever stages a request has behind it were each earned by an
   operation. A promoted one was validated by a passed report and approved by a verified approval.
   */
  lemma {:induction false} EveryStageWasEarned(c: Config, run: Run, key: Key, stage: Phase)
    requires ValidConfig(c) && Behind(PhaseIn(After(c, run).rows, key), stage)
    ensures Did(run, key, stage)
  {
    hide Safe, Step, Earns, PhaseIn;
    match run
    case Begin(slot) => NothingAtFirst(c, slot, key);
    case Do(prev, op) =>
      EveryRunIsSafe(c, prev);
      if Behind(PhaseIn(After(c, prev).rows, key), stage) {
        EveryStageWasEarned(c, prev, key, stage);
      } else {
        StageIsEarned(c, After(c, prev), op, key, stage);
      }
  }

  lemma NothingAtFirst(c: Config, slot: string, key: Key)
    ensures PhaseIn(After(c, Begin(slot)).rows, key).Nothing?
  {}

  lemma StageIsEarned(c: Config, s: State, op: Op, key: Key, stage: Phase)
    requires ValidConfig(c) && Safe(c, s)
    requires !Behind(PhaseIn(s.rows, key), stage) && Behind(PhaseIn(Step(c, s, op).rows, key), stage)
    ensures Earns(op, key, stage)
  {
    hide Safe, Step, Earns, PhaseIn;
    StepAdvances(c, s, op, key);
    if Recorded(stage) {
      StageTakenIff(c, s, op, key, stage);
    } else {
      SafePaths(c, s);
      CanaryRunsStep(c, s, op);
      OnlyCanaryCrosses(c, s, op, key);
    }
  }

  lemma OnlyCanaryCrosses(c: Config, s: State, op: Op, key: Key)
    requires ValidConfig(c) && Safe(c, s)
    requires Rank(PhaseIn(s.rows, key)) < 5 && 5 <= Rank(PhaseIn(Step(c, s, op).rows, key))
    ensures op.request.key == key && Step(c, s, op).canaries != s.canaries
  {
    hide Safe, CanaryStep, PromoteStep, RecordStep, PhaseIn, CanaryOutcome;
    if IsStage(op) {
      StageEffect(c, s, op);
    } else if op.CanaryOp? {
      CanaryEffect(c, s, op.request, op.candidate, op.proposal, op.now, op.canary);
    } else if !ReachesDeployment(c, s, op) {
      RefusedPromotionEffect(c, s, op);
    } else if op.promote.promoted == Some(true) {
      SuccessfulPromotionEffect(c, s, op);
    } else {
      FailedPromotionEffect(c, s, op);
    }
  }

  /** A promoted request had a passed report, a proposal for it, a verified approval and an unexpired canary. */
  lemma PromotionWasEarned(c: Config, run: Run, key: Key)
    requires ValidConfig(c) && PhaseIn(After(c, run).rows, key).Promoted?
    ensures Did(run, key, Generated) && Did(run, key, Validated) && Did(run, key, Proposed)
    ensures Did(run, key, Approved) && Did(run, key, Canary)
  {
    EveryStageWasEarned(c, run, key, Generated);
    EveryStageWasEarned(c, run, key, Validated);
    EveryStageWasEarned(c, run, key, Proposed);
    EveryStageWasEarned(c, run, key, Approved);
    EveryStageWasEarned(c, run, key, Canary);
  }

  // ---------------------------------------------------------------- what a stored transition says

  /** The answers on which a canary cannot be judged at all. */
  predicate Unjudged(proposal: Proposal, world: CanaryWorld) {
    || world.result != Some(proposal.digest) || world.evidence.None?
    || world.evidence.value.proposalDigest != proposal.digest
  }

  /** Why the operation rolled back. */
  function CodeOf(op: Op): string {
    if op.CanaryOp? then if Unjudged(op.proposal, op.canary) then "canary_unavailable" else "canary_failed"
    else if op.PromoteOp? && op.decision.passed then "promotion_failed"
    else "canary_failed"
  }

  predicate Undoes(op: Op, t: Transition, completes: bool) {
    && (op.CanaryOp? || op.PromoteOp?) && t.subject == op.candidate.base
    && (op.PromoteOp? && op.decision.passed ==> op.promote.promoted != Some(true))
    && var world := if op.CanaryOp? then op.canary.rollback else op.promote.rollback;
       world.completes == completes && t.occurredAt == world.write.at
  }

  /** The transition records this operation: its subject is the digest of what the operation brought. */
  predicate Records(op: Op, t: Transition) {
    && t.key == op.request.key
    && match t.to
       case Nothing => false
       case Promoted =>
         && op.PromoteOp? && op.decision.passed && op.promote.promoted == Some(true)
         && t.subject == op.decision.digest && t.event == "promoted" && t.occurredAt == op.promote.write.at
       case RolledBack => Undoes(op, t, true) && t.event == CodeOf(op)
       case Failed => Undoes(op, t, false) && t.event == "rollback_failed"
       case Generated => Enters(op, t) && t.subject == op.candidate.digest && t.event == "candidate_generated"
       case Validated => Enters(op, t) && t.subject == op.report.digest && t.event == "validation_passed"
       case Rejected => Enters(op, t) && t.subject == op.report.digest && t.event == "validation_failed"
       case Proposed => Enters(op, t) && t.subject == op.proposal.digest && t.event == "proposal_created"
       case Approved => Enters(op, t) && t.subject == op.approval.digest && t.event == "proposal_approved"
       case Canary => Enters(op, t) && t.subject == op.proposal.digest && t.event == "canary_started"
  }

  predicate Enters(op: Op, t: Transition) {
    Earns(op, t.key, t.to) && t.occurredAt == FirstWrite(op).at
  }

  /** `next` is `rows` with nothing but transitions added that record the operation. */
  ghost predicate Adds(rows: seq<Transition>, next: seq<Transition>, op: Op) {
    rows <= next && forall i | |rows| <= i < |next| :: Records(op, next[i])
  }

  lemma RecordAdds(c: Config, s: State, op: Op, subject: string, to: Phase, event: string, write: Write)
    requires forall from, previous ::
               Records(op, Transition(op.request.key, subject, from, to, event, previous, write.at))
    ensures var next := RecordStep(c, s, op.request, subject, to, event, write).0;
            next == s.(rows := next.rows) && Adds(s.rows, next.rows, op)
  {
    hide Linked, Chain, DigestTaken, PhaseOf, Records;
  }

  lemma StageAdds(c: Config, s: State, op: Op)
    requires IsStage(op)
    ensures Adds(s.rows, Step(c, s, op).rows, op)
  {
    hide RecordStep;
    match op {
      case CandidateOp(request, candidate, write) =>
        if CandidateMatches(request, candidate) {
          RecordAdds(c, s, op, candidate.digest, Generated, "candidate_generated", write);
        }
      case ValidationOp(request, _, report, write) =>
        if Reports(op) {
          if report.passed {
            RecordAdds(c, s, op, report.digest, Validated, "validation_passed", write);
          } else {
            RecordAdds(c, s, op, report.digest, Rejected, "validation_failed", write);
          }
        }
      case ProposalOp(_, _, _, proposal, write) =>
        if Earns(op, op.request.key, Proposed) {
          RecordAdds(c, s, op, proposal.digest, Proposed, "proposal_created", write);
        }
      case ApproveOp(_, _, approval, _, _, write) =>
        if Earns(op, op.request.key, Approved) {
          RecordAdds(c, s, op, approval.digest, Approved, "proposal_approved", write);
        }
      case _ =>
    }
  }

  lemma RollbackAdds(c: Config, s: State, op: Op, world: RollbackWorld)
    requires op.CanaryOp? || op.PromoteOp?
    requires world == if op.CanaryOp? then op.canary.rollback else op.promote.rollback
    requires op.PromoteOp? && op.decision.passed ==> op.promote.promoted != Some(true)
    ensures Adds(s.rows, RollbackReleaseStep(c, s, op.request, op.candidate, CodeOf(op), world).0.rows, op)
  {
    hide RecordStep, CodeOf;
    var turned := s.(slot := if world.completes then op.candidate.base else world.slotIfNot,
                     touched := Some(Touch(op.request.key, op.candidate.base, op.candidate.package)));
    if world.completes {
      RecordAdds(c, turned, op, op.candidate.base, RolledBack, CodeOf(op), world.write);
    } else {
      RecordAdds(c, turned, op, op.candidate.base, Failed, "rollback_failed", world.write);
    }
  }

  lemma CanaryAdds(c: Config, s: State, op: Op)
    requires op.CanaryOp?
    ensures Adds(s.rows, Step(c, s, op).rows, op)
  {
    hide RecordStep, RollbackReleaseStep, Records;
    if Earns(op, op.request.key, Canary) {
      var w := op.canary;
      StartAdds(c, s, op);
      var (started, r) := RecordStep(c, s, op.request, op.proposal.digest, Canary, "canary_started", w.start);
      var (decision, code) := CanaryOutcome(op.proposal, w, c.thresholds, c.seal);
      var ran := started.(canaries := s.canaries + [CanaryRun(op.request.key, op.proposal, w.evidence, decision)]);
      assert code == CodeOf(op);
      RollbackAdds(c, ran, op, w.rollback);
    }
  }

  lemma StartAdds(c: Config, s: State, op: Op)
    requires op.CanaryOp? && Earns(op, op.request.key, Canary)
    ensures var next := RecordStep(c, s, op.request, op.proposal.digest, Canary, "canary_started", op.canary.start).0;
            Adds(s.rows, next.rows, op)
  {
    hide RecordStep;
    RecordAdds(c, s, op, op.proposal.digest, Canary, "canary_started", op.canary.start);
  }

  lemma PromotionAdds(c: Config, s: State, op: Op)
    requires op.PromoteOp?
    ensures Adds(s.rows, Step(c, s, op).rows, op)
  {
    hide RecordStep, RollbackReleaseStep, Linked, Chain;
    var w := op.promote;
    var called := s.(promotions := s.promotions + [op.request.key],
                     touched := Some(Touch(op.request.key, op.candidate.base, op.candidate.package)));
    if !op.decision.passed {
      RollbackAdds(c, s, op, w.rollback);
    } else if w.promoted != Some(true) {
      RollbackAdds(c, called.(slot := w.slotIfNot), op, w.rollback);
    } else {
      RecordAdds(c, called.(slot := op.candidate.package), op, op.decision.digest, Promoted, "promoted", w.write);
    }
  }

  /** An operation only adds rows, and each one it adds records it. */
  lemma StepRecords(c: Config, s: State, op: Op)
    ensures Adds(s.rows, Step(c, s, op).rows, op)
  {
    if IsStage(op) {
      StageAdds(c, s, op);
    } else if op.CanaryOp? {
      CanaryAdds(c, s, op);
    } else {
      PromotionAdds(c, s, op);
    }
  }

  ghost predicate RecordedBy(run: Run, t: Transition) {
    run.Do? && (RecordedBy(run.prev, t) || Records(run.op, t))
  }

  /** Every stored transition of every run records an operation of it, with the digest of what that brought. */
  lemma {:induction false} EveryRowRecordsAnOperation(c: Config, run: Run, t: Transition)
    requires t in After(c, run).rows
    ensures RecordedBy(run, t)
  {
    hide Step, Records;
    if run.Do? {
      var s := After(c, run.prev);
      StepRecords(c, s, run.op);
      var i :| 0 <= i < |After(c, run).rows| && After(c, run).rows[i] == t;
      if i < |s.rows| {
        assert s.rows[i] == t;
        EveryRowRecordsAnOperation(c, run.prev, t);
      }
    }
  }

  // ---------------------------------------------------------------- the store by itself

  /** On any table: a transition is stored exactly if the chain is linked, allows it, and its digest is free. */
  lemma AppendedIff(hash: Transition -> string, rows: seq<Transition>, key: Key, subject: string, to: Phase,
                    event: string, write: Write)
    ensures var (next, r) := AppendStep(hash, rows, key, subject, to, event, write);
            var chain := Chain(rows, key);
            var t := Transition(key, subject, if chain == [] then Nothing else chain[|chain| - 1].to, to, event,
                                if chain == [] then None else Some(hash(chain[|chain| - 1])), write.at);
            && (r.Success? <==>
                && write.storage.Healthy? && LinkedThroughout(hash, chain) && Allowed(t.from, to)
                && forall u | u in rows :: hash(u) != hash(t))
            && (r.Success? ==> r.value == t && next == rows + [t])
            && (r.Failure? ==> next == rows)
  {
    hide Chain, Linked, LinkedThroughout, DigestTaken;
    var chain := Chain(rows, key);
    LinkedIff(hash, chain);
    TakenIff(hash, rows, NextTransition(hash, chain, key, subject, to, event, write.at));
  }

  lemma LinkedIff(hash: Transition -> string, chain: seq<Transition>)
    ensures Linked(hash, chain) <==> LinkedThroughout(hash, chain)
  {
    if Linked(hash, chain) {
      assert chain != [] ==> LinkedAt(hash, chain, 0);
      forall i | 0 < i < |chain| ensures chain[i].previous == Some(hash(chain[i - 1])) && chain[i].from == chain[i - 1].to {
        assert LinkedAt(hash, chain, i);
      }
    }
    if LinkedThroughout(hash, chain) {
      forall i | 0 <= i < |chain| ensures LinkedAt(hash, chain, i) {
      }
    }
  }

  lemma TakenIff(hash: Transition -> string, rows: seq<Transition>, t: Transition)
    ensures DigestTaken(hash, rows, t) <==> exists u :: u in rows && hash(u) == hash(t)
  {
    if DigestTaken(hash, rows, t) {
      var i :| 0 <= i < |rows| && hash(rows[i]) == hash(t);
      assert rows[i] in rows;
    }
  }

  /** Every transition names the digest of the one before it and starts in the phase that one reached. */
  ghost predicate LinkedThroughout(hash: Transition -> string, chain: seq<Transition>) {
    && (chain != [] ==> chain[0].previous == None && chain[0].from == Nothing)
    && forall i | 0 < i < |chain| :: chain[i].previous == Some(hash(chain[i - 1])) && chain[i].from == chain[i - 1].to
  }

  /** A chain that loads is fixed by the digest of its last transition: no other loads and ends in it. */
  lemma {:induction false} LastDigestFixesChain(hash: Transition -> string, a: seq<Transition>, b: seq<Transition>)
    requires CollisionFree(hash) && Linked(hash, a) && Linked(hash, b) && a != [] && b != []
    requires hash(a[|a| - 1]) == hash(b[|b| - 1])
    ensures a == b
  {
    var m, n := |a| - 1, |b| - 1;
    assert LinkedAt(hash, a, m) && LinkedAt(hash, b, n) && a[m] == b[n];
    assert a == a[..m] + [a[m]] && b == b[..n] + [b[n]];
    if 0 < m && 0 < n {
      LinkedBefore(hash, a, m);
      LinkedBefore(hash, b, n);
      LastDigestFixesChain(hash, a[..m], b[..n]);
    }
  }

  lemma LinkedBefore(hash: Transition -> string, chain: seq<Transition>, n: nat)
    requires Linked(hash, chain) && n <= |chain|
    ensures Linked(hash, chain[..n])
  {
    forall i | 0 <= i < n ensures LinkedAt(hash, chain[..n], i) {
      assert LinkedAt(hash, chain, i);
    }
  }

  ghost predicate OwnDigests(hash: Transition -> string, rows: seq<Transition>) {
    forall i, j | 0 <= i < j < |rows| :: hash(rows[i]) != hash(rows[j])
  }

  lemma RecordKeepsDigests(c: Config, s: State, request: Request, subject: string, to: Phase, event: string, write: Write)
    requires OwnDigests(c.hash, s.rows)
    ensures OwnDigests(c.hash, RecordStep(c, s, request, subject, to, event, write).0.rows)
  {
    hide Linked, Chain;
    AppendedIff(c.hash, s.rows, request.key, subject, to, event, write);
    var next := RecordStep(c, s, request, subject, to, event, write).0.rows;
    assert forall i | 0 <= i < |s.rows| :: s.rows[i] in s.rows;
  }

  lemma StepKeepsDigests(c: Config, s: State, op: Op)
    requires OwnDigests(c.hash, s.rows)
    ensures OwnDigests(c.hash, Step(c, s, op).rows)
  {
    hide RecordStep, OwnDigests, RollbackReleaseStep, CanaryOutcome, Linked, Chain;
    match op {
      case CandidateOp(request, candidate, write) =>
        RecordKeepsDigests(c, s, request, candidate.digest, Generated, "candidate_generated", write);
      case ValidationOp(request, _, report, write) =>
        RecordKeepsDigests(c, s, request, report.digest, Validated, "validation_passed", write);
        RecordKeepsDigests(c, s, request, report.digest, Rejected, "validation_failed", write);
      case ProposalOp(request, _, _, proposal, write) =>
        RecordKeepsDigests(c, s, request, proposal.digest, Proposed, "proposal_created", write);
      case ApproveOp(request, _, approval, _, _, write) =>
        RecordKeepsDigests(c, s, request, approval.digest, Approved, "proposal_approved", write);
      case CanaryOp(request, candidate, proposal, _, w) =>
        RecordKeepsDigests(c, s, request, proposal.digest, Canary, "canary_started", w.start);
        var started := RecordStep(c, s, request, proposal.digest, Canary, "canary_started", w.start).0;
        var (decision, code) := CanaryOutcome(proposal, w, c.thresholds, c.seal);
        RollbackKeepsDigests(c, started.(canaries := s.canaries + [CanaryRun(request.key, proposal, w.evidence, decision)]),
                             request, candidate, code, w.rollback);
      case PromoteOp(request, candidate, _, decision, w) =>
        var called := s.(promotions := s.promotions + [request.key],
                         touched := Some(Touch(request.key, candidate.base, candidate.package)));
        RecordKeepsDigests(c, called.(slot := candidate.package), request, decision.digest, Promoted, "promoted", w.write);
        RollbackKeepsDigests(c, s, request, candidate, "canary_failed", w.rollback);
        RollbackKeepsDigests(c, called.(slot := w.slotIfNot), request, candidate, "promotion_failed", w.rollback);
    }
  }

  lemma RollbackKeepsDigests(c: Config, s: State, request: Request, candidate: Candidate, code: string, world: RollbackWorld)
    requires OwnDigests(c.hash, s.rows)
    ensures OwnDigests(c.hash, RollbackReleaseStep(c, s, request, candidate, code, world).0.rows)
  {
    hide RecordStep, OwnDigests;
    var turned := s.(slot := if world.completes then candidate.base else world.slotIfNot,
                     touched := Some(Touch(request.key, candidate.base, candidate.package)));
    var (to, event) := if world.completes then (RolledBack, code) else (Failed, "rollback_failed");
    RecordKeepsDigests(c, turned, request, candidate.base, to, event, world.write);
  }

  /** Whatever the digests are, no two stored transitions of a run share one. */
  lemma {:induction false} DigestsAreTheirOwn(c: Config, run: Run)
    ensures OwnDigests(c.hash, After(c, run).rows)
  {
    hide Step;
    if run.Do? {
      DigestsAreTheirOwn(c, run.prev);
      StepKeepsDigests(c, After(c, run.prev), run.op);
    }
  }

  /** The decision a canary issues names the evidence it rests on, or none, and is sealed over all it says. */
  lemma DecisionNames(proposal: Proposal, world: CanaryWorld, thresholds: Thresholds, seal: Decision -> string)
    ensures var d := CanaryOutcome(proposal, world, thresholds, seal).0;
            && d.proposalDigest == proposal.digest && d.thresholdsDigest == thresholds.digest
            && d.evidenceDigest == (if Unjudged(proposal, world) then EMPTY_DIGEST else world.evidence.value.digest)
            && d.digest == seal(d.(digest := ""))
  {}

  // ---------------------------------------------------------------- answers

  /** The release an operation answers with is told by the transition it recorded. */
  predicate Tells(t: Transition, candidate: Candidate, release: Release) {
    release == Release(candidate.base, candidate.package, t.to.Promoted?, t.event)
  }

  lemma RecordAnswers(c: Config, s: State, request: Request, subject: string, to: Phase, event: string, write: Write)
    ensures var (next, r) := RecordStep(c, s, request, subject, to, event, write);
            if r.Success? then next == s.(rows := s.rows + [r.value]) && r.value.to == to && r.value.event == event else next == s
  {
    hide Linked, Chain, DigestTaken, PhaseOf;
  }

  lemma RollbackAnswers(c: Config, s: State, request: Request, candidate: Candidate, code: string, world: RollbackWorld)
    ensures var (next, r) := RollbackReleaseStep(c, s, request, candidate, code, world);
            if r.Failure? then next.rows == s.rows
            else
              && |next.rows| == |s.rows| + 1 && next.rows[..|s.rows|] == s.rows
              && Tells(next.rows[|s.rows|], candidate, r.value) && !next.rows[|s.rows|].to.Promoted?
  {
    hide RecordStep;
    var turned := s.(slot := if world.completes then candidate.base else world.slotIfNot,
                     touched := Some(Touch(request.key, candidate.base, candidate.package)));
    var (to, event) := if world.completes then (RolledBack, code) else (Failed, "rollback_failed");
    RecordAnswers(c, turned, request, candidate.base, to, event, world.write);
    var (recorded, appended) := RecordStep(c, turned, request, candidate.base, to, event, world.write);
    var (next, r) := RollbackReleaseStep(c, s, request, candidate, code, world);
    assert next == recorded && r.Success? == appended.Success?;
    assert r.Success? ==> recorded.rows == s.rows + [appended.value];
  }

  /** A promotion answers exactly with the transition it recorded, and fails exactly if it recorded none. */
  lemma PromotionAnswers(c: Config, s: State, request: Request, candidate: Candidate, proposal: Proposal,
                         decision: Decision, world: PromoteWorld)
    ensures var (next, r) := PromoteStep(c, s, request, candidate, proposal, decision, world);
            if r.Failure? then next.rows == s.rows
            else
              && |next.rows| == |s.rows| + 1 && next.rows[..|s.rows|] == s.rows
              && Tells(next.rows[|s.rows|], candidate, r.value)
  {
    hide RecordStep, RollbackReleaseStep, Linked, Chain;
    var called := s.(promotions := s.promotions + [request.key],
                     touched := Some(Touch(request.key, candidate.base, candidate.package)));
    RollbackAnswers(c, s, request, candidate, "canary_failed", world.rollback);
    RollbackAnswers(c, called.(slot := world.slotIfNot), request, candidate, "promotion_failed", world.rollback);
    RecordAnswers(c, called.(slot := candidate.package), request, decision.digest, Promoted, "promoted", world.write);
    var (recorded, appended) :=
      RecordStep(c, called.(slot := candidate.package), request, decision.digest, Promoted, "promoted", world.write);
    assert appended.Success? ==> recorded.rows == s.rows + [appended.value];
  }

  /** A canary answers with the decision of its run, and with the rollback's release exactly if that did not pass. */
  lemma CanaryAnswers(c: Config, s: State, request: Request, candidate: Candidate, proposal: Proposal, now: int, world: CanaryWorld)
    ensures var (next, r) := CanaryStep(c, s, request, candidate, proposal, now, world);
            r.Success? ==>
              && |next.canaries| == |s.canaries| + 1 && next.canaries[|s.canaries|].decision == r.value.0
              && next.canaries[|s.canaries|] == CanaryRun(request.key, proposal, world.evidence, r.value.0)
              && (r.value.1.None? <==> r.value.0.passed)
              && |next.rows| == |s.rows| + (if r.value.0.passed then 1 else 2) && next.rows[|s.rows|].to.Canary?
              && (r.value.1.Some? ==> Tells(next.rows[|s.rows| + 1], candidate, r.value.1.value) && !r.value.1.value.released)
  {
    hide RecordStep, RollbackReleaseStep, CanaryOutcome;
    RecordAnswers(c, s, request, proposal.digest, Canary, "canary_started", world.start);
    var (started, r) := RecordStep(c, s, request, proposal.digest, Canary, "canary_started", world.start);
    var (decision, code) := CanaryOutcome(proposal, world, c.thresholds, c.seal);
    var ran := started.(canaries := s.canaries + [CanaryRun(request.key, proposal, world.evidence, decision)]);
    RollbackAnswers(c, ran, request, candidate, code, world.rollback);
    RollbackKeepsRuns(c, ran, request, candidate, code, world.rollback);
  }

  lemma RollbackKeepsRuns(c: Config, s: State, request: Request, candidate: Candidate, code: string, world: RollbackWorld)
    ensures var next := RollbackReleaseStep(c, s, request, candidate, code, world).0;
            next.canaries == s.canaries && next.promotions == s.promotions
  {
    hide AppendStep;
  }

  // ---------------------------------------------------------------- the same for interleaved operations

  ghost predicate Entered(run: O.Interleaving, key: Key, stage: Phase) {
    && run.Then?
    && (Entered(run.prev, key, stage) || (run.move.Enter? && Earns(run.move.op, key, stage)))
  }

  /** However operations interleave, the stages a request has behind it were each earned by one that entered. */
  lemma {:induction false} EveryStageWasEntered(c: Config, run: O.Interleaving, key: Key, stage: Phase)
    requires ValidConfig(c) && Behind(PhaseIn(O.Reached(c, run).state.rows, key), stage)
    ensures Entered(run, key, stage)
  {
    hide O.Next, O.Sound, Earns, PhaseIn;
    match run
    case Start(slot) => NothingAtStart(c, slot, key);
    case Then(prev, m) =>
      var s := O.Reached(c, prev);
      O.EveryInterleavingIsSound(c, prev);
      if Behind(PhaseIn(s.state.rows, key), stage) {
        EveryStageWasEntered(c, prev, key, stage);
      } else {
        MoveEarns(c, s, m, key, stage, O.InitialSlot(prev));
      }
  }

  lemma NothingAtStart(c: Config, slot: string, key: Key)
    ensures PhaseIn(O.Reached(c, O.Start(slot)).state.rows, key).Nothing?
  {}

  lemma MoveEarns(c: Config, s: O.System, m: O.Move, key: Key, stage: Phase, initial: string)
    requires ValidConfig(c) && O.Sound(c, s, initial)
    requires !Behind(PhaseIn(s.state.rows, key), stage) && Behind(PhaseIn(O.Next(c, s, m).state.rows, key), stage)
    ensures m.Enter? && Earns(m.op, key, stage)
  {
    hide Step, PhaseIn, Earns, O.EnterMove, AllPaths;
    O.NextIsSound(c, s, m, initial);
    assert PhaseIn(O.Next(c, s, m).state.rows, key) == PhaseIn(s.state.rows, key)
        || Allowed(PhaseIn(s.state.rows, key), PhaseIn(O.Next(c, s, m).state.rows, key));
    if m.Enter? {
      EntryEarns(c, s, m.op, key, stage);
    } else {
      AdvanceOnlyEnds(c, s, m, key, initial);
    }
  }

  lemma EntryEarns(c: Config, s: O.System, op: Op, key: Key, stage: Phase)
    requires ValidConfig(c) && AllPaths(c.hash, s.state.rows)
    requires !Behind(PhaseIn(s.state.rows, key), stage) && Behind(PhaseIn(O.EnterMove(c, s, op).state.rows, key), stage)
    requires PhaseIn(O.EnterMove(c, s, op).state.rows, key) == PhaseIn(s.state.rows, key)
             || Allowed(PhaseIn(s.state.rows, key), PhaseIn(O.EnterMove(c, s, op).state.rows, key))
    ensures Earns(op, key, stage)
  {
    hide PhaseIn, AllPaths, RecordStep, Step;
    if IsStage(op) {
      O.StageRecords(c, s.state, op);
      if Recorded(stage) {
        StageRecorded(c, s.state, op, key, stage);
      }
    } else if op.CanaryOp? {
      RecordEffect(c, s.state, op.request, op.proposal.digest, Canary, "canary_started", op.canary.start);
    }
  }

  lemma AdvanceOnlyEnds(c: Config, s: O.System, m: O.Move, key: Key, initial: string)
    requires ValidConfig(c) && O.Sound(c, s, initial) && m.Advance?
    ensures var next := O.Next(c, s, m).state.rows;
            PhaseIn(next, key) == PhaseIn(s.state.rows, key)
            || (PhaseIn(s.state.rows, key).Canary? && Rank(PhaseIn(next, key)) == 6)
  {
    hide PhaseIn, AllPaths, RecordStep, CanaryOutcome;
    if m.i < |s.threads| && O.Ready(s.threads[m.i]) {
      var t := s.threads[m.i];
      assert O.ThreadFits(s.state.rows, t);
      if t.stage.Recording? {
        RecordEffect(c, s.state, t.op.request, t.stage.subject, t.stage.to, t.stage.event, t.stage.write);
      }
    }
  }
}

/**
 Canaries and promotions that overlap. Each is several transactions: an entry, which for a canary records
 its start and for a promotion only looks at the chain; then the executor's run or the deployment's call, a
 rollback if it comes to that, and the record of how it ended. Those of different operations interleave.
 */
module RepairLifecycleOverlap {
  import opened Wrappers
  import opened RepairLifecycle
  import opened S = RepairLifecycleSafety

  datatype Stage =
    | Looked
    | Running
    | Undoing(code: string)
    | Recording(subject: string, to: Phase, event: string, write: Write)
    | Ended(recorded: bool, to: Phase)

  /** `left` is what the operation's last call on the deployment left in the slot. */
  datatype Thread = Thread(op: Op, stage: Stage, called: bool, left: Option<string>)

  /** `driver` is the operation whose call on the deployment was the last. */
  datatype System = System(state: State, threads: seq<Thread>, driver: Option<nat>)

  datatype Move = Enter(op: Op) | Advance(i: nat)

  function TouchOf(op: Op): Option<Touch>
    requires op.CanaryOp? || op.PromoteOp?
  {
    Some(Touch(op.request.key, op.candidate.base, op.candidate.package))
  }

  function RollbackOf(op: Op): RollbackWorld
    requires op.CanaryOp? || op.PromoteOp?
  {
    if op.CanaryOp? then op.canary.rollback else op.promote.rollback
  }

  /** The guards a promotion passes before it does anything. */
  ghost predicate LetThrough(c: Config, s: State, op: Op) {
    && op.PromoteOp? && op.promote.readable && ArtifactScope(op.request, op.candidate, op.proposal)
    && op.decision.proposalDigest == op.proposal.digest && op.decision.thresholdsDigest == c.thresholds.digest
    && Linked(c.hash, Chain(s.rows, op.request.key)) && PhaseIn(s.rows, op.request.key).Canary?
  }

  ghost function EnterMove(c: Config, s: System, op: Op): System {
    if op.CanaryOp? then
      if !ArtifactScope(op.request, op.candidate, op.proposal) || op.proposal.expiresAt <= op.now then s
      else
        var (started, r) := RecordStep(c, s.state, op.request, op.proposal.digest, Canary, "canary_started", op.canary.start);
        if r.Failure? then s.(state := started)
        else s.(state := started, threads := s.threads + [Thread(op, Running, false, None)])
    else if op.PromoteOp? then
      if LetThrough(c, s.state, op) then s.(threads := s.threads + [Thread(op, Looked, false, None)])
      else s
    else s.(state := S.Step(c, s.state, op))
  }

  predicate Ready(t: Thread) {
    match t.stage
    case Looked => t.op.PromoteOp?
    case Running => t.op.CanaryOp?
    case Ended(_, _) => false
    case _ => t.op.CanaryOp? || t.op.PromoteOp?
  }

  ghost function AdvanceMove(c: Config, s: System, i: nat): System
    requires i < |s.threads| && Ready(s.threads[i])
  {
    var t := s.threads[i];
    match t.stage
    case Looked =>
      if !t.op.decision.passed then s.(threads := s.threads[i := t.(stage := Undoing("canary_failed"))])
      else
        var w := t.op.promote;
        var done := w.promoted == Some(true);
        var slot := if done then t.op.candidate.package else w.slotIfNot;
        var stage := if done then Recording(t.op.decision.digest, Promoted, "promoted", w.write) else Undoing("promotion_failed");
        System(
          s.state.(promotions := s.state.promotions + [t.op.request.key], slot := slot, touched := TouchOf(t.op)),
          s.threads[i := t.(stage := stage, called := true, left := Some(slot))], Some(i))
    case Running =>
      var (decision, code) := CanaryOutcome(t.op.proposal, t.op.canary, c.thresholds, c.seal);
      s.(state := s.state.(canaries := s.state.canaries + [CanaryRun(t.op.request.key, t.op.proposal, t.op.canary.evidence, decision)]),
         threads := s.threads[i := t.(stage := if decision.passed then Ended(true, Canary) else Undoing(code))])
    case Undoing(code) =>
      var w := RollbackOf(t.op);
      var slot := if w.completes then t.op.candidate.base else w.slotIfNot;
      var (to, event) := if w.completes then (RolledBack, code) else (Failed, "rollback_failed");
      System(
        s.state.(slot := slot, touched := TouchOf(t.op)),
        s.threads[i := t.(stage := Recording(t.op.candidate.base, to, event, w.write), left := Some(slot))], Some(i))
    case Recording(subject, to, event, write) =>
      var (next, r) := RecordStep(c, s.state, t.op.request, subject, to, event, write);
      s.(state := next, threads := s.threads[i := t.(stage := Ended(r.Success?, to))])
    case Ended(_, _) => s
  }

  /** A move out of turn is none. */
  ghost function Next(c: Config, s: System, m: Move): System {
    match m
    case Enter(op) => EnterMove(c, s, op)
    case Advance(i) => if i < |s.threads| && Ready(s.threads[i]) then AdvanceMove(c, s, i) else s
  }

  datatype Interleaving = Start(slot: string) | Then(prev: Interleaving, move: Move)

  ghost function Reached(c: Config, run: Interleaving): System {
    match run
    case Start(slot) => System(State([], [], [], slot, None), [], None)
    case Then(prev, m) => Next(c, Reached(c, prev), m)
  }

  // ---------------------------------------------------------------- moves in a row are the operation

  /** One operation from its entry to its end, with nothing in between. */
  ghost function Whole(c: Config, s: System, op: Op): System {
    var n := |s.threads|;
    Next(c, Next(c, Next(c, Next(c, s, Enter(op)), Advance(n)), Advance(n)), Advance(n))
  }

  /** From the decision to roll back: the deployment's answer, then its record. */
  lemma RollbackInARow(c: Config, s: System, i: nat)
    requires i < |s.threads| && s.threads[i].stage.Undoing?
    requires s.threads[i].op.CanaryOp? || s.threads[i].op.PromoteOp?
    ensures var t := s.threads[i]; var next := Next(c, Next(c, s, Advance(i)), Advance(i));
            && next.state == RollbackReleaseStep(c, s.state, t.op.request, t.op.candidate, t.stage.code, RollbackOf(t.op)).0
            && |next.threads| == |s.threads| && next.threads[i].stage.Ended?
            && forall j | 0 <= j < |s.threads| && j != i :: next.threads[j] == s.threads[j]
  {
    hide RecordStep;
  }

  lemma CanaryInARow(c: Config, s: System, op: Op)
    requires op.CanaryOp?
    ensures Whole(c, s, op).state == S.Step(c, s.state, op)
    ensures s.threads <= Whole(c, s, op).threads
    ensures forall i | |s.threads| <= i < |Whole(c, s, op).threads| :: Whole(c, s, op).threads[i].stage.Ended?
  {
    hide AppendStep, CanaryOutcome, RollbackReleaseStep;
    var n := |s.threads|;
    var entered := Next(c, s, Enter(op));
    if n < |entered.threads| {
      var ran := Next(c, entered, Advance(n));
      if ran.threads[n].stage.Undoing? {
        RollbackInARow(c, ran, n);
      }
    }
  }

  lemma PromotionInARow(c: Config, s: System, op: Op)
    requires op.PromoteOp?
    ensures Whole(c, s, op).state == S.Step(c, s.state, op)
    ensures s.threads <= Whole(c, s, op).threads
    ensures forall i | |s.threads| <= i < |Whole(c, s, op).threads| :: Whole(c, s, op).threads[i].stage.Ended?
  {
    hide RecordStep, RollbackReleaseStep;
    var n := |s.threads|;
    var entered := Next(c, s, Enter(op));
    if n < |entered.threads| {
      var asked := Next(c, entered, Advance(n));
      if asked.threads[n].stage.Undoing? {
        RollbackInARow(c, asked, n);
      } else {
        assert asked.threads[n].stage.Recording?;
      }
    }
  }

  /** The moves of one operation in a row do what the whole operation does, and leave it ended. */
  lemma MovesInARowAreOneOperation(c: Config, s: System, op: Op)
    ensures Whole(c, s, op).state == S.Step(c, s.state, op)
    ensures s.threads <= Whole(c, s, op).threads
    ensures forall i | |s.threads| <= i < |Whole(c, s, op).threads| :: Whole(c, s, op).threads[i].stage.Ended?
  {
    hide RecordStep, CanaryOutcome;
    if op.CanaryOp? {
      CanaryInARow(c, s, op);
    } else if op.PromoteOp? {
      PromotionInARow(c, s, op);
    }
  }

  // ---------------------------------------------------------------- what every move keeps

  /** Each request's phase stays or goes along one permitted transition. */
  ghost predicate Onward(rows: seq<Transition>, next: seq<Transition>) {
    forall key {:trigger PhaseIn(next, key)} ::
      PhaseIn(next, key) == PhaseIn(rows, key) || Allowed(PhaseIn(rows, key), PhaseIn(next, key))
  }

  /** The package the slot was left with is the one the record will name. */
  predicate LeftFits(t: Thread, to: Phase) {
    && t.left.Some? && (t.op.CanaryOp? || t.op.PromoteOp?)
    && (to.Promoted? ==> t.left == Some(t.op.candidate.package))
    && (to.RolledBack? ==> t.left == Some(t.op.candidate.base))
  }

  predicate StageFits(rows: seq<Transition>, t: Thread) {
    match t.stage
    case Looked => t.op.PromoteOp? && t.left.None?
    case Running => t.op.CanaryOp? && t.left.None?
    case Undoing(_) => true
    case Recording(_, to, _, _) => Rank(to) == 6 && LeftFits(t, to)
    case Ended(recorded, to) =>
      if to.Canary? then t.op.CanaryOp? && recorded && t.left.None?
      else Rank(to) == 6 && LeftFits(t, to) && (recorded ==> PhaseIn(rows, t.op.request.key) == to)
  }

  predicate ThreadFits(rows: seq<Transition>, t: Thread) {
    && (t.op.CanaryOp? || t.op.PromoteOp?)
    && 5 <= Rank(PhaseIn(rows, t.op.request.key))
    && (t.called <==> t.op.PromoteOp? && t.op.decision.passed && !t.stage.Looked?)
    && StageFits(rows, t)
  }

  datatype Mark = Waiting | Bound | Called | Closed

  /** A canary yet to run, a promotion bound to call the deployment or having called it, and who closed the chain. */
  predicate Marked(t: Thread, key: Key, mark: Mark) {
    && t.op.request.key == key
    && match mark
       case Waiting => t.stage.Running?
       case Bound => t.op.PromoteOp? && t.op.decision.passed
       case Called => t.called
       case Closed => t.stage.Ended? && t.stage.recorded && !t.stage.to.Canary?
  }

  function Count(threads: seq<Thread>, key: Key, mark: Mark): nat {
    if threads == [] then 0
    else
      var n := |threads| - 1;
      Count(threads[..n], key, mark) + if Marked(threads[n], key, mark) then 1 else 0
  }

  lemma CountAppend(threads: seq<Thread>, t: Thread, key: Key, mark: Mark)
    ensures Count(threads + [t], key, mark) == Count(threads, key, mark) + if Marked(t, key, mark) then 1 else 0
  {
    assert (threads + [t])[..|threads|] == threads;
  }

  lemma {:induction false} CountUpdate(threads: seq<Thread>, i: nat, t: Thread, key: Key, mark: Mark)
    requires i < |threads|
    ensures Count(threads[i := t], key, mark) + (if Marked(threads[i], key, mark) then 1 else 0)
         == Count(threads, key, mark) + if Marked(t, key, mark) then 1 else 0
  {
    var n := |threads| - 1;
    if i < n {
      CountUpdate(threads[..n], i, t, key, mark);
      assert threads[i := t][..n] == threads[..n][i := t];
    } else {
      assert threads[i := t][..n] == threads[..n];
    }
  }

  ghost predicate DriverFits(s: System, initial: string) {
    match s.driver
    case None => s.state.slot == initial && forall i | 0 <= i < |s.threads| :: s.threads[i].left.None?
    case Some(d) => d < |s.threads| && s.threads[d].left == Some(s.state.slot)
  }

  /**
   Executor runs made and still to be made match the chains, and so do the operations that closed them;
   deployment calls match the promotions that made them.
   */
  ghost predicate CountedAt(s: System, key: Key) {
    && RunsOf(s.state.canaries, key) + Count(s.threads, key, Waiting) == (if 5 <= Rank(PhaseIn(s.state.rows, key)) then 1 else 0)
    && Calls(s.state.promotions, key) == Count(s.threads, key, Called)
    && Count(s.threads, key, Closed) == if Rank(PhaseIn(s.state.rows, key)) == 6 then 1 else 0
  }

  ghost predicate Sound(c: Config, s: System, initial: string) {
    && AllPaths(c.hash, s.state.rows)
    && (forall i | 0 <= i < |s.threads| :: ThreadFits(s.state.rows, s.threads[i]))
    && (forall key :: CountedAt(s, key)) && DriverFits(s, initial)
  }

  function InitialSlot(run: Interleaving): string {
    match run
    case Start(slot) => slot
    case Then(prev, _) => InitialSlot(prev)
  }

  lemma FitsOnward(rows: seq<Transition>, next: seq<Transition>, t: Thread)
    requires ThreadFits(rows, t) && Onward(rows, next)
    ensures ThreadFits(next, t)
  {
    hide PhaseIn;
    var key := t.op.request.key;
    assert PhaseIn(next, key) == PhaseIn(rows, key) || Allowed(PhaseIn(rows, key), PhaseIn(next, key));
  }

  /** One record, seen from every chain. */
  lemma RecordOnward(c: Config, s: State, request: Request, subject: string, to: Phase, event: string, write: Write)
    requires CollisionFree(c.hash) && AllPaths(c.hash, s.rows)
    ensures var (next, r) := RecordStep(c, s, request, subject, to, event, write);
            && next == s.(rows := next.rows) && AllPaths(c.hash, next.rows) && Onward(s.rows, next.rows)
            && (r.Failure? ==> next == s)
            && (r.Success? ==> Allowed(PhaseIn(s.rows, request.key), to) && Moved(s.rows, next.rows, request.key, to))
            && (r.Success? <==> write.storage.Healthy? && Allowed(PhaseIn(s.rows, request.key), to))
  {
    hide RecordStep, PhaseIn, AllPaths;
    RecordEffect(c, s, request, subject, to, event, write);
  }

  lemma ThreadsOnward(rows: seq<Transition>, next: seq<Transition>, threads: seq<Thread>)
    requires Onward(rows, next) && forall i | 0 <= i < |threads| :: ThreadFits(rows, threads[i])
    ensures forall i | 0 <= i < |threads| :: ThreadFits(next, threads[i])
  {
    hide ThreadFits;
    forall i | 0 <= i < |threads| ensures ThreadFits(next, threads[i]) {
      FitsOnward(rows, next, threads[i]);
    }
  }

  /** A stage before the canary is one record of a rank below it, or nothing. */
  lemma StageRecords(c: Config, s: State, op: Op)
    requires CollisionFree(c.hash) && AllPaths(c.hash, s.rows) && IsStage(op)
    ensures var next := S.Step(c, s, op);
            && next == s.(rows := next.rows) && AllPaths(c.hash, next.rows) && Onward(s.rows, next.rows)
            && forall key {:trigger PhaseIn(next.rows, key)} :: 
                 PhaseIn(next.rows, key) == PhaseIn(s.rows, key) || (Rank(PhaseIn(s.rows, key)) <= 4 && Rank(PhaseIn(next.rows, key)) <= 4)
  {
    hide RecordStep, PhaseIn, AllPaths;
    match op {
      case CandidateOp(request, candidate, write) =>
        RecordOnward(c, s, request, candidate.digest, Generated, "candidate_generated", write);
      case ValidationOp(request, _, report, write) =>
        RecordOnward(c, s, request, report.digest, Validated, "validation_passed", write);
        RecordOnward(c, s, request, report.digest, Rejected, "validation_failed", write);
      case ProposalOp(request, _, _, proposal, write) =>
        RecordOnward(c, s, request, proposal.digest, Proposed, "proposal_created", write);
      case ApproveOp(request, _, approval, _, _, write) =>
        RecordOnward(c, s, request, approval.digest, Approved, "proposal_approved", write);
      case _ =>
    }
  }

  lemma KeptCounts(s: System, next: System, key: Key)
    requires CountedAt(s, key) && next == s.(state := s.state.(rows := next.state.rows))
    requires PhaseIn(next.state.rows, key) == PhaseIn(s.state.rows, key)
             || (Rank(PhaseIn(s.state.rows, key)) <= 4 && Rank(PhaseIn(next.state.rows, key)) <= 4)
    ensures CountedAt(next, key)
  {
  }

  lemma StageEnters(c: Config, s: System, op: Op, initial: string)
    requires CollisionFree(c.hash) && Sound(c, s, initial) && IsStage(op)
    ensures Sound(c, EnterMove(c, s, op), initial)
    ensures Onward(s.state.rows, EnterMove(c, s, op).state.rows)
  {
    hide PhaseIn, AllPaths, S.Step, CountedAt, ThreadFits;
    var next := EnterMove(c, s, op);
    StageRecords(c, s.state, op);
    ThreadsOnward(s.state.rows, next.state.rows, s.threads);
    forall key ensures CountedAt(next, key) {
      KeptCounts(s, next, key);
    }
  }

  /** A new thread counts for nothing, unless it is a canary that has moved its request on to that stage. */
  lemma AddedCounts(s: System, next: System, t: Thread, key: Key)
    requires CountedAt(s, key) && !t.called && !t.stage.Ended?
    requires next.threads == s.threads + [t] && next.state == s.state.(rows := next.state.rows)
    requires if Marked(t, key, Waiting) then PhaseIn(s.state.rows, key).Approved? && PhaseIn(next.state.rows, key).Canary?
             else PhaseIn(next.state.rows, key) == PhaseIn(s.state.rows, key)
    ensures CountedAt(next, key)
  {
    hide PhaseIn;
    CountAppend(s.threads, t, key, Waiting);
    CountAppend(s.threads, t, key, Called);
    CountAppend(s.threads, t, key, Closed);
  }

  lemma PromotionEnters(c: Config, s: System, op: Op, initial: string)
    requires Sound(c, s, initial) && LetThrough(c, s.state, op)
    ensures Sound(c, EnterMove(c, s, op), initial)
  {
    hide PhaseIn, AllPaths, CountedAt;
    var t := Thread(op, Looked, false, None);
    var next := EnterMove(c, s, op);
    assert ThreadFits(s.state.rows, t);
    forall key ensures CountedAt(next, key) {
      AddedCounts(s, next, t, key);
    }
  }

  lemma CanaryEnters(c: Config, s: System, op: Op, initial: string)
    requires CollisionFree(c.hash) && Sound(c, s, initial) && op.CanaryOp?
    ensures Sound(c, EnterMove(c, s, op), initial)
    ensures Onward(s.state.rows, EnterMove(c, s, op).state.rows)
  {
    hide RecordStep, PhaseIn, AllPaths, CountedAt, ArtifactScope;
    RecordOnward(c, s.state, op.request, op.proposal.digest, Canary, "canary_started", op.canary.start);
    var next := EnterMove(c, s, op);
    if |s.threads| < |next.threads| {
      var (started, r) := RecordStep(c, s.state, op.request, op.proposal.digest, Canary, "canary_started", op.canary.start);
      var t := Thread(op, Running, false, None);
      assert next.state == started && r.Success?;
      CanaryThreads(s, next, t);
      forall key ensures CountedAt(next, key) {
        AddedCounts(s, next, t, key);
      }
    }
  }

  lemma CanaryThreads(s: System, next: System, t: Thread)
    requires t.op.CanaryOp? && t == Thread(t.op, Running, false, None) && next.threads == s.threads + [t]
    requires forall i | 0 <= i < |s.threads| :: ThreadFits(s.state.rows, s.threads[i])
    requires Onward(s.state.rows, next.state.rows) && PhaseIn(next.state.rows, t.op.request.key).Canary?
    ensures forall i | 0 <= i < |next.threads| :: ThreadFits(next.state.rows, next.threads[i])
  {
    ThreadsOnward(s.state.rows, next.state.rows, s.threads);
    assert ThreadFits(next.state.rows, t);
  }

  /** What the counts become when a thread moves on. */
  lemma ChangedCounts(s: System, next: System, i: nat, key: Key)
    requires CountedAt(s, key) && i < |s.threads| == |next.threads|
    requires next.threads == s.threads[i := next.threads[i]] && next.threads[i].op == s.threads[i].op
    requires var t, u := s.threads[i], next.threads[i]; var own := t.op.request.key == key;
             && !u.stage.Running? && !t.stage.Ended? && (t.called ==> u.called)
             && RunsOf(next.state.canaries, key) == RunsOf(s.state.canaries, key) + (if own && t.stage.Running? then 1 else 0)
             && Calls(next.state.promotions, key) == Calls(s.state.promotions, key) + (if own && u.called && !t.called then 1 else 0)
             && if own && Marked(u, key, Closed)
                then Rank(PhaseIn(s.state.rows, key)) == 5 && Rank(PhaseIn(next.state.rows, key)) == 6
                else PhaseIn(next.state.rows, key) == PhaseIn(s.state.rows, key)
    ensures CountedAt(next, key)
  {
    hide PhaseIn;
    CountUpdate(s.threads, i, next.threads[i], key, Waiting);
    CountUpdate(s.threads, i, next.threads[i], key, Called);
    CountUpdate(s.threads, i, next.threads[i], key, Closed);
  }

  lemma CallsAppend(promotions: seq<Key>, called: Key, key: Key)
    ensures Calls(promotions + [called], key) == Calls(promotions, key) + if called == key then 1 else 0
  {
  }

  lemma LookedIsSound(c: Config, s: System, i: nat, initial: string)
    requires Sound(c, s, initial) && i < |s.threads| && s.threads[i].stage.Looked?
    ensures Sound(c, AdvanceMove(c, s, i), initial) && AdvanceMove(c, s, i).state.rows == s.state.rows
  {
    hide PhaseIn, AllPaths, CountedAt, Calls;
    var next := AdvanceMove(c, s, i);
    assert ThreadFits(s.state.rows, s.threads[i]);
    forall key ensures CountedAt(next, key) {
      CallsAppend(s.state.promotions, s.threads[i].op.request.key, key);
      ChangedCounts(s, next, i, key);
    }
  }

  lemma RunningIsSound(c: Config, s: System, i: nat, initial: string)
    requires Sound(c, s, initial) && i < |s.threads| && s.threads[i].stage.Running?
    ensures Sound(c, AdvanceMove(c, s, i), initial) && AdvanceMove(c, s, i).state.rows == s.state.rows
  {
    hide PhaseIn, AllPaths, CanaryOutcome, CountedAt;
    var next := AdvanceMove(c, s, i);
    assert ThreadFits(s.state.rows, s.threads[i]);
    forall key ensures CountedAt(next, key) {
      RunsAppend(s.state.canaries, next.state.canaries[|s.state.canaries|], key);
      ChangedCounts(s, next, i, key);
    }
  }

  lemma UndoingIsSound(c: Config, s: System, i: nat, initial: string)
    requires Sound(c, s, initial) && i < |s.threads| && s.threads[i].stage.Undoing?
    ensures Sound(c, AdvanceMove(c, s, i), initial) && AdvanceMove(c, s, i).state.rows == s.state.rows
  {
    hide PhaseIn, AllPaths, CountedAt;
    var next := AdvanceMove(c, s, i);
    assert ThreadFits(s.state.rows, s.threads[i]);
    forall key ensures CountedAt(next, key) {
      ChangedCounts(s, next, i, key);
    }
  }

  lemma RecordingIsSound(c: Config, s: System, i: nat, initial: string)
    requires CollisionFree(c.hash) && Sound(c, s, initial) && i < |s.threads| && s.threads[i].stage.Recording?
    ensures Sound(c, AdvanceMove(c, s, i), initial) && Onward(s.state.rows, AdvanceMove(c, s, i).state.rows)
  {
    hide PhaseIn, AllPaths, RecordStep, CountedAt;
    var t := s.threads[i];
    var next := AdvanceMove(c, s, i);
    assert ThreadFits(s.state.rows, t);
    RecordOnward(c, s.state, t.op.request, t.stage.subject, t.stage.to, t.stage.event, t.stage.write);
    var (recorded, r) := RecordStep(c, s.state, t.op.request, t.stage.subject, t.stage.to, t.stage.event, t.stage.write);
    assert next.state == recorded && next.threads[i] == t.(stage := Ended(r.Success?, t.stage.to));
    ThreadsOnward(s.state.rows, next.state.rows, s.threads);
    forall key ensures CountedAt(next, key) {
      ChangedCounts(s, next, i, key);
    }
  }

  lemma EnterIsSound(c: Config, s: System, op: Op, initial: string)
    requires CollisionFree(c.hash) && Sound(c, s, initial)
    ensures Sound(c, EnterMove(c, s, op), initial)
    ensures Onward(s.state.rows, EnterMove(c, s, op).state.rows)
  {
    hide RecordStep, PhaseIn, Sound, S.Step;
    if IsStage(op) {
      StageEnters(c, s, op, initial);
    } else if op.CanaryOp? {
      CanaryEnters(c, s, op, initial);
    } else if LetThrough(c, s.state, op) {
      PromotionEnters(c, s, op, initial);
    }
  }

  lemma NextIsSound(c: Config, s: System, m: Move, initial: string)
    requires CollisionFree(c.hash) && Sound(c, s, initial)
    ensures Sound(c, Next(c, s, m), initial) && Onward(s.state.rows, Next(c, s, m).state.rows)
  {
    hide Sound, EnterMove, AdvanceMove, PhaseIn;
    match m {
      case Enter(op) => EnterIsSound(c, s, op, initial);
      case Advance(i) =>
        if i < |s.threads| && Ready(s.threads[i]) {
          match s.threads[i].stage {
            case Looked => LookedIsSound(c, s, i, initial);
            case Running => RunningIsSound(c, s, i, initial);
            case Undoing(_) => UndoingIsSound(c, s, i, initial);
            case Recording(_, _, _, _) => RecordingIsSound(c, s, i, initial);
          }
        }
    }
  }

  lemma {:induction false} EveryInterleavingIsSound(c: Config, run: Interleaving)
    requires CollisionFree(c.hash)
    ensures Sound(c, Reached(c, run), InitialSlot(run))
  {
    hide Next, Sound;
    match run
    case Start(slot) => StartIsSound(c, slot);
    case Then(prev, m) =>
      EveryInterleavingIsSound(c, prev);
      NextIsSound(c, Reached(c, prev), m, InitialSlot(run));
  }

  lemma StartIsSound(c: Config, slot: string)
    ensures Sound(c, Reached(c, Start(slot)), slot)
  {
  }

  // ---------------------------------------------------------------- chains, executor runs and ends

  /**
   In every interleaving each stored chain is a digest-linked path, the executor has run at most once for a
   request, exactly once if it is past approval and no started canary is still to run, and a chain that has
   ended was ended by exactly one operation.
   */
  lemma ChainsStayPaths(c: Config, run: Interleaving, key: Key)
    requires CollisionFree(c.hash)
    ensures var s := Reached(c, run); var chain := Chain(s.state.rows, key);
            && Path(c.hash, chain)
            && RunsOf(s.state.canaries, key) + Count(s.threads, key, Waiting) == (if 5 <= Rank(PhaseOf(chain)) then 1 else 0)
            && Count(s.threads, key, Closed) == (if Rank(PhaseOf(chain)) == 6 then 1 else 0)
            && (PhaseOf(chain).Promoted? ==>
                |chain| == 6 && chain[0].to.Generated? && chain[1].to.Validated? && chain[2].to.Proposed?
                && chain[3].to.Approved? && chain[4].to.Canary?)
  {
    EveryInterleavingIsSound(c, run);
    var s := Reached(c, run);
    var chain := Chain(s.state.rows, key);
    assert CountedAt(s, key);
    assert Path(c.hash, chain) && PhaseIn(s.state.rows, key) == PhaseOf(chain) && RunsOf(s.state.canaries, key) <= 1;
    if PhaseOf(chain).Promoted? {
      PromotedPassedEveryStage(c.hash, chain);
    }
  }

  ghost predicate Follows(early: Interleaving, late: Interleaving) {
    early == late || (late.Then? && Follows(early, late.prev))
  }

  /** Whatever interleaves, an ended request stays as it ended. */
  lemma {:induction false} EndsPersist(c: Config, early: Interleaving, late: Interleaving, key: Key)
    requires CollisionFree(c.hash) && Follows(early, late) && Terminal(PhaseIn(Reached(c, early).state.rows, key))
    ensures PhaseIn(Reached(c, late).state.rows, key) == PhaseIn(Reached(c, early).state.rows, key)
  {
    hide Sound, Next, PhaseIn;
    if early != late {
      EndsPersist(c, early, late.prev, key);
      EveryInterleavingIsSound(c, late.prev);
      NextIsSound(c, Reached(c, late.prev), late.move, InitialSlot(late));
    }
  }

  // ---------------------------------------------------------------- how often the deployment is called

  /** A promotion of this request that will call the deployment once let through. */
  predicate Calling(op: Op, key: Key) {
    op.PromoteOp? && op.request.key == key && op.decision.passed
  }

  /** Every promotion let through has made its call. */
  ghost predicate AllCalled(s: System, key: Key) {
    forall i | 0 <= i < |s.threads| && Calling(s.threads[i].op, key) :: s.threads[i].called
  }

  ghost predicate Unrecorded(s: System, key: Key) {
    exists i | 0 <= i < |s.threads| :: Calling(s.threads[i].op, key) && !(s.threads[i].stage.Ended? && s.threads[i].stage.recorded)
  }

  /** Some promotion is let through while an earlier one of the request has not recorded how it ended. */
  ghost predicate Overlapped(c: Config, run: Interleaving, key: Key) {
    && run.Then?
    && (Overlapped(c, run.prev, key)
        || (&& run.move.Enter? && Calling(run.move.op, key)
            && LetThrough(c, Reached(c, run.prev).state, run.move.op)
            && Unrecorded(Reached(c, run.prev), key)))
  }

  lemma {:induction false} CalledAreCalling(rows: seq<Transition>, threads: seq<Thread>, key: Key)
    requires forall i | 0 <= i < |threads| :: ThreadFits(rows, threads[i])
    ensures Count(threads, key, Called) <= Count(threads, key, Bound)
    ensures (forall i | 0 <= i < |threads| && Calling(threads[i].op, key) :: threads[i].called) ==>
              Count(threads, key, Called) == Count(threads, key, Bound)
  {
    if threads != [] {
      var n := |threads| - 1;
      assert ThreadFits(rows, threads[n]);
      CalledAreCalling(rows, threads[..n], key);
    }
  }

  lemma {:induction false} CountedOneExists(threads: seq<Thread>, key: Key)
    ensures 0 < Count(threads, key, Bound) <==> exists i | 0 <= i < |threads| :: Calling(threads[i].op, key)
  {
    if threads != [] {
      var n := |threads| - 1;
      CountedOneExists(threads[..n], key);
      if Marked(threads[n], key, Bound) {
        assert Calling(threads[n].op, key);
      } else if i :| 0 <= i < |threads| && Calling(threads[i].op, key) {
        assert threads[..n][i] == threads[i];
      }
    }
  }

  /** A promotion is let through only while its request is at the canary, so an earlier one has not recorded an end. */
  lemma SecondOverlaps(c: Config, s: System, op: Op, initial: string)
    requires Sound(c, s, initial) && LetThrough(c, s.state, op) && Calling(op, op.request.key)
    ensures Unrecorded(s, op.request.key) <==> 0 < Count(s.threads, op.request.key, Bound)
  {
    hide PhaseIn;
    var key := op.request.key;
    CountedOneExists(s.threads, key);
    if i :| 0 <= i < |s.threads| && Calling(s.threads[i].op, key) {
      assert ThreadFits(s.state.rows, s.threads[i]);
      assert Unrecorded(s, key);
    }
  }

  lemma AdvanceKeepsOp(c: Config, s: System, i: nat)
    requires i < |s.threads| && Ready(s.threads[i])
    ensures var next := AdvanceMove(c, s, i).threads;
            |next| == |s.threads| && next == s.threads[i := next[i]] && next[i].op == s.threads[i].op
  {
    hide RecordStep, CanaryOutcome;
  }

  lemma BoundAfter(c: Config, s: System, m: Move, key: Key)
    ensures Count(Next(c, s, m).threads, key, Bound) == Count(s.threads, key, Bound)
            + if m.Enter? && Calling(m.op, key) && LetThrough(c, s.state, m.op) then 1 else 0
  {
    hide S.Step, RecordStep, LetThrough, AdvanceMove, ArtifactScope;
    match m {
      case Enter(op) =>
        CountAppend(s.threads, Thread(op, Looked, false, None), key, Bound);
        CountAppend(s.threads, Thread(op, Running, false, None), key, Bound);
      case Advance(i) =>
        if i < |s.threads| && Ready(s.threads[i]) {
          AdvanceKeepsOp(c, s, i);
          CountUpdate(s.threads, i, AdvanceMove(c, s, i).threads[i], key, Bound);
        }
    }
  }

  lemma {:induction false} BoundCounts(c: Config, run: Interleaving, key: Key)
    requires CollisionFree(c.hash)
    ensures Count(Reached(c, run).threads, key, Bound) <= 1 <==> !Overlapped(c, run, key)
  {
    hide Next, Sound, LetThrough, Unrecorded;
    match run
    case Start(_) =>
    case Then(prev, m) =>
      var s := Reached(c, prev);
      BoundCounts(c, prev, key);
      EveryInterleavingIsSound(c, prev);
      BoundAfter(c, s, m, key);
      if m.Enter? && Calling(m.op, key) && LetThrough(c, s.state, m.op) {
        SecondOverlaps(c, s, m.op, InitialSlot(prev));
      }
  }

  /**
   Over every interleaving: once each promotion of the request that was let through has made its call, the
   deployment has been called at most once for it if and only if none of them was let through while an
   earlier one had not recorded how it ended. Without an overlap it is at most once at any time.
   */
  lemma CalledAtMostOnceIff(c: Config, run: Interleaving, key: Key)
    requires CollisionFree(c.hash)
    ensures var s := Reached(c, run);
            && (!Overlapped(c, run, key) ==> Calls(s.state.promotions, key) <= 1)
            && (AllCalled(s, key) ==> (Calls(s.state.promotions, key) <= 1 <==> !Overlapped(c, run, key)))
  {
    hide PhaseIn;
    EveryInterleavingIsSound(c, run);
    BoundCounts(c, run, key);
    var s := Reached(c, run);
    CalledAreCalling(s.state.rows, s.threads, key);
    assert CountedAt(s, key);
  }

  // ---------------------------------------------------------------- whose package the slot holds

  /**
   The slot holds what the last call on the deployment left there: the package that call's record names, when
   it names one. It agrees with the chain of the request if that operation's own record went through.
   */
  lemma LastCallOwnsSlot(c: Config, run: Interleaving)
    requires CollisionFree(c.hash)
    ensures var s := Reached(c, run);
            match s.driver
            case None => s.state.slot == InitialSlot(run)
            case Some(d) =>
              && d < |s.threads|
              && var t := s.threads[d];
                 && (t.op.CanaryOp? || t.op.PromoteOp?)
                 && (t.stage.Recording? || t.stage.Ended? ==>
                       && (t.stage.to.Promoted? ==> s.state.slot == t.op.candidate.package)
                       && (t.stage.to.RolledBack? ==> s.state.slot == t.op.candidate.base))
                 && (t.stage.Ended? && t.stage.recorded ==>
                       SlotMatches(PhaseIn(s.state.rows, t.op.request.key), s.state.slot, TouchOf(t.op).value))
  {
    hide PhaseIn, AllPaths;
    EveryInterleavingIsSound(c, run);
    var s := Reached(c, run);
    if s.driver.Some? {
      assert ThreadFits(s.state.rows, s.threads[s.driver.value]);
    }
  }

  // ---------------------------------------------------------------- two runs

  const KEY := Key("tenant", "environment", "job", "request")
  const REQUEST := Request(KEY, "base")
  const CANDIDATE := Candidate("job", "request", "base", "package", "candidate")
  const REPORT := Report("candidate", true, "report")
  const PROPOSAL := Proposal("request", "candidate", "report", 10, "proposal")
  const WRITE := Write(Healthy, 0)
  const ROLLBACK := RollbackWorld(true, "", WRITE)

  function CanaryWith(evidence: Option<Evidence>): Op {
    CanaryOp(REQUEST, CANDIDATE, PROPOSAL, 0, CanaryWorld(WRITE, Some("proposal"), evidence, ROLLBACK))
  }

  function PromotionWith(decision: Decision): Op {
    PromoteOp(REQUEST, CANDIDATE, PROPOSAL, decision, PromoteWorld(true, Some(true), "", WRITE, ROLLBACK))
  }

  function ToApproved(): Interleaving {
    Then(Then(Then(Then(Start("old"),
      Enter(CandidateOp(REQUEST, CANDIDATE, WRITE))),
      Enter(ValidationOp(REQUEST, CANDIDATE, REPORT, WRITE))),
      Enter(ProposalOp(REQUEST, CANDIDATE, REPORT, PROPOSAL, WRITE))),
      Enter(ApproveOp(REQUEST, PROPOSAL, Approval("proposal", true, "approval"), 0, Some(true), WRITE)))
  }

  /** A request taken to its canary, which is about to run. */
  function ToCanary(evidence: Option<Evidence>): Interleaving {
    Then(ToApproved(), Enter(CanaryWith(evidence)))
  }

  ghost predicate At(c: Config, run: Interleaving, phase: Phase) {
    var s := Reached(c, run);
    && AllPaths(c.hash, s.state.rows) && PhaseIn(s.state.rows, KEY) == phase
    && s.threads == [] && s.state.promotions == [] && s.state.canaries == []
  }

  lemma StageReached(c: Config, run: Interleaving, op: Op, subject: string, from: Phase, to: Phase, event: string)
    requires CollisionFree(c.hash) && At(c, run, from) && Allowed(from, to) && IsStage(op)
    requires var s := Reached(c, run).state; S.Step(c, s, op) == RecordStep(c, s, REQUEST, subject, to, event, WRITE).0
    ensures At(c, Then(run, Enter(op)), to)
  {
    hide RecordStep, AllPaths, PhaseIn, S.Step;
    RecordEffect(c, Reached(c, run).state, REQUEST, subject, to, event, WRITE);
  }

  lemma ApprovedIsReached(c: Config)
    requires CollisionFree(c.hash)
    ensures At(c, ToApproved(), Approved)
  {
    hide RecordStep, At, Reached;
    StartIsAt(c);
    var approved := ToApproved();
    var proposed := approved.prev;
    var validated := proposed.prev;
    var generated := validated.prev;
    StageReached(c, generated.prev, generated.move.op, "candidate", Nothing, Generated, "candidate_generated");
    StageReached(c, generated, validated.move.op, "report", Generated, Validated, "validation_passed");
    StageReached(c, validated, proposed.move.op, "proposal", Validated, Proposed, "proposal_created");
    StageReached(c, proposed, approved.move.op, "approval", Proposed, Approved, "proposal_approved");
  }

  lemma StartIsAt(c: Config)
    ensures At(c, Start("old"), Nothing)
  {
  }

  lemma CanaryIsReached(c: Config, evidence: Option<Evidence>)
    requires CollisionFree(c.hash)
    ensures var s := Reached(c, ToCanary(evidence));
            && PhaseIn(s.state.rows, KEY).Canary? && AllPaths(c.hash, s.state.rows)
            && s.threads == [Thread(CanaryWith(evidence), Running, false, None)]
            && s.state.promotions == [] && s.state.canaries == []
  {
    hide RecordStep, AllPaths, PhaseIn;
    ApprovedIsReached(c);
    var s := Reached(c, ToApproved());
    assert At(c, ToApproved(), Approved);
    RecordEffect(c, s.state, REQUEST, "proposal", Canary, "canary_started", WRITE);
  }

  /** Evidence on which any usable configuration passes the canary, and the decision the canary then issues. */
  function GoodEvidence(thresholds: Thresholds): Evidence
    requires 1 <= thresholds.minimumObservations
  {
    Evidence("proposal", thresholds.minimumObservations, thresholds.minimumObservations, 0, true, "evidence")
  }

  /** The canary has passed; two promotions are let through on its decision, and then both call. */
  function TwoPromotions(c: Config): Interleaving
    requires 1 <= c.thresholds.minimumObservations
  {
    var canary := CanaryWith(Some(GoodEvidence(c.thresholds)));
    var promotion := PromotionWith(CanaryOutcome(PROPOSAL, canary.canary, c.thresholds, c.seal).0);
    Then(Then(Then(Then(Then(ToCanary(canary.canary.evidence),
      Advance(0)), Enter(promotion)), Enter(promotion)), Advance(1)), Advance(2))
  }

  /**
   Under any usable configuration an honest run calls the deployment twice: both promotions carry the
   decision the canary issued, and each looked before the other recorded its end.
   */
  lemma TwoPromotionsCallTwice(c: Config)
    requires ValidConfig(c) && c.thresholds.minimumSuccessPpm <= 1_000_000
    ensures Reached(c, TwoPromotions(c)).state.promotions == [KEY, KEY] && Overlapped(c, TwoPromotions(c), KEY)
  {
    hide RecordStep, AllPaths, PhaseIn, CanaryOutcome;
    var evidence := GoodEvidence(c.thresholds);
    var canary := CanaryWith(Some(evidence));
    CanaryIsReached(c, Some(evidence));
    CanaryPassesIff(PROPOSAL, canary.canary, c.thresholds, c.seal);
    MulMono(c.thresholds.minimumSuccessPpm, 1_000_000, c.thresholds.minimumObservations);
    var decision := CanaryOutcome(PROPOSAL, canary.canary, c.thresholds, c.seal).0;
    assert decision.passed;
    var promotion := PromotionWith(decision);
    var atCanary := ToCanary(Some(evidence));
    PathsAreLinked(c.hash, Reached(c, atCanary).state.rows, KEY);
    var passed := Then(atCanary, Advance(0));
    var s := Reached(c, passed);
    assert s.threads == [Thread(canary, Ended(true, Canary), false, None)] && s.state.rows == Reached(c, atCanary).state.rows;
    assert LetThrough(c, s.state, promotion);
    var t := Thread(promotion, Looked, false, None);
    var one := Then(passed, Enter(promotion));
    assert Reached(c, one) == s.(threads := s.threads + [t]);
    var two := Then(one, Enter(promotion));
    assert Reached(c, two) == s.(threads := s.threads + [t] + [t]);
    assert Reached(c, one).threads[1] == t && Unrecorded(Reached(c, one), KEY);
    assert Overlapped(c, two, KEY);
    var called := Then(two, Advance(1));
    assert Reached(c, called).state.promotions == [KEY] && Reached(c, called).threads[2] == t;
    assert TwoPromotions(c) == Then(called, Advance(2));
    assert Overlapped(c, called, KEY);
  }

  /** A promotion on a made-up decision runs through while the canary is out, which then fails. */
  function PromotedUnderCanary(c: Config): Interleaving {
    Then(Then(Then(Then(Then(Then(ToCanary(None),
      Enter(MadeUp(c))), Advance(1)), Advance(1)), Advance(0)), Advance(0)), Advance(0))
  }

  function MadeUp(c: Config): Op {
    PromotionWith(Decision("proposal", "", c.thresholds.digest, true, ""))
  }

  lemma PromotedUnderWay(c: Config)
    requires CollisionFree(c.hash)
    ensures var s := Reached(c, Then(Then(Then(ToCanary(None), Enter(MadeUp(c))), Advance(1)), Advance(1)));
            && PhaseIn(s.state.rows, KEY).Promoted? && AllPaths(c.hash, s.state.rows)
            && |s.threads| == 2 && s.threads[0] == Thread(CanaryWith(None), Running, false, None)
            && s.threads[1].stage == Ended(true, Promoted)
  {
    hide RecordStep, AllPaths, PhaseIn;
    CanaryIsReached(c, None);
    var s := Reached(c, ToCanary(None));
    PathsAreLinked(c.hash, s.state.rows, KEY);
    assert LetThrough(c, s.state, MadeUp(c));
    var looked := Then(ToCanary(None), Enter(MadeUp(c)));
    assert Reached(c, looked) == s.(threads := [s.threads[0], Thread(MadeUp(c), Looked, false, None)]);
    var called := Then(looked, Advance(1));
    assert Reached(c, called).threads[1].stage == Recording("", Promoted, "promoted", WRITE);
    RecordEffect(c, Reached(c, called).state, REQUEST, "", Promoted, "promoted", WRITE);
  }

  /** The request ends PROMOTED with its base package in the slot: the canary's rollback came last and could not be recorded. */
  lemma PromotedWithBaseInSlot(c: Config)
    requires CollisionFree(c.hash)
    ensures var s := Reached(c, PromotedUnderCanary(c));
            && PhaseIn(s.state.rows, KEY).Promoted? && s.state.slot == REQUEST.base
            && |s.threads| == 2 && s.threads[0].stage == Ended(false, RolledBack) && s.threads[1].stage == Ended(true, Promoted)
  {
    hide RecordStep, AllPaths, PhaseIn, LetThrough, ToCanary;
    PromotedUnderWay(c);
    var promoted := Then(Then(Then(ToCanary(None), Enter(MadeUp(c))), Advance(1)), Advance(1));
    var s := Reached(c, promoted);
    var failed := Then(promoted, Advance(0));
    assert Reached(c, failed).state.rows == s.state.rows
        && Reached(c, failed).threads == [s.threads[0].(stage := Undoing("canary_unavailable")), s.threads[1]];
    var undone := Then(failed, Advance(0));
    assert Reached(c, undone).threads[0].stage == Recording("base", RolledBack, "canary_unavailable", WRITE);
    RecordEffect(c, Reached(c, undone).state, REQUEST, "base", RolledBack, "canary_unavailable", WRITE);
    assert PromotedUnderCanary(c) == Then(undone, Advance(0));
  }
}

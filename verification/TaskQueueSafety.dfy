/**
 What the runner task queue guarantees over whole runs: it refines the abstract fenced register, it
 leases a task again only after a safe recovery, and it never leaves a terminal state.
 */
module TaskQueueSafety {
  import opened Wrappers
  import opened TaskQueue
  import FencedRegister
  import RunnerRegistry
  import Text

  // ---------------------------------------------------------------- runs and their history

  /** `now` is the wall clock. A completion that is not given it is judged by the receipt's own date. */
  datatype Op =
    | EnqueueOp(task: Task)
    | AcquireOp(runnerId: string, answer: Answer, now: int)
    | RenewOp(lease: TaskLease, now: int)
    | HeartbeatOp(beat: Heartbeat, now: int)
    | CompleteOp(receipt: Receipt, clocked: bool, now: int)
    | RecoverOp(target: Target, now: int)

  /** What happened, oldest event innermost. Failed and replayed calls leave no event. */
  datatype Log = Start | Then(past: Log, event: Event)

  datatype Event =
    | LeaseGranted(lease: TaskLease)
    | LeaseRenewed(lease: TaskLease)
    | BeatAccepted(beat: Heartbeat)
    | TaskRecovered(directive: Directive, token: int, at: int)
    | ResultAccepted(receipt: Receipt)
  {
    function TaskId(): string {
      match this
      case LeaseGranted(lease) => lease.taskId
      case LeaseRenewed(lease) => lease.taskId
      case BeatAccepted(beat) => beat.taskId
      case TaskRecovered(directive, _, _) => directive.taskId
      case ResultAccepted(receipt) => receipt.taskId
    }
  }

  datatype World = World(rows: Rows, clock: int, log: Log)

  ghost function TimeOf(w: World, op: Op): int {
    if op.EnqueueOp? then w.clock else op.now
  }

  function JudgedAt(receipt: Receipt, clocked: bool, now: int): int {
    if clocked then now else receipt.completedAt
  }

  ghost function RowsAfter(duration: int, rows: Rows, op: Op): Rows {
    match op
    case EnqueueOp(task) => EnqueueStep(rows, task).0
    case AcquireOp(runnerId, answer, now) => AcquireStep(rows, runnerId, answer, now, duration).0
    case RenewOp(lease, now) => RenewStep(rows, lease, now, duration).0
    case HeartbeatOp(beat, now) => HeartbeatStep(rows, beat, now).0
    case CompleteOp(receipt, clocked, now) => CompleteStep(rows, receipt, JudgedAt(receipt, clocked, now)).0
    case RecoverOp(target, now) => RecoverStep(rows, target, now).0
  }

  ghost function EventOf(duration: int, rows: Rows, op: Op): Option<Event> {
    match op
    case EnqueueOp(task) => None
    case AcquireOp(runnerId, answer, now) =>
      var r := AcquireStep(rows, runnerId, answer, now, duration).1;
      if r.Success? && r.value.Some? then Some(LeaseGranted(r.value.value)) else None
    case RenewOp(lease, now) =>
      var r := RenewStep(rows, lease, now, duration).1;
      if r.Success? then Some(LeaseRenewed(r.value)) else None
    case HeartbeatOp(beat, now) =>
      var r := HeartbeatStep(rows, beat, now).1;
      if r.Success? then Some(BeatAccepted(r.value)) else None
    case CompleteOp(receipt, clocked, now) =>
      var r := CompleteStep(rows, receipt, JudgedAt(receipt, clocked, now)).1;
      if r.Success? && rows[receipt.taskId].receipt.None? then Some(ResultAccepted(r.value)) else None
    case RecoverOp(target, now) =>
      var r := RecoverStep(rows, target, now).1;
      if r.Success? then Some(TaskRecovered(r.value, rows[target.TaskId()].token, now)) else None
  }

  ghost function Step(duration: int, w: World, op: Op): World {
    var event := EventOf(duration, w.rows, op);
    World(RowsAfter(duration, w.rows, op), TimeOf(w, op),
          if event.None? then w.log else Then(w.log, event.value))
  }

  /** A run from the empty store, oldest operation innermost. */
  datatype Run = Begin(clock: int) | Do(prev: Run, op: Op)

  ghost function After(duration: int, run: Run): World {
    match run
    case Begin(clock) => World(map[], clock, Start)
    case Do(prev, op) => Step(duration, After(duration, prev), op)
  }

  /** The wall clock never goes backwards; the dates receipts carry are not constrained. */
  ghost predicate Monotone(duration: int, run: Run) {
    run.Do? ==>
      && Monotone(duration, run.prev)
      && After(duration, run.prev).clock <= TimeOf(After(duration, run.prev), run.op)
  }

  ghost predicate Continues(earlier: Run, later: Run) {
    earlier == later || (later.Do? && Continues(earlier, later.prev))
  }

  // ---------------------------------------------------------------- what the history says about a task

  ghost function GrantCount(log: Log, k: string): nat {
    if log.Start? then 0
    else GrantCount(log.past, k) + if log.event.LeaseGranted? && log.event.TaskId() == k then 1 else 0
  }

  /** Every lease handed out for the task, as the client sees it. */
  ghost function LeasesOf(log: Log, k: string): set<FencedRegister.Lease<string>> {
    if log.Start? then {}
    else if (log.event.LeaseGranted? || log.event.LeaseRenewed?) && log.event.TaskId() == k then
      LeasesOf(log.past, k)
      + {FencedRegister.Lease(log.event.lease.runnerId, log.event.lease.token, log.event.lease.expiresAt)}
    else LeasesOf(log.past, k)
  }

  /** The last heartbeat accepted since the task was last granted. */
  ghost function LastBeat(log: Log, k: string): Option<Heartbeat> {
    if log.Start? then None
    else if log.event.TaskId() != k then LastBeat(log.past, k)
    else
      match log.event
      case LeaseGranted(_) => None
      case BeatAccepted(beat) => Some(beat)
      case _ => LastBeat(log.past, k)
  }

  /**
   The last thing that happened to the task is a recovery of grant `token`, decided by a heartbeat of
   that very grant that denied the effect boundary and carried the checkpoint, after every lease expired.
   */
  ghost predicate SafelyRequeued(log: Log, k: string, token: int) {
    && log.Then?
    && if log.event.TaskId() != k then SafelyRequeued(log.past, k, token)
       else
         && log.event.TaskRecovered? && log.event.token == token
         && log.event.directive.action.RetryFromCheckpoint?
         && var beat := LastBeat(log.past, k);
         && beat.Some? && beat.value.token == token
         && beat.value.effectBoundary == Some(false)
         && beat.value.checkpoint.Some? && beat.value.checkpoint == log.event.directive.checkpoint
         && forall l | l in LeasesOf(log.past, k) :: l.until <= log.event.at
  }

  ghost predicate RegrantsAreSafe(log: Log, k: string) {
    log.Then? ==>
      && RegrantsAreSafe(log.past, k)
      && (log.event.LeaseGranted? && log.event.TaskId() == k && 2 <= log.event.lease.token ==>
            SafelyRequeued(log.past, k, log.event.lease.token - 1))
  }

  // ---------------------------------------------------------------- the invariant of one task

  ghost predicate RowInv(duration: int, clock: int, k: string, row: Row, log: Log) {
    && row.task.taskId == k
    && row.token == GrantCount(log, k)
    && row.heartbeat == LastBeat(log, k)
    && (row.heartbeat.Some? ==> row.heartbeat.value.token == row.token)
    && (row.receipt.Some? <==> row.state.Completed?)
    && (row.state.Completed? ==>
          && 1 <= row.token
          && row.receipt.value.token == row.token && row.runnerId == Some(row.receipt.value.runnerId))
    && (row.expiresAt.Some? <==> row.state.Leased?)
    && (row.state.Leased? ==>
          && 1 <= row.token <= MAX_TOKEN && row.runnerId.Some?
          && row.acquiredAt.Some? && row.acquiredAt.value <= clock
          && row.acquiredAt.value < row.expiresAt.value <= clock + duration)
    && (row.state.Queued? && 1 <= row.token ==> SafelyRequeued(log, k, row.token))
  }

  ghost predicate TaskInv(duration: int, w: World, k: string) {
    && RegrantsAreSafe(w.log, k)
    && if k in w.rows then RowInv(duration, w.clock, k, w.rows[k], w.log)
       else GrantCount(w.log, k) == 0 && LeasesOf(w.log, k) == {} && LastBeat(w.log, k) == None
  }

  // ---------------------------------------------------------------- refinement of the register

  type Register = FencedRegister.Register<string, Receipt>

  ghost function Abstract(w: World, k: string): Register {
    if k !in w.rows then
      FencedRegister.Register(w.clock, 0, None, None, LeasesOf(w.log, k))
    else
      var row := w.rows[k];
      FencedRegister.Register(
        w.clock,
        row.token,
        if row.state.Leased? && row.runnerId.Some? && row.expiresAt.Some? then
          Some(FencedRegister.Holder(row.runnerId.value, row.expiresAt.value)) else None,
        if row.receipt.Some? then
          Some(FencedRegister.Outcome(row.receipt.value.runnerId, row.receipt.value.token, row.receipt.value))
        else None,
        LeasesOf(w.log, k))
  }

  /** The row is still held although its lease has run out; nobody has recovered it yet. */
  predicate Lapsed(row: Row, now: int) {
    row.expiresAt.Some? && row.expiresAt.value <= now
  }

  /** The abstract action an operation performs on task `k`. */
  ghost function ActionOn(duration: int, w: World, op: Op, k: string): FencedRegister.Label<string, Receipt> {
    var event := EventOf(duration, w.rows, op);
    if event.None? || event.value.TaskId() != k then FencedRegister.Idle
    else
      match event.value
      case LeaseGranted(lease) => FencedRegister.Grant(lease.runnerId, lease.expiresAt)
      case LeaseRenewed(lease) => FencedRegister.Extend(lease.expiresAt)
      case BeatAccepted(_) => FencedRegister.Idle
      case TaskRecovered(_, _, _) => FencedRegister.Lapse
      case ResultAccepted(receipt) =>
        if k in w.rows && Lapsed(w.rows[k], TimeOf(w, op)) then
          FencedRegister.FinishLate(receipt.runnerId, receipt.token, receipt)
        else FencedRegister.Finish(receipt.runnerId, receipt.token, receipt)
  }

  ghost predicate Simulated(duration: int, w: World, op: Op, k: string) {
    var act := ActionOn(duration, w, op, k);
    && FencedRegister.Enabled(Abstract(w, k), TimeOf(w, op), act)
    && Abstract(Step(duration, w, op), k) == FencedRegister.Apply(Abstract(w, k), TimeOf(w, op), act)
  }

  /** Leases handed out so far never outlive the row's own expiry, nor now if nobody holds the task. */
  ghost predicate RegisterInv(w: World, k: string) {
    FencedRegister.Inv(Abstract(w, k))
  }

  /** An operation that leaves the row alone and records nothing about the task is an idle step. */
  lemma StepElsewhere(duration: int, w: World, op: Op, k: string)
    requires 0 < duration && TaskInv(duration, w, k) && w.clock <= TimeOf(w, op)
    requires k in w.rows ==> k in RowsAfter(duration, w.rows, op) && RowsAfter(duration, w.rows, op)[k] == w.rows[k]
    requires k !in w.rows ==> k !in RowsAfter(duration, w.rows, op)
    requires EventOf(duration, w.rows, op).Some? ==> EventOf(duration, w.rows, op).value.TaskId() != k
    ensures Simulated(duration, w, op, k) && TaskInv(duration, Step(duration, w, op), k)
  {}

  lemma StepEnqueue(duration: int, w: World, task: Task, k: string)
    requires 0 < duration && TaskInv(duration, w, k)
    ensures Simulated(duration, w, EnqueueOp(task), k) && TaskInv(duration, Step(duration, w, EnqueueOp(task)), k)
  {
    if k != task.taskId || k in w.rows || !ValidTask(task) {
      StepElsewhere(duration, w, EnqueueOp(task), k);
    }
  }

  lemma StepAcquire(duration: int, w: World, op: Op, k: string)
    requires 0 < duration && TaskInv(duration, w, k)
    requires op.AcquireOp? && w.clock <= op.now
    ensures Simulated(duration, w, op, k) && TaskInv(duration, Step(duration, w, op), k)
  {
    var first := FirstQueued(w.rows);
    if first.None? || first.value != k || RowsAfter(duration, w.rows, op) == w.rows {
      StepElsewhere(duration, w, op, k);
    } else {
      var row := w.rows[k];
      assert row.state.Queued?;
      var w' := Step(duration, w, op);
      if op.now < row.task.deadline {
        var lease := TaskLease(k, op.runnerId, row.token + 1, op.now, op.now + duration);
        assert EventOf(duration, w.rows, op) == Some(LeaseGranted(lease));
        assert w'.log == Then(w.log, LeaseGranted(lease));
        assert RowInv(duration, w'.clock, k, w'.rows[k], w'.log);
      } else {
        assert w'.rows[k] == row.(state := Expired) && w'.log == w.log;
      }
    }
  }

  lemma StepRenew(duration: int, w: World, op: Op, k: string)
    requires 0 < duration && TaskInv(duration, w, k)
    requires op.RenewOp? && w.clock <= op.now
    ensures Simulated(duration, w, op, k) && TaskInv(duration, Step(duration, w, op), k)
  {
    if op.lease.taskId != k || EventOf(duration, w.rows, op).None? {
      StepElsewhere(duration, w, op, k);
    } else {
      var w' := Step(duration, w, op);
      var renewed := op.lease.(expiresAt := op.now + duration);
      assert w'.log == Then(w.log, LeaseRenewed(renewed));
      assert w'.rows[k] == w.rows[k].(expiresAt := Some(renewed.expiresAt));
      assert RowInv(duration, w'.clock, k, w'.rows[k], w'.log);
    }
  }

  lemma StepHeartbeat(duration: int, w: World, op: Op, k: string)
    requires 0 < duration && TaskInv(duration, w, k)
    requires op.HeartbeatOp? && w.clock <= op.now
    ensures Simulated(duration, w, op, k) && TaskInv(duration, Step(duration, w, op), k)
  {
    if op.beat.taskId != k || EventOf(duration, w.rows, op).None? {
      StepElsewhere(duration, w, op, k);
    } else {
      var w' := Step(duration, w, op);
      assert w'.log == Then(w.log, BeatAccepted(op.beat));
      assert w'.rows[k] == w.rows[k].(heartbeat := Some(op.beat));
      assert RowInv(duration, w'.clock, k, w'.rows[k], w'.log);
    }
  }

  lemma StepComplete(duration: int, w: World, op: Op, k: string)
    requires 0 < duration && TaskInv(duration, w, k)
    requires op.CompleteOp? && w.clock <= op.now
    ensures Simulated(duration, w, op, k) && TaskInv(duration, Step(duration, w, op), k)
  {
    if op.receipt.taskId != k || EventOf(duration, w.rows, op).None? {
      StepElsewhere(duration, w, op, k);
    } else {
      var w' := Step(duration, w, op);
      assert w'.log == Then(w.log, ResultAccepted(op.receipt));
      assert w'.rows[k] == w.rows[k].(state := Completed, receipt := Some(op.receipt), expiresAt := None);
      assert RowInv(duration, w'.clock, k, w'.rows[k], w'.log);
    }
  }

  lemma StepRecover(duration: int, w: World, op: Op, k: string)
    requires 0 < duration && TaskInv(duration, w, k) && RegisterInv(w, k)
    requires op.RecoverOp? && w.clock <= op.now
    ensures Simulated(duration, w, op, k) && TaskInv(duration, Step(duration, w, op), k)
  {
    if op.target.TaskId() != k || EventOf(duration, w.rows, op).None? {
      StepElsewhere(duration, w, op, k);
    } else {
      var w' := Step(duration, w, op);
      var row := w.rows[k];
      var directive := Decide(k, row.heartbeat);
      assert w'.log == Then(w.log, TaskRecovered(directive, row.token, op.now));
      assert Abstract(w, k).holder == Some(FencedRegister.Holder(row.runnerId.value, row.expiresAt.value));
      assert forall l | l in LeasesOf(w.log, k) :: l.until <= op.now;
      assert RowInv(duration, w'.clock, k, w'.rows[k], w'.log);
    }
  }

  lemma StepOnTask(duration: int, w: World, op: Op, k: string)
    requires 0 < duration && TaskInv(duration, w, k) && RegisterInv(w, k)
    requires w.clock <= TimeOf(w, op)
    ensures Simulated(duration, w, op, k)
    ensures TaskInv(duration, Step(duration, w, op), k)
  {
    match op
    case EnqueueOp(task) => StepEnqueue(duration, w, task, k);
    case AcquireOp(_, _, _) => StepAcquire(duration, w, op, k);
    case RenewOp(_, _) => StepRenew(duration, w, op, k);
    case HeartbeatOp(_, _) => StepHeartbeat(duration, w, op, k);
    case CompleteOp(_, _, _) => StepComplete(duration, w, op, k);
    case RecoverOp(_, _) => StepRecover(duration, w, op, k);
  }

  // ---------------------------------------------------------------- whole runs

  /** The register history that a run of the queue is, seen from one task. */
  ghost function Project(duration: int, run: Run, k: string): FencedRegister.Behaviour<string, Receipt> {
    match run
    case Begin(clock) => FencedRegister.Begin(clock)
    case Do(prev, op) =>
      var w := After(duration, prev);
      FencedRegister.Then(Project(duration, prev, k), TimeOf(w, op), ActionOn(duration, w, op, k))
  }

  /** Refinement: every run of the queue is, for every task, a legal history of the fenced register. */
  lemma {:induction false} QueueRefinesRegister(duration: int, run: Run, k: string)
    requires 0 < duration && Monotone(duration, run)
    ensures FencedRegister.Legal(Project(duration, run, k))
    ensures FencedRegister.Final(Project(duration, run, k)) == Abstract(After(duration, run), k)
    ensures TaskInv(duration, After(duration, run), k) && RegisterInv(After(duration, run), k)
  {
    match run
    case Begin(clock) =>
    case Do(prev, op) =>
      QueueRefinesRegister(duration, prev, k);
      StepOnTask(duration, After(duration, prev), op, k);
      FencedRegister.BehaviourSafe(Project(duration, run, k));
  }

  ghost predicate Issued(w: World, lease: TaskLease) {
    FencedRegister.Lease(lease.runnerId, lease.token, lease.expiresAt) in LeasesOf(w.log, lease.taskId)
  }

  /** At no instant do two unexpired leases on a task disagree about its runner or its fencing token. */
  lemma AtMostOneHolder(duration: int, run: Run, a: TaskLease, b: TaskLease, instant: int)
    requires 0 < duration && Monotone(duration, run) && After(duration, run).clock <= instant
    requires Issued(After(duration, run), a) && Issued(After(duration, run), b) && a.taskId == b.taskId
    requires instant < a.expiresAt && instant < b.expiresAt
    ensures a.runnerId == b.runnerId && a.token == b.token == GrantCount(After(duration, run).log, a.taskId)
  {
    QueueRefinesRegister(duration, run, a.taskId);
    FencedRegister.OneLiveHolder(Abstract(After(duration, run), a.taskId),
      FencedRegister.Lease(a.runnerId, a.token, a.expiresAt),
      FencedRegister.Lease(b.runnerId, b.token, b.expiresAt), instant);
  }

  /** The token of a stored task is the number of times it was acquired. */
  lemma TokenCountsAcquisitions(duration: int, run: Run, k: string)
    requires 0 < duration && Monotone(duration, run) && k in After(duration, run).rows
    ensures After(duration, run).rows[k].token == GrantCount(After(duration, run).log, k)
  {
    QueueRefinesRegister(duration, run, k);
  }

  lemma GrantComesFromQueued(duration: int, w: World, op: Op, lease: TaskLease)
    requires EventOf(duration, w.rows, op) == Some(LeaseGranted(lease))
    ensures lease.taskId in w.rows
    ensures w.rows[lease.taskId].state.Queued? && lease.token == w.rows[lease.taskId].token + 1
  {}

  /** A task is leased again only out of a safe recovery of the grant immediately before. */
  lemma RegrantOnlyAfterSafeRecovery(duration: int, run: Run, lease: TaskLease)
    requires 0 < duration && Monotone(duration, run) && run.Do?
    requires EventOf(duration, After(duration, run.prev).rows, run.op) == Some(LeaseGranted(lease))
    ensures lease.token == GrantCount(After(duration, run.prev).log, lease.taskId) + 1
    ensures 2 <= lease.token ==> SafelyRequeued(After(duration, run.prev).log, lease.taskId, lease.token - 1)
  {
    var w := After(duration, run.prev);
    GrantComesFromQueued(duration, w, run.op, lease);
    QueueRefinesRegister(duration, run.prev, lease.taskId);
    assert RowInv(duration, w.clock, lease.taskId, w.rows[lease.taskId], w.log);
  }

  /** A stored result is bound to the highest token granted and its runner, and only its exact replay succeeds. */
  lemma ResultIsFinal(duration: int, run: Run, k: string, other: Receipt, now: int)
    requires 0 < duration && Monotone(duration, run)
    requires k in After(duration, run).rows && After(duration, run).rows[k].receipt.Some?
    requires ValidToken(other.token) && other.taskId == k
    ensures var w := After(duration, run);
            var stored := w.rows[k].receipt.value;
            && stored.token == GrantCount(w.log, k) && w.rows[k].runnerId == Some(stored.runnerId)
            && (forall l | l in LeasesOf(w.log, k) && l.token == stored.token :: l.owner == stored.runnerId)
            && CompleteStep(w.rows, other, now) ==
               (w.rows, if other == stored then Success(stored) else Failure(TaskConflict))
  {
    QueueRefinesRegister(duration, run, k);
    var r := Abstract(After(duration, run), k);
    forall l | l in LeasesOf(After(duration, run).log, k) && l.token == r.outcome.value.token
      ensures l.owner == r.outcome.value.owner
    {
      FencedRegister.ResultBoundToLastGrant(r, l);
    }
  }

  // ---------------------------------------------------------------- how recovery and acquisition decide

  /** The last heartbeat since the grant denied the effect boundary and carries a checkpoint. */
  predicate SafeToRetry(beat: Option<Heartbeat>) {
    beat.Some? && beat.value.effectBoundary == Some(false) && beat.value.checkpoint.Some?
  }

  /**
   In every run a recovery succeeds exactly on a leased task whose stored expiry has come, asked for by
   identifier or by a lease of the current runner and token. The last heartbeat accepted since the grant
   then decides everything: retried from its checkpoint if it is safe, verified in every other case.
   */
  lemma RecoveryFollowsLastBeat(duration: int, run: Run, target: Target, now: int)
    requires 0 < duration && Monotone(duration, run)
    ensures var w := After(duration, run); var k := target.TaskId();
            var (next, r) := RecoverStep(w.rows, target, now);
            var beat := LastBeat(w.log, k);
            && (r.Success? <==>
                && k in w.rows && w.rows[k].state.Leased? && w.rows[k].expiresAt.Some? && w.rows[k].expiresAt.value <= now
                && (target.ByLease? ==>
                      && w.rows[k].runnerId == Some(target.lease.runnerId) && w.rows[k].token == target.lease.token
                      && target.lease.acquiredAt < target.lease.expiresAt))
            && (r.Failure? ==> next == w.rows)
            && (r.Success? ==>
                  && next == w.rows[k := w.rows[k].(state := if SafeToRetry(beat) then Queued else Verifying, expiresAt := None)]
                  && r.value.taskId == k
                  && (r.value.action.RetryFromCheckpoint? <==> SafeToRetry(beat))
                  && r.value.checkpoint == (if SafeToRetry(beat) then beat.value.checkpoint else None)
                  && (r.value.reason.ExpiredPreEffect? <==> SafeToRetry(beat))
                  && (r.value.reason.ExpiredPostEffect? <==> beat.Some? && beat.value.effectBoundary == Some(true)))
  {
    var w := After(duration, run);
    QueueRefinesRegister(duration, run, target.TaskId());
    if target.TaskId() in w.rows {
      assert RowInv(duration, w.clock, target.TaskId(), w.rows[target.TaskId()], w.log);
    }
  }

  /** The task that comes first among the queued ones, character by character. */
  ghost predicate ComesFirst(rows: Rows, k: string) {
    && k in rows && rows[k].state.Queued?
    && forall other | other in rows && rows[other].state.Queued? :: Text.Leq(k, other)
  }

  lemma FirstIsFirstQueued(rows: Rows, k: string)
    ensures ComesFirst(rows, k) <==> FirstQueued(rows) == Some(k)
  {
    if ComesFirst(rows, k) {
      assert k in QueuedIds(rows);
      Text.LeastUnique(k, FirstQueued(rows).value, QueuedIds(rows));
    }
  }

  /**
   A lease is granted exactly on the first queued task, before its deadline, to a runner the authorizer
   accepts, while tokens last; and then it is the next token's, from now for the whole lease length.
   */
  lemma GrantedIff(rows: Rows, runnerId: string, answer: Answer, now: int, duration: int, k: string)
    requires ComesFirst(rows, k)
    ensures var (next, r) := AcquireStep(rows, runnerId, answer, now, duration); var row := rows[k];
            && (r.Success? && r.value.Some? <==> now < row.task.deadline && answer.Granted? && row.token < MAX_TOKEN)
            && (r.Success? && r.value.Some? ==>
                  && r.value.value == TaskLease(k, runnerId, row.token + 1, now, now + duration)
                  && next == rows[k := Row(row.task, Leased, Some(runnerId), row.token + 1, Some(now), Some(now + duration),
                                           None, row.receipt)])
            && (row.task.deadline <= now <==> r == Success(None))
            && (r == Success(None) ==> next == rows[k := row.(state := Expired)])
            && (r.Failure? ==> next == rows && (answer.Denied? <==> r.error.RunnerUnauthorized?))
  {
    FirstIsFirstQueued(rows, k);
  }

  /**
   A safe recovery makes the task available again: if it then comes first and is not yet due, the next
   acquisition by an authorized runner leases it under the next token.
   */
  lemma RecoveredIsLeasedAgain(duration: int, run: Run, target: Target, at: int, runnerId: string, now: int)
    requires 0 < duration && Monotone(duration, run)
    requires RecoverStep(After(duration, run).rows, target, at).1.Success?
    requires SafeToRetry(LastBeat(After(duration, run).log, target.TaskId()))
    requires var w := After(duration, run); var k := target.TaskId();
             && (forall other | other in w.rows && w.rows[other].state.Queued? :: Text.Leq(k, other))
             && now < w.rows[k].task.deadline && w.rows[k].token < MAX_TOKEN
    ensures var w := After(duration, run); var k := target.TaskId();
            var recovered := RecoverStep(w.rows, target, at).0;
            AcquireStep(recovered, runnerId, Granted, now, duration).1
            == Success(Some(TaskLease(k, runnerId, w.rows[k].token + 1, now, now + duration)))
  {
    hide RecoverStep, AcquireStep, After, LastBeat, Monotone, Text.Leq, FirstQueued;
    RecoveryFollowsLastBeat(duration, run, target, at);
    var k := target.TaskId();
    Text.Total(k, k);
    var recovered := RecoverStep(After(duration, run).rows, target, at).0;
    assert ComesFirst(recovered, k);
    GrantedIff(recovered, runnerId, Granted, now, duration, k);
  }

  // ---------------------------------------------------------------- terminal states

  ghost predicate Closed(rows: Rows, k: string) {
    k in rows && (rows[k].state.Verifying? || rows[k].state.Expired? || rows[k].state.Completed?)
  }

  lemma ClosedStep(duration: int, w: World, op: Op, k: string)
    requires Closed(w.rows, k)
    ensures Closed(Step(duration, w, op).rows, k) && Step(duration, w, op).rows[k] == w.rows[k]
    ensures GrantCount(Step(duration, w, op).log, k) == GrantCount(w.log, k)
  {
    match op
    case EnqueueOp(task) =>
    case AcquireOp(_, _, _) =>
      if FirstQueued(w.rows).Some? {
        assert w.rows[FirstQueued(w.rows).value].state.Queued?;
      }
    case RenewOp(_, _) =>
    case HeartbeatOp(_, _) =>
    case CompleteOp(_, _, _) =>
    case RecoverOp(_, _) =>
  }

  /** VERIFYING, EXPIRED and COMPLETED are never left: the row never changes again and is never granted again. */
  lemma {:induction false} ClosedForever(duration: int, earlier: Run, later: Run, k: string)
    requires Continues(earlier, later) && Closed(After(duration, earlier).rows, k)
    ensures Closed(After(duration, later).rows, k)
    ensures After(duration, later).rows[k] == After(duration, earlier).rows[k]
    ensures GrantCount(After(duration, later).log, k) == GrantCount(After(duration, earlier).log, k)
  {
    if earlier != later {
      ClosedForever(duration, earlier, later.prev, k);
      ClosedStep(duration, After(duration, later.prev), later.op, k);
    }
  }

  // ---------------------------------------------------------------- renewal trusts the lease it is given

  /** A lease the store issued is renewed only while the stored lease is alive. */
  lemma IssuedRenewalIsLive(duration: int, run: Run, lease: TaskLease, now: int)
    requires 0 < duration && Monotone(duration, run) && After(duration, run).clock <= now
    requires Issued(After(duration, run), lease)
    requires RenewStep(After(duration, run).rows, lease, now, duration).1.Success?
    ensures var row := After(duration, run).rows[lease.taskId];
            row.expiresAt.Some? && now < row.expiresAt.value
  {
    QueueRefinesRegister(duration, run, lease.taskId);
    var r := Abstract(After(duration, run), lease.taskId);
    assert FencedRegister.Lease(lease.runnerId, lease.token, lease.expiresAt) in r.leases;
  }

  /**
   Renewal compares the clock with the expiry the caller supplies, so a lease the store never issued
   can revive a lapsed row: exactly when it names the current runner and token and claims to be unexpired.
   */
  lemma RenewalRevivesExactly(duration: int, run: Run, lease: TaskLease, now: int)
    requires 0 < duration && Monotone(duration, run) && After(duration, run).clock <= now
    requires ValidLease(lease) && lease.taskId in After(duration, run).rows
    requires Lapsed(After(duration, run).rows[lease.taskId], now)
    ensures RenewStep(After(duration, run).rows, lease, now, duration).1.Success? <==>
              && Current(After(duration, run).rows[lease.taskId], lease.runnerId, lease.token)
              && now < lease.expiresAt && lease.acquiredAt < now + duration
    ensures RenewStep(After(duration, run).rows, lease, now, duration).1.Success? ==>
              !Issued(After(duration, run), lease)
  {
    if Issued(After(duration, run), lease) && RenewStep(After(duration, run).rows, lease, now, duration).1.Success? {
      IssuedRenewalIsLive(duration, run, lease, now);
    }
  }

  /** A run that does it: the queue's own lease lapsed at 10, yet a made-up one renews the task at 20. */
  lemma RevivalExample()
    ensures var scope := RunnerRegistry.Scope("t", "e", "p");
            var run := Do(Do(Begin(0), EnqueueOp(Task("k", scope, "c", 0, 100, ""))), AcquireOp("r", Granted, 0));
            var made := TaskLease("k", "r", 1, 0, 50);
            && Monotone(10, run)
            && After(10, run).rows.Keys == {"k"} && After(10, run).rows["k"].expiresAt == Some(10)
            && RenewStep(After(10, run).rows, made, 20, 10).1 == Success(made.(expiresAt := 30))
  {
    var scope := RunnerRegistry.Scope("t", "e", "p");
    var task := Task("k", scope, "c", 0, 100, "");
    var queued := Do(Begin(0), EnqueueOp(task));
    assert After(10, Begin(0)).rows == map[];
    assert After(10, queued).rows == map["k" := Row(task, Queued, None, 0, None, None, None, None)];
    assert QueuedIds(After(10, queued).rows) == {"k"};
    var run := Do(queued, AcquireOp("r", Granted, 0));
    assert FirstQueued(After(10, queued).rows) == Some("k");
    assert After(10, run).rows["k"].runnerId == Some("r") && After(10, run).rows["k"].token == 1;
  }

  // ---------------------------------------------------------------- completion trusts the receipt's own date

  /**
   A row whose lease has run out, but which nobody has recovered, is still completed: exactly when no
   clock is given, the receipt names the current runner and token, and it is dated before the expiry.
   */
  lemma LateCompletionExactly(duration: int, run: Run, receipt: Receipt, clocked: bool, now: int)
    requires 0 < duration && Monotone(duration, run) && After(duration, run).clock <= now
    requires ValidToken(receipt.token) && receipt.taskId in After(duration, run).rows
    requires Lapsed(After(duration, run).rows[receipt.taskId], now)
    ensures var row := After(duration, run).rows[receipt.taskId];
            CompleteStep(After(duration, run).rows, receipt, JudgedAt(receipt, clocked, now)).1.Success? <==>
              !clocked && Current(row, receipt.runnerId, receipt.token) && receipt.completedAt < row.expiresAt.value
  {
    QueueRefinesRegister(duration, run, receipt.taskId);
    var w := After(duration, run);
    assert RowInv(duration, w.clock, receipt.taskId, w.rows[receipt.taskId], w.log);
  }

  /**
   Late or not, a completion that is accepted is the current holder's: its token is the number of grants,
   and every lease ever issued under that token was issued to its runner.
   */
  lemma AcceptedResultIsHolders(duration: int, run: Run, receipt: Receipt, clocked: bool, now: int)
    requires 0 < duration && Monotone(duration, run) && After(duration, run).clock <= now
    requires EventOf(duration, After(duration, run).rows, CompleteOp(receipt, clocked, now)) == Some(ResultAccepted(receipt))
    ensures var w := After(duration, run);
            && receipt.token == GrantCount(w.log, receipt.taskId)
            && forall l | l in LeasesOf(w.log, receipt.taskId) && l.token == receipt.token :: l.owner == receipt.runnerId
  {
    QueueRefinesRegister(duration, run, receipt.taskId);
    var w := After(duration, run);
    assert RowInv(duration, w.clock, receipt.taskId, w.rows[receipt.taskId], w.log);
  }

  /** A run that does it: the lease lapsed at 10, the clock shows 100, and a receipt dated 5 completes the task. */
  lemma LateCompletionExample()
    ensures var scope := RunnerRegistry.Scope("t", "e", "p");
            var held := Do(Do(Begin(0), EnqueueOp(Task("k", scope, "c", 0, 200, ""))), AcquireOp("r", Granted, 0));
            var refused := Do(held, HeartbeatOp(Heartbeat("k", "r", 1, "s", None, None, 100), 100));
            var receipt := Receipt("k", "r", 1, "done", 5, None);
            var done := Do(refused, CompleteOp(receipt, false, 100));
            && Monotone(10, done) && After(10, refused).rows == After(10, held).rows
            && "k" in After(10, refused).rows && After(10, refused).rows["k"].expiresAt == Some(10)
            && "k" in After(10, done).rows && After(10, done).rows["k"].receipt == Some(receipt)
  {
    var scope := RunnerRegistry.Scope("t", "e", "p");
    var task := Task("k", scope, "c", 0, 200, "");
    var queued := Do(Begin(0), EnqueueOp(task));
    assert After(10, Begin(0)).rows == map[];
    assert After(10, queued).rows == map["k" := Row(task, Queued, None, 0, None, None, None, None)];
    assert QueuedIds(After(10, queued).rows) == {"k"};
    var held := Do(queued, AcquireOp("r", Granted, 0));
    assert FirstQueued(After(10, queued).rows) == Some("k");
    var row := Row(task, Leased, Some("r"), 1, Some(0), Some(10), None, None);
    assert After(10, held).rows["k"] == row;
    var refused := Do(held, HeartbeatOp(Heartbeat("k", "r", 1, "s", None, None, 100), 100));
    assert After(10, refused).rows == After(10, held).rows && After(10, refused).clock == 100;
  }
}

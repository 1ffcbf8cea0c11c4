/**
 The runner task queue: atomic acquisition, lease fencing, heartbeats, conservative recovery and
 one-time result receipts. Times are integers; a digest is modelled by what it is the digest of.
 */
module TaskQueue {
  import opened Wrappers
  import RunnerRegistry
  import Text

  const MAX_TOKEN := 0x7fff_ffff_ffff_ffff

  datatype Task = Task(
    taskId: string, scope: RunnerRegistry.Scope, capability: string,
    createdAt: int, deadline: int, content: string)

  datatype TaskLease = TaskLease(
    taskId: string, runnerId: string, token: int, acquiredAt: int, expiresAt: int)

  datatype Heartbeat = Heartbeat(
    taskId: string, runnerId: string, token: int, stepId: string,
    effectBoundary: Option<bool>, checkpoint: Option<string>, occurredAt: int)

  datatype Receipt = Receipt(
    taskId: string, runnerId: string, token: int, result: string,
    completedAt: int, effectBoundary: Option<bool>)

  datatype Action = RetryFromCheckpoint | VerifyOrReconcile

  datatype Reason = ExpiredPreEffect | ExpiredPostEffect | ExpiredEffectUnknown

  datatype Directive = Directive(taskId: string, action: Action, checkpoint: Option<string>, reason: Reason)

  datatype TaskState = Queued | Leased | Verifying | Completed | Expired

  datatype Row = Row(
    task: Task, state: TaskState, runnerId: Option<string>, token: nat,
    acquiredAt: Option<int>, expiresAt: Option<int>,
    heartbeat: Option<Heartbeat>, receipt: Option<Receipt>)

  datatype Error =
    | InvalidTask | InvalidLease | InvalidHeartbeat | InvalidReceipt
    | TaskConflict | TaskNotFound
    | AuthorizationUnavailable | RunnerUnauthorized | TokenExhausted
    | StaleLease | LeaseExpired | LeaseIntegrity | LeaseActive | NotRecoverable

  /** What the authorizer answered: it may also be missing or raise. */
  datatype Answer = Granted | Denied | Failed

  /** `recover` is given a task id, or a lease whose holder must still be the current one. */
  datatype Target = ById(id: string) | ByLease(lease: TaskLease)
  {
    function TaskId(): string {
      if ById? then id else lease.taskId
    }
  }

  type Rows = map<string, Row>

  predicate ValidTask(task: Task) {
    task.createdAt < task.deadline
  }

  predicate ValidToken(token: int) {
    1 <= token <= MAX_TOKEN
  }

  predicate ValidLease(lease: TaskLease) {
    ValidToken(lease.token) && lease.acquiredAt < lease.expiresAt
  }

  function LeaseFromRow(id: string, row: Row): Result<TaskLease, Error> {
    if row.runnerId.None? || row.expiresAt.None? || row.acquiredAt.None? then Failure(LeaseIntegrity)
    else
      var lease := TaskLease(id, row.runnerId.value, row.token, row.acquiredAt.value, row.expiresAt.value);
      if ValidLease(lease) then Success(lease) else Failure(LeaseIntegrity)
  }

  /** The fencing check: the row must be leased to this very runner and token, and `expiresAt` be ahead. */
  predicate Current(row: Row, runnerId: string, token: int) {
    row.state.Leased? && row.runnerId == Some(runnerId) && row.token == token
  }

  function CheckLease(row: Row, runnerId: string, token: int, expiresAt: int, now: int): Option<Error> {
    if !Current(row, runnerId, token) then Some(StaleLease)
    else if expiresAt <= now then Some(LeaseExpired)
    else None
  }

  /** The runner is enrolled in the task's very scope, online, and has the capability it asks for. */
  predicate MayRun(runners: map<string, RunnerRegistry.Runner>, runnerId: string, task: Task) {
    && runnerId in runners
    && var runner := runners[runnerId];
    && runner.identity.scope == task.scope && runner.health == RunnerRegistry.Online
    && task.capability in runner.identity.capabilities
  }

  // ---------------------------------------------------------------- what each operation does

  ghost function QueuedIds(rows: Rows): set<string> {
    set id | id in rows && rows[id].state.Queued?
  }

  /** The first queued task in text order, the only one `acquire` looks at. */
  ghost function FirstQueued(rows: Rows): (r: Option<string>)
    ensures r.Some? ==> Text.IsLeast(r.value, QueuedIds(rows))
    ensures r.None? ==> QueuedIds(rows) == {}
  {
    if QueuedIds(rows) == {} then None
    else
      Text.LeastExists(QueuedIds(rows));
      var id :| Text.IsLeast(id, QueuedIds(rows));
      Some(id)
  }

  ghost function EnqueueStep(rows: Rows, task: Task): (Rows, Result<Task, Error>) {
    if !ValidTask(task) then (rows, Failure(InvalidTask))
    else if task.taskId in rows then
      if rows[task.taskId].task != task then (rows, Failure(TaskConflict))
      else (rows, Success(rows[task.taskId].task))
    else
      (rows[task.taskId := Row(task, Queued, None, 0, None, None, None, None)], Success(task))
  }

  ghost function AcquireStep(rows: Rows, runnerId: string, answer: Answer, now: int, duration: int)
    : (Rows, Result<Option<TaskLease>, Error>)
  {
    match FirstQueued(rows)
    case None => (rows, Success(None))
    case Some(id) =>
      var row := rows[id];
      if row.task.deadline <= now then (rows[id := row.(state := Expired)], Success(None))
      else if answer.Failed? then (rows, Failure(AuthorizationUnavailable))
      else if answer.Denied? then (rows, Failure(RunnerUnauthorized))
      else if MAX_TOKEN < row.token + 1 then (rows, Failure(TokenExhausted))
      else
        var lease := TaskLease(id, runnerId, row.token + 1, now, now + duration);
        (rows[id := row.(state := Leased, runnerId := Some(runnerId), token := row.token + 1,
                         acquiredAt := Some(now), expiresAt := Some(lease.expiresAt), heartbeat := None)],
         Success(Some(lease)))
  }

  ghost function RenewStep(rows: Rows, lease: TaskLease, now: int, duration: int)
    : (Rows, Result<TaskLease, Error>)
  {
    if !ValidLease(lease) then (rows, Failure(InvalidLease))
    else if lease.taskId !in rows then (rows, Failure(TaskNotFound))
    else
      var row := rows[lease.taskId];
      var refusal := CheckLease(row, lease.runnerId, lease.token, lease.expiresAt, now);
      if refusal.Some? then (rows, Failure(refusal.value))
      else
        var renewed := lease.(expiresAt := now + duration);
        if !ValidLease(renewed) then (rows, Failure(InvalidLease))
        else (rows[lease.taskId := row.(expiresAt := Some(renewed.expiresAt))], Success(renewed))
  }

  ghost function HeartbeatStep(rows: Rows, beat: Heartbeat, now: int): (Rows, Result<Heartbeat, Error>) {
    if !ValidToken(beat.token) then (rows, Failure(InvalidHeartbeat))
    else if beat.taskId !in rows then (rows, Failure(TaskNotFound))
    else
      var row := rows[beat.taskId];
      match LeaseFromRow(beat.taskId, row)
      case Failure(error) => (rows, Failure(error))
      case Success(lease) =>
        var refusal := CheckLease(row, beat.runnerId, beat.token, lease.expiresAt, now);
        if refusal.Some? then (rows, Failure(refusal.value))
        else (rows[beat.taskId := row.(heartbeat := Some(beat))], Success(beat))
  }

  ghost function CompleteStep(rows: Rows, receipt: Receipt, now: int): (Rows, Result<Receipt, Error>) {
    if !ValidToken(receipt.token) then (rows, Failure(InvalidReceipt))
    else if receipt.taskId !in rows then (rows, Failure(TaskNotFound))
    else
      var row := rows[receipt.taskId];
      if row.receipt.Some? then
        if row.receipt.value == receipt then (rows, Success(receipt)) else (rows, Failure(TaskConflict))
      else
        match LeaseFromRow(receipt.taskId, row)
        case Failure(error) => (rows, Failure(error))
        case Success(lease) =>
          var refusal := CheckLease(row, receipt.runnerId, receipt.token, lease.expiresAt, now);
          if refusal.Some? then (rows, Failure(refusal.value))
          else
            (rows[receipt.taskId := row.(state := Completed, receipt := Some(receipt), expiresAt := None)],
             Success(receipt))
  }

  function Decide(taskId: string, beat: Option<Heartbeat>): Directive {
    if beat.Some? && beat.value.effectBoundary == Some(false) && beat.value.checkpoint.Some? then
      Directive(taskId, RetryFromCheckpoint, beat.value.checkpoint, ExpiredPreEffect)
    else
      Directive(taskId, VerifyOrReconcile, None,
                if beat.Some? && beat.value.effectBoundary == Some(true) then ExpiredPostEffect
                else ExpiredEffectUnknown)
  }

  ghost function RecoverStep(rows: Rows, target: Target, now: int): (Rows, Result<Directive, Error>) {
    if target.ByLease? && !ValidLease(target.lease) then (rows, Failure(InvalidLease))
    else if target.TaskId() !in rows then (rows, Failure(TaskNotFound))
    else
      var row := rows[target.TaskId()];
      if !row.state.Leased? then (rows, Failure(NotRecoverable))
      else
        match LeaseFromRow(target.TaskId(), row)
        case Failure(error) => (rows, Failure(error))
        case Success(lease) =>
          if target.ByLease? && (target.lease.runnerId != lease.runnerId || target.lease.token != lease.token)
          then (rows, Failure(StaleLease))
          else if now < lease.expiresAt then (rows, Failure(LeaseActive))
          else
            var directive := Decide(target.TaskId(), row.heartbeat);
            var state := if directive.action.RetryFromCheckpoint? then Queued else Verifying;
            (rows[target.TaskId() := row.(state := state, expiresAt := None)], Success(directive))
  }

  // ---------------------------------------------------------------- the store itself

  class SQLiteTaskStore {
    var rows: Rows
    const authorizer: RunnerRegistry.SQLiteRunnerRegistry?
    const duration: int

    /** `duration` is the lease length in microseconds. */
    constructor (authorizer: RunnerRegistry.SQLiteRunnerRegistry?, duration: int)
      requires 0 < duration <= 3_600_000_000
      ensures rows == map[] && this.authorizer == authorizer && this.duration == duration
    {
      rows := map[];
      this.authorizer := authorizer;
      this.duration := duration;
    }

    method Enqueue(task: Task) returns (r: Result<Task, Error>)
      modifies this
      ensures (rows, r) == EnqueueStep(old(rows), task)
    {
      if !ValidTask(task) {
        return Failure(InvalidTask);
      }
      if task.taskId in rows {
        var current := rows[task.taskId].task;
        if current != task {
          return Failure(TaskConflict);
        }
        return Success(current);
      }
      rows := rows[task.taskId := Row(task, Queued, None, 0, None, None, None, None)];
      return Success(task);
    }

    function Ask(runnerId: string, task: Task): Answer
      reads authorizer
    {
      if authorizer == null then Failed
      else if authorizer.Authorize(runnerId, task.scope, task.capability) then Granted
      else Denied
    }

    /** What the authorizer says about the task `Acquire` would look at. */
    ghost function AnswerFor(runnerId: string): Answer
      reads this, authorizer
    {
      match FirstQueued(rows)
      case None => Failed
      case Some(id) => Ask(runnerId, rows[id].task)
    }

    method Acquire(runnerId: string, now: int) returns (r: Result<Option<TaskLease>, Error>)
      modifies this
      ensures (rows, r) == AcquireStep(old(rows), runnerId, old(AnswerFor(runnerId)), now, duration)
      ensures r.Success? && r.value.Some? ==>
                authorizer != null && MayRun(authorizer.runners, runnerId, rows[r.value.value.taskId].task)
      ensures r == Failure(RunnerUnauthorized) ==>
                && authorizer != null && FirstQueued(rows).Some?
                && !MayRun(authorizer.runners, runnerId, rows[FirstQueued(rows).value].task)
      ensures r == Failure(AuthorizationUnavailable) ==> authorizer == null
    {
      var queued := set id | id in rows && rows[id].state.Queued?;
      assert queued == QueuedIds(rows);
      if queued == {} {
        return Success(None);
      }
      Text.LeastExists(queued);
      var id :| id in queued && forall other | other in queued :: Text.Leq(id, other);
      Text.LeastUnique(id, FirstQueued(rows).value, queued);
      var row := rows[id];
      if row.task.deadline <= now {
        rows := rows[id := row.(state := Expired)];
        return Success(None);
      }
      if authorizer == null {
        return Failure(AuthorizationUnavailable);
      }
      if !authorizer.Authorize(runnerId, row.task.scope, row.task.capability) {
        return Failure(RunnerUnauthorized);
      }
      var token := row.token + 1;
      if MAX_TOKEN < token {
        return Failure(TokenExhausted);
      }
      var lease := TaskLease(id, runnerId, token, now, now + duration);
      rows := rows[id := row.(state := Leased, runnerId := Some(runnerId), token := token,
                              acquiredAt := Some(lease.acquiredAt), expiresAt := Some(lease.expiresAt),
                              heartbeat := None)];
      return Success(Some(lease));
    }

    method Renew(lease: TaskLease, now: int) returns (r: Result<TaskLease, Error>)
      modifies this
      ensures (rows, r) == RenewStep(old(rows), lease, now, duration)
    {
      if !ValidLease(lease) {
        return Failure(InvalidLease);
      }
      if lease.taskId !in rows {
        return Failure(TaskNotFound);
      }
      var row := rows[lease.taskId];
      var refusal := CheckLease(row, lease.runnerId, lease.token, lease.expiresAt, now);
      if refusal.Some? {
        return Failure(refusal.value);
      }
      var renewed := lease.(expiresAt := now + duration);
      if !ValidLease(renewed) {
        return Failure(InvalidLease);
      }
      rows := rows[lease.taskId := row.(expiresAt := Some(renewed.expiresAt))];
      return Success(renewed);
    }

    method RecordHeartbeat(beat: Heartbeat, now: int) returns (r: Result<Heartbeat, Error>)
      modifies this
      ensures (rows, r) == HeartbeatStep(old(rows), beat, now)
    {
      if !ValidToken(beat.token) {
        return Failure(InvalidHeartbeat);
      }
      if beat.taskId !in rows {
        return Failure(TaskNotFound);
      }
      var row := rows[beat.taskId];
      var lease := LeaseFromRow(beat.taskId, row);
      if lease.Failure? {
        return Failure(lease.error);
      }
      var refusal := CheckLease(row, beat.runnerId, beat.token, lease.value.expiresAt, now);
      if refusal.Some? {
        return Failure(refusal.value);
      }
      rows := rows[beat.taskId := row.(heartbeat := Some(beat))];
      return Success(beat);
    }

    /** Without a clock the receipt's own completion time is used. */
    method Complete(receipt: Receipt, clock: Option<int>) returns (r: Result<Receipt, Error>)
      modifies this
      ensures (rows, r) ==
              CompleteStep(old(rows), receipt, if clock.None? then receipt.completedAt else clock.value)
    {
      if !ValidToken(receipt.token) {
        return Failure(InvalidReceipt);
      }
      var now := if clock.None? then receipt.completedAt else clock.value;
      if receipt.taskId !in rows {
        return Failure(TaskNotFound);
      }
      var row := rows[receipt.taskId];
      if row.receipt.Some? {
        if row.receipt.value == receipt {
          return Success(row.receipt.value);
        }
        return Failure(TaskConflict);
      }
      var lease := LeaseFromRow(receipt.taskId, row);
      if lease.Failure? {
        return Failure(lease.error);
      }
      var refusal := CheckLease(row, receipt.runnerId, receipt.token, lease.value.expiresAt, now);
      if refusal.Some? {
        return Failure(refusal.value);
      }
      rows := rows[receipt.taskId := row.(state := Completed, receipt := Some(receipt), expiresAt := None)];
      return Success(receipt);
    }

    method Recover(target: Target, now: int) returns (r: Result<Directive, Error>)
      modifies this
      ensures (rows, r) == RecoverStep(old(rows), target, now)
    {
      if target.ByLease? && !ValidLease(target.lease) {
        return Failure(InvalidLease);
      }
      var taskId := target.TaskId();
      if taskId !in rows {
        return Failure(TaskNotFound);
      }
      var row := rows[taskId];
      if row.state != Leased {
        return Failure(NotRecoverable);
      }
      var lease := LeaseFromRow(taskId, row);
      if lease.Failure? {
        return Failure(lease.error);
      }
      if target.ByLease? {
        if target.lease.runnerId != lease.value.runnerId || target.lease.token != lease.value.token {
          return Failure(StaleLease);
        }
      }
      if now < lease.value.expiresAt {
        return Failure(LeaseActive);
      }
      var directive := Decide(taskId, row.heartbeat);
      var state := if directive.action == RetryFromCheckpoint then Queued else Verifying;
      rows := rows[taskId := row.(state := state, expiresAt := None)];
      return Success(directive);
    }
  }
}

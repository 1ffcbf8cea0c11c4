/**
 The attended-human task store: a second fenced-lease protocol, in which an expired claim is granted
 again directly. A completion digest is modelled by the content it binds.
 */
module AttendedTasks {
  import opened Wrappers
  import Text

  const MAX_TOKEN := 0x7fff_ffff_ffff_ffff

  type Claims = map<string, string>

  datatype Task = Task(
    taskId: string, tenantId: string, environmentId: string,
    requiredClaims: seq<string>, createdAt: int, content: string)

  datatype Lease = Lease(
    taskId: string, tenantId: string, environmentId: string,
    principal: string, token: int, acquiredAt: int, expiresAt: int)

  /** What the completion digest is computed from. */
  datatype Completion = Completion(
    claims: Claims, note: Option<string>, rejected: bool, token: int, principal: string)

  datatype Status = Pending | Claimed | Completed | Rejected

  datatype Record = Record(
    task: Task, status: Status, token: nat, principal: Option<string>, expiresAt: Option<int>,
    claims: Option<Claims>, note: Option<string>, completion: Option<Completion>, updatedAt: int)

  datatype Error =
    | InvalidTask | TaskConflict | TaskNotFound | TaskTerminal | TaskClaimed
    | PrincipalInvalid | TokenExhausted | PrincipalNotTrimmed
    | LeaseInvalid | ClaimsInvalid | NoteInvalid
    | CompletionConflict | StaleLease | LeaseExpired

  type Records = map<string, Record>

  predicate NoDuplicates(names: seq<string>) {
    forall i, j | 0 <= i < j < |names| :: names[i] != names[j]
  }

  predicate ValidTask(task: Task) {
    1 <= |task.requiredClaims| <= 32 && NoDuplicates(task.requiredClaims)
  }

  predicate ValidPrincipal(principal: string) {
    1 <= |principal| <= 256
  }

  predicate ValidLease(lease: Lease) {
    && 1 <= lease.token <= MAX_TOKEN && lease.acquiredAt < lease.expiresAt
    && ValidPrincipal(lease.principal) && Text.Trimmed(lease.principal)
  }

  predicate ActiveLease(record: Record, now: int) {
    record.status.Claimed? && record.expiresAt.Some? && now < record.expiresAt.value
  }

  predicate Terminal(record: Record) {
    record.status.Completed? || record.status.Rejected?
  }

  predicate InScope(records: Records, taskId: string, tenantId: string, environmentId: string) {
    && taskId in records
    && records[taskId].task.tenantId == tenantId && records[taskId].task.environmentId == environmentId
  }

  predicate SameCompletion(record: Record, lease: Lease, completion: Completion) {
    && record.token == lease.token && record.principal == Some(lease.principal)
    && record.completion == Some(completion)
  }

  function CurrentLeaseError(record: Record, lease: Lease, now: int): Option<Error> {
    if !record.status.Claimed? || record.principal != Some(lease.principal) || record.token != lease.token then
      Some(StaleLease)
    else if record.expiresAt.None? || record.expiresAt.value <= now then Some(LeaseExpired)
    else None
  }

  // ---------------------------------------------------------------- what each operation does

  ghost function CreateStep(records: Records, task: Task): (Records, Result<Record, Error>) {
    if !ValidTask(task) then (records, Failure(InvalidTask))
    else if task.taskId in records then
      if records[task.taskId].task != task then (records, Failure(TaskConflict))
      else (records, Success(records[task.taskId]))
    else
      var record := Record(task, Pending, 0, None, None, None, None, None, task.createdAt);
      (records[task.taskId := record], Success(record))
  }

  ghost function ClaimStep(records: Records, taskId: string, tenantId: string, environmentId: string,
                           principal: string, now: int, duration: int): (Records, Result<Lease, Error>)
  {
    if !ValidPrincipal(principal) then (records, Failure(PrincipalInvalid))
    else if !InScope(records, taskId, tenantId, environmentId) then (records, Failure(TaskNotFound))
    else
      var record := records[taskId];
      if Terminal(record) then (records, Failure(TaskTerminal))
      else if ActiveLease(record, now) then (records, Failure(TaskClaimed))
      else if MAX_TOKEN < record.token + 1 then (records, Failure(TokenExhausted))
      else if !Text.Trimmed(principal) then (records, Failure(PrincipalNotTrimmed))
      else
        var lease := Lease(taskId, tenantId, environmentId, principal, record.token + 1, now, now + duration);
        (records[taskId := Record(record.task, Claimed, record.token + 1, Some(principal),
                                  Some(lease.expiresAt), None, None, None, now)],
         Success(lease))
  }

  ghost function CompleteStep(records: Records, lease: Lease, claims: Claims, rejected: bool,
                              note: Option<string>, now: int): (Records, Result<Record, Error>)
  {
    if !ValidLease(lease) then (records, Failure(LeaseInvalid))
    else if 32 < |claims| then (records, Failure(ClaimsInvalid))
    else if note.Some? && 1024 < |note.value| then (records, Failure(NoteInvalid))
    else if !InScope(records, lease.taskId, lease.tenantId, lease.environmentId) then
      (records, Failure(TaskNotFound))
    else
      var current := records[lease.taskId];
      if claims.Keys != (set name | name in current.task.requiredClaims) then (records, Failure(ClaimsInvalid))
      else
        var completion := Completion(claims, note, rejected, lease.token, lease.principal);
        if Terminal(current) then
          if SameCompletion(current, lease, completion) then (records, Success(current))
          else (records, Failure(CompletionConflict))
        else
          var refusal := CurrentLeaseError(current, lease, now);
          if refusal.Some? then (records, Failure(refusal.value))
          else
            var updated := Record(current.task, if rejected then Rejected else Completed, lease.token,
                                  Some(lease.principal), None, Some(claims), note, Some(completion), now);
            (records[lease.taskId := updated], Success(updated))
  }

  // ---------------------------------------------------------------- the store itself

  class SQLiteAttendedTaskStore {
    var records: Records
    const duration: int

    /** `duration` is the lease length in microseconds, between one second and one hour. */
    constructor (duration: int)
      requires 1_000_000 <= duration <= 3_600_000_000
      ensures records == map[] && this.duration == duration
    {
      records := map[];
      this.duration := duration;
    }

    method Create(task: Task) returns (r: Result<Record, Error>)
      modifies this
      ensures (records, r) == CreateStep(old(records), task)
    {
      if !ValidTask(task) {
        return Failure(InvalidTask);
      }
      var record := Record(task, Pending, 0, None, None, None, None, None, task.createdAt);
      if task.taskId in records {
        if records[task.taskId].task != task {
          return Failure(TaskConflict);
        }
        return Success(records[task.taskId]);
      }
      records := records[task.taskId := record];
      return Success(record);
    }

    method Claim(taskId: string, tenantId: string, environmentId: string, principal: string, now: int)
      returns (r: Result<Lease, Error>)
      modifies this
      ensures (records, r) == ClaimStep(old(records), taskId, tenantId, environmentId, principal, now, duration)
    {
      if !ValidPrincipal(principal) {
        return Failure(PrincipalInvalid);
      }
      if !InScope(records, taskId, tenantId, environmentId) {
        return Failure(TaskNotFound);
      }
      var record := records[taskId];
      if record.status == Completed || record.status == Rejected {
        return Failure(TaskTerminal);
      }
      if ActiveLease(record, now) {
        return Failure(TaskClaimed);
      }
      var token := record.token + 1;
      if MAX_TOKEN < token {
        return Failure(TokenExhausted);
      }
      if !Text.Trimmed(principal) {
        return Failure(PrincipalNotTrimmed);
      }
      var lease := Lease(taskId, tenantId, environmentId, principal, token, now, now + duration);
      var updated := Record(record.task, Claimed, token, Some(principal), Some(lease.expiresAt),
                            None, None, None, now);
      records := records[taskId := updated];
      return Success(lease);
    }

    method Complete(lease: Lease, claims: Claims, rejected: bool, note: Option<string>, now: int)
      returns (r: Result<Record, Error>)
      modifies this
      ensures (records, r) == CompleteStep(old(records), lease, claims, rejected, note, now)
    {
      if !ValidLease(lease) {
        return Failure(LeaseInvalid);
      }
      if 32 < |claims| {
        return Failure(ClaimsInvalid);
      }
      if note.Some? && 1024 < |note.value| {
        return Failure(NoteInvalid);
      }
      if !InScope(records, lease.taskId, lease.tenantId, lease.environmentId) {
        return Failure(TaskNotFound);
      }
      var current := records[lease.taskId];
      if claims.Keys != (set name | name in current.task.requiredClaims) {
        return Failure(ClaimsInvalid);
      }
      var completion := Completion(claims, note, rejected, lease.token, lease.principal);
      if current.status == Completed || current.status == Rejected {
        if SameCompletion(current, lease, completion) {
          return Success(current);
        }
        return Failure(CompletionConflict);
      }
      var refusal := CurrentLeaseError(current, lease, now);
      if refusal.Some? {
        return Failure(refusal.value);
      }
      var updated := Record(current.task, if rejected then Rejected else Completed, lease.token,
                            Some(lease.principal), None, Some(claims), note, Some(completion), now);
      records := records[lease.taskId := updated];
      return Success(updated);
    }

    method Reject(lease: Lease, claims: Claims, note: Option<string>, now: int)
      returns (r: Result<Record, Error>)
      modifies this
      ensures (records, r) == CompleteStep(old(records), lease, claims, true, note, now)
    {
      r := Complete(lease, claims, true, note, now);
    }
  }
}

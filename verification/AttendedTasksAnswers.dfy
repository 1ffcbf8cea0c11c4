/** What the attended-task store answers over whole runs: it serves whoever the abstract register would serve. */
module AttendedTasksAnswers {
  import opened Wrappers
  import Text
  import opened AttendedTasks
  import opened S = AttendedTasksSafety

  const MAX_PRINCIPAL := 256
  const MAX_CLAIMS := 32
  const MAX_NOTE := 1024

  predicate Nameable(principal: string) {
    1 <= |principal| <= MAX_PRINCIPAL && Text.Trimmed(principal)
  }

  ghost predicate Stored(w: World, k: string, tenantId: string, environmentId: string) {
    && k in w.records
    && w.records[k].task.tenantId == tenantId && w.records[k].task.environmentId == environmentId
  }

  /**
   A claim is granted exactly on a task of that tenant and environment without a result, to a principal that
   can be named, once no lease on it runs; then under the next token, from now for the whole length.
   */
  lemma ClaimedIff(duration: int, run: Run, k: string, tenantId: string, environmentId: string, principal: string, now: int)
    requires 0 < duration && Monotone(duration, run)
    ensures var w := After(duration, run); var register := Abstract(w, k);
            var (next, r) := ClaimStep(w.records, k, tenantId, environmentId, principal, now, duration);
            && (r.Success? <==>
                && Nameable(principal) && Stored(w, k, tenantId, environmentId)
                && register.outcome.None? && (register.holder.Some? ==> register.holder.value.until <= now)
                && register.grants < MAX_TOKEN)
            && (r.Success? ==>
                  && r.value == Lease(k, tenantId, environmentId, principal, register.grants + 1, now, now + duration)
                  && next == w.records[k := Record(w.records[k].task, Claimed, register.grants + 1, Some(principal),
                                                   Some(now + duration), None, None, None, now)])
            && (r.Failure? ==> next == w.records)
  {
    hide After, Monotone, LeasesOf, Text.Trimmed;
    StoreRefinesRegister(duration, run, k);
  }

  /**
   A first completion or rejection is accepted exactly from the holder while its lease runs, with a value for
   every required claim and for no other; and it is stored with all it brought.
   */
  lemma CompletedIff(duration: int, run: Run, lease: Lease, claims: Claims, rejected: bool, note: Option<string>, now: int)
    requires 0 < duration && Monotone(duration, run)
    requires Abstract(After(duration, run), lease.taskId).outcome.None?
    ensures var w := After(duration, run); var k := lease.taskId; var register := Abstract(w, k);
            var (next, r) := CompleteStep(w.records, lease, claims, rejected, note, now);
            && (r.Success? <==>
                && Stored(w, k, lease.tenantId, lease.environmentId) && register.holder.Some?
                && register.holder.value.owner == lease.principal && register.grants == lease.token
                && now < register.holder.value.until
                && Nameable(lease.principal) && lease.token <= MAX_TOKEN && lease.acquiredAt < lease.expiresAt
                && |claims| <= MAX_CLAIMS && (forall name :: name in claims <==> name in w.records[k].task.requiredClaims)
                && (note.Some? ==> |note.value| <= MAX_NOTE))
            && (r.Success? ==>
                  && next == w.records[k := r.value]
                  && r.value == Record(w.records[k].task, if rejected then Rejected else Completed, lease.token,
                                       Some(lease.principal), None, Some(claims), note,
                                       Some(Completion(claims, note, rejected, lease.token, lease.principal)), now))
            && (r.Failure? ==> next == w.records)
  {
    StoreRefinesRegister(duration, run, lease.taskId);
    var w := After(duration, run);
    if lease.taskId in w.records {
      assert RecordInv(lease.taskId, w.records[lease.taskId], w.log);
      SameNames(claims, w.records[lease.taskId].task.requiredClaims);
    }
  }

  lemma SameNames(claims: Claims, required: seq<string>)
    ensures claims.Keys == (set name | name in required) <==> forall name :: name in claims <==> name in required
  {
    if forall name :: name in claims <==> name in required {
      assert claims.Keys == set name | name in required;
    }
    if claims.Keys == set name | name in required {
      forall name ensures name in claims <==> name in required {
        assert name in claims.Keys <==> name in (set name | name in required);
      }
    }
  }

  /** A task is taken with one to thirty-two distinct required claims under a free identifier, and the very same task again. */
  lemma CreatedIff(duration: int, run: Run, task: Task)
    ensures var records := After(duration, run).records; var (next, r) := CreateStep(records, task);
            && (r.Success? <==>
                && 1 <= |task.requiredClaims| <= MAX_CLAIMS
                && (forall i, j | 0 <= i < j < |task.requiredClaims| :: task.requiredClaims[i] != task.requiredClaims[j])
                && (task.taskId in records ==> records[task.taskId].task == task))
            && (r.Success? && task.taskId !in records ==>
                  && r.value == Record(task, Pending, 0, None, None, None, None, None, task.createdAt)
                  && next == records[task.taskId := r.value])
            && (r.Success? && task.taskId in records ==> r.value == records[task.taskId])
            && (r.Failure? || task.taskId in records ==> next == records)
  {
  }
}

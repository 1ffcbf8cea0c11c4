/**
 What the queue answers over whole runs: the register serves its holder. Each call is accepted exactly when
 the holder of the abstract register makes it in time, and then its effect is this and no more.
 */
module TaskQueueAnswers {
  import opened Wrappers
  import opened TaskQueue
  import opened S = TaskQueueSafety

  /** The task is held by this runner under this token, and the register's lease runs beyond `instant`. */
  ghost predicate Holds(w: World, k: string, runnerId: string, token: int, instant: int) {
    var r := Abstract(w, k);
    r.holder.Some? && r.holder.value.owner == runnerId && r.grants == token && instant < r.holder.value.until
  }

  /** A heartbeat is accepted exactly from the holder while its lease runs; it becomes the last beat, and nothing else changes. */
  lemma BeatAcceptedIff(duration: int, run: Run, beat: Heartbeat, now: int)
    requires 0 < duration && Monotone(duration, run)
    ensures var w := After(duration, run); var (next, r) := HeartbeatStep(w.rows, beat, now);
            && (r.Success? <==> Holds(w, beat.taskId, beat.runnerId, beat.token, now))
            && (r.Success? ==> beat.taskId in w.rows && r.value == beat
                               && next == w.rows[beat.taskId := w.rows[beat.taskId].(heartbeat := Some(beat))])
            && (r.Failure? ==> next == w.rows)
  {
    Row(duration, run, beat.taskId);
  }

  lemma Row(duration: int, run: Run, k: string)
    requires 0 < duration && Monotone(duration, run)
    ensures var w := After(duration, run); k in w.rows ==> RowInv(duration, w.clock, k, w.rows[k], w.log)
  {
    QueueRefinesRegister(duration, run, k);
  }

  /** The holder renews exactly while the lease it shows runs, whatever the register says of that; from now for the whole length. */
  lemma RenewedIff(duration: int, run: Run, lease: TaskLease, now: int)
    requires 0 < duration && Monotone(duration, run)
    ensures var w := After(duration, run); var (next, r) := RenewStep(w.rows, lease, now, duration);
            var register := Abstract(w, lease.taskId);
            && (r.Success? <==>
                && register.holder.Some? && register.holder.value.owner == lease.runnerId && register.grants == lease.token
                && now < lease.expiresAt && lease.acquiredAt < now + duration && lease.acquiredAt < lease.expiresAt)
            && (r.Success? ==>
                  && r.value == TaskLease(lease.taskId, lease.runnerId, lease.token, lease.acquiredAt, now + duration)
                  && lease.taskId in w.rows
                  && next == w.rows[lease.taskId := w.rows[lease.taskId].(expiresAt := Some(now + duration))])
            && (r.Failure? ==> next == w.rows)
  {
    Row(duration, run, lease.taskId);
  }

  /** A first result is accepted exactly from the holder while its lease runs at the judged time; it closes the task. */
  lemma CompletedIff(duration: int, run: Run, receipt: Receipt, clocked: bool, now: int)
    requires 0 < duration && Monotone(duration, run)
    requires receipt.taskId in After(duration, run).rows && After(duration, run).rows[receipt.taskId].receipt.None?
    ensures var w := After(duration, run);
            var (next, r) := CompleteStep(w.rows, receipt, if clocked then now else receipt.completedAt);
            && (r.Success? <==>
                Holds(w, receipt.taskId, receipt.runnerId, receipt.token, if clocked then now else receipt.completedAt))
            && (r.Success? ==>
                  && r.value == receipt
                  && next == w.rows[receipt.taskId :=
                       w.rows[receipt.taskId].(state := Completed, receipt := Some(receipt), expiresAt := None)])
            && (r.Failure? ==> next == w.rows)
  {
    Row(duration, run, receipt.taskId);
  }

  /** A task is taken if it is due after its creation and its identifier is free; taking it again changes nothing. */
  lemma EnqueuedIff(duration: int, run: Run, task: Task)
    requires 0 < duration && Monotone(duration, run)
    ensures var w := After(duration, run); var (next, r) := EnqueueStep(w.rows, task);
            && (r.Success? <==> task.createdAt < task.deadline && (task.taskId in w.rows ==> w.rows[task.taskId].task == task))
            && (r.Success? ==> r.value == task)
            && (r.Success? && task.taskId !in w.rows ==>
                  && Abstract(Step(duration, w, EnqueueOp(task)), task.taskId).grants == 0
                  && next.Keys == w.rows.Keys + {task.taskId} && next[task.taskId].task == task
                  && next[task.taskId].state.Queued? && next[task.taskId].heartbeat.None? && next[task.taskId].receipt.None?
                  && forall k | k in w.rows :: next[k] == w.rows[k])
            && (r.Failure? || task.taskId in w.rows ==> next == w.rows)
  {
  }
}

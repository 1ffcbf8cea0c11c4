/**
 The runner registry and the task queue together: who may ever be granted a lease. They are two databases.
 An acquisition holds the queue's from its first read to its commit, but the registry's only while it asks.
 */
module Fleet {
  import opened Wrappers
  import R = RunnerRegistry
  import Q = TaskQueue
  import S = TaskQueueSafety

  /** An acquisition that has the registry's answer and has yet to commit. */
  datatype Acquisition = Acquisition(runnerId: string, answer: Q.Answer, now: int)

  datatype World = World(registry: R.State, queue: S.World, underWay: Option<Acquisition>)

  /** The answer carried by an acquisition made in one go is replaced by the one the registry gives at that moment. */
  datatype Op =
    | RegistryOp(registryOp: R.Op)
    | QueueOp(queueOp: S.Op)
    | BeginAcquire(runnerId: string, now: int)
    | EndAcquire(committed: bool)

  ghost function AnswerFor(registry: R.State, rows: Q.Rows, runnerId: string): Q.Answer {
    match Q.FirstQueued(rows)
    case None => Q.Failed
    case Some(id) =>
      if R.Authorized(registry, runnerId, rows[id].task.scope, rows[id].task.capability) then Q.Granted
      else Q.Denied
  }

  ghost function Answered(w: World, op: S.Op): S.Op {
    if op.AcquireOp? then S.AcquireOp(op.runnerId, AnswerFor(w.registry, w.queue.rows, op.runnerId), op.now)
    else op
  }

  function AcquireOf(a: Acquisition): S.Op {
    S.AcquireOp(a.runnerId, a.answer, a.now)
  }

  /** What a step does to the queue; while an acquisition is under way the rest of the queue waits. */
  ghost function Performed(w: World, op: Op): Option<S.Op> {
    match op
    case QueueOp(queueOp) => if w.underWay.Some? then None else Some(Answered(w, queueOp))
    case EndAcquire(committed) => if committed && w.underWay.Some? then Some(AcquireOf(w.underWay.value)) else None
    case _ => None
  }

  ghost function Step(duration: int, w: World, op: Op): World {
    World(
      if op.RegistryOp? then R.Step(w.registry, op.registryOp) else w.registry,
      if Performed(w, op).Some? then S.Step(duration, w.queue, Performed(w, op).value) else w.queue,
      match op
      case BeginAcquire(runnerId, now) =>
        if w.underWay.Some? then w.underWay
        else Some(Acquisition(runnerId, AnswerFor(w.registry, w.queue.rows, runnerId), now))
      case EndAcquire(_) => None
      case _ => w.underWay)
  }

  datatype Run = Begin(clock: int) | Do(prev: Run, op: Op)

  ghost function After(duration: int, run: Run): World {
    match run
    case Begin(clock) => World(R.EMPTY, S.World(map[], clock, S.Start), None)
    case Do(prev, op) => Step(duration, After(duration, prev), op)
  }

  ghost predicate Continues(earlier: Run, later: Run) {
    earlier == later || (later.Do? && Continues(earlier, later.prev))
  }

  /** The queue's own part of a run; every guarantee of the queue alone therefore holds here too. */
  ghost function QueueRun(duration: int, run: Run): S.Run {
    match run
    case Begin(clock) => S.Begin(clock)
    case Do(prev, op) =>
      var performed := Performed(After(duration, prev), op);
      if performed.None? then QueueRun(duration, prev) else S.Do(QueueRun(duration, prev), performed.value)
  }

  lemma {:induction false} QueueRunAfter(duration: int, run: Run)
    ensures S.After(duration, QueueRun(duration, run)) == After(duration, run).queue
  {
    if run.Do? {
      QueueRunAfter(duration, run.prev);
    }
  }

  /** The two halves of an acquisition with nothing in between are the acquisition. */
  lemma HalvesAreWhole(duration: int, w: World, runnerId: string, answer: Q.Answer, now: int)
    requires w.underWay.None?
    ensures Step(duration, Step(duration, w, BeginAcquire(runnerId, now)), EndAcquire(true))
         == Step(duration, w, QueueOp(S.AcquireOp(runnerId, answer, now)))
  {
  }

  ghost predicate Grants(duration: int, w: World, op: Op, lease: Q.TaskLease) {
    && Performed(w, op).Some?
    && S.EventOf(duration, w.queue.rows, Performed(w, op).value) == Some(S.LeaseGranted(lease))
  }

  /** The registry's answer is the one it gave when the acquisition began, and the queue has not changed since. */
  lemma {:induction false} BeganWith(duration: int, run: Run) returns (began: Run)
    requires After(duration, run).underWay.Some?
    ensures var a := After(duration, run).underWay.value; var w := After(duration, began);
            && Continues(began, run) && w.queue == After(duration, run).queue
            && a.answer == AnswerFor(w.registry, w.queue.rows, a.runnerId)
  {
    if After(duration, run.prev).underWay.Some? {
      began := BeganWith(duration, run.prev);
    } else {
      began := run.prev;
      assert Continues(began, run);
    }
  }

  /**
   Whoever is granted a lease was online, in exact scope and capable when its acquisition asked the registry,
   with the queue as it is at the grant; an acquisition made in one go asks at the grant itself.
   */
  lemma GrantWasAuthorized(duration: int, run: Run, op: Op, lease: Q.TaskLease)
    requires Grants(duration, After(duration, run), op, lease)
    ensures lease.taskId in After(duration, run).queue.rows
    ensures var task := After(duration, run).queue.rows[lease.taskId].task;
            && (op.QueueOp? ==> Q.MayRun(After(duration, run).registry.runners, lease.runnerId, task))
            && exists asked ::
                 && Continues(asked, run) && After(duration, asked).queue == After(duration, run).queue
                 && Q.MayRun(After(duration, asked).registry.runners, lease.runnerId, task)
  {
    if op.EndAcquire? {
      var asked := BeganWith(duration, run);
      assert Continues(asked, run);
    } else {
      assert Continues(run, run);
    }
  }

  /**
   While tokens last, the first queued task, not yet due, is leased to every runner that may take it, and any
   other is refused and changes nothing.
   */
  lemma OfferedToAnyoneFit(duration: int, w: World, runnerId: string, answer: Q.Answer, now: int, k: string)
    requires w.underWay.None? && S.ComesFirst(w.queue.rows, k)
    requires now < w.queue.rows[k].task.deadline && w.queue.rows[k].token < Q.MAX_TOKEN
    ensures var op := QueueOp(S.AcquireOp(runnerId, answer, now)); var row := w.queue.rows[k];
            if Q.MayRun(w.registry.runners, runnerId, row.task) then
              Grants(duration, w, op, Q.TaskLease(k, runnerId, row.token + 1, now, now + duration))
            else
              && Step(duration, w, op).queue.rows == w.queue.rows && Step(duration, w, op).queue.log == w.queue.log
              && Step(duration, w, op).registry == w.registry
              && Q.AcquireStep(w.queue.rows, runnerId, Performed(w, op).value.answer, now, duration).1 == Failure(Q.RunnerUnauthorized)
  {
    S.FirstIsFirstQueued(w.queue.rows, k);
    S.GrantedIff(w.queue.rows, runnerId, AnswerFor(w.registry, w.queue.rows, runnerId), now, duration, k);
  }

  ghost function GrantsTo(log: S.Log, runnerId: string): nat {
    if log.Start? then 0
    else
      GrantsTo(log.past, runnerId)
      + if log.event.LeaseGranted? && log.event.lease.runnerId == runnerId then 1 else 0
  }

  lemma {:induction false} RegistryInv(duration: int, run: Run)
    ensures R.Inv(After(duration, run).registry)
  {
    match run
    case Begin(_) =>
      assert R.Consumed(R.EMPTY) == {};
    case Do(prev, op) =>
      RegistryInv(duration, prev);
      if op.RegistryOp? {
        R.StepInv(After(duration, prev).registry, op.registryOp);
      }
  }

  /** In every state there are as many runners as consumed enrolment challenges. */
  lemma RunnersMatchConsumedChallenges(duration: int, run: Run)
    ensures |After(duration, run).registry.runners| == |R.Consumed(After(duration, run).registry)|
  {
    RegistryInv(duration, run);
  }

  // ---------------------------------------------------------------- revocation

  ghost predicate Revoked(registry: R.State, runnerId: string) {
    runnerId in registry.runners && registry.runners[runnerId].health.Revoked?
  }

  /** The acquisition under way is this runner's and will be granted a lease if it commits. */
  ghost predicate WouldGrant(duration: int, w: World, runnerId: string) {
    && w.underWay.Some? && w.underWay.value.runnerId == runnerId
    && var event := S.EventOf(duration, w.queue.rows, AcquireOf(w.underWay.value));
       event.Some? && event.value.LeaseGranted?
  }

  /** No acquisition has ended since. */
  ghost predicate NoneEnded(earlier: Run, later: Run) {
    earlier == later || (later.Do? && !later.op.EndAcquire? && NoneEnded(earlier, later.prev))
  }

  /** The first acquisition to end since has committed. */
  ghost predicate Committed(earlier: Run, later: Run) {
    && earlier != later && later.Do?
    && (Committed(earlier, later.prev) || (NoneEnded(earlier, later.prev) && later.op == EndAcquire(true)))
  }

  lemma DeniedGrantsNothing(duration: int, rows: Q.Rows, op: S.Op, runnerId: string)
    requires op.AcquireOp? && (op.runnerId != runnerId || !op.answer.Granted?)
    ensures var event := S.EventOf(duration, rows, op);
            event.Some? && event.value.LeaseGranted? ==> event.value.lease.runnerId != runnerId
  {
  }

  /** What holds after a revocation, beside the count: the acquisition under way then, and any begun since. */
  ghost predicate SinceRevoked(duration: int, earlier: Run, later: Run, runnerId: string) {
    var v, w := After(duration, earlier), After(duration, later);
    && Revoked(v.registry, runnerId) && Revoked(w.registry, runnerId)
    && w.registry.runners[runnerId] == v.registry.runners[runnerId]
    && if v.underWay.Some? && NoneEnded(earlier, later) then w.underWay == v.underWay && w.queue == v.queue
       else w.underWay.Some? && w.underWay.value.runnerId == runnerId ==> !w.underWay.value.answer.Granted?
  }

  lemma SinceRevokedStep(duration: int, earlier: Run, later: Run, runnerId: string)
    requires later.Do? && earlier != later && Continues(earlier, later.prev)
    requires SinceRevoked(duration, earlier, later.prev, runnerId) && R.Inv(After(duration, later.prev).registry)
    ensures SinceRevoked(duration, earlier, later, runnerId)
  {
    if later.op.RegistryOp? {
      R.StepEvolves(After(duration, later.prev).registry, later.op.registryOp);
    }
  }

  lemma {:induction false} NoneEndedNoneCommitted(earlier: Run, later: Run)
    requires NoneEnded(earlier, later)
    ensures !Committed(earlier, later)
  {
    if earlier != later {
      NoneEndedNoneCommitted(earlier, later.prev);
    }
  }

  lemma GrantsToStep(duration: int, w: World, op: Op, runnerId: string)
    ensures GrantsTo(Step(duration, w, op).queue.log, runnerId) == GrantsTo(w.queue.log, runnerId)
            + if exists lease :: Grants(duration, w, op, lease) && lease.runnerId == runnerId then 1 else 0
  {
    if Performed(w, op).Some? {
      var event := S.EventOf(duration, w.queue.rows, Performed(w, op).value);
      if event.Some? && event.value.LeaseGranted? {
        assert Grants(duration, w, op, event.value.lease);
      }
    }
  }

  /** Only the acquisition that was under way at the revocation can still be granted a lease. */
  lemma GrantSinceRevoked(duration: int, earlier: Run, later: Run, runnerId: string)
    requires later.Do? && SinceRevoked(duration, earlier, later.prev, runnerId)
    ensures (exists lease :: Grants(duration, After(duration, later.prev), later.op, lease) && lease.runnerId == runnerId)
            <==> WouldGrant(duration, After(duration, earlier), runnerId)
                 && NoneEnded(earlier, later.prev) && later.op == EndAcquire(true)
  {
    var v, w := After(duration, earlier), After(duration, later.prev);
    var performed := Performed(w, later.op);
    if v.underWay.Some? && NoneEnded(earlier, later.prev) {
      if later.op == EndAcquire(true) {
        var event := S.EventOf(duration, w.queue.rows, performed.value);
        if event.Some? && event.value.LeaseGranted? {
          assert Grants(duration, w, later.op, event.value.lease);
        }
      }
    } else if performed.Some? && performed.value.AcquireOp? {
      DeniedGrantsNothing(duration, w.queue.rows, performed.value, runnerId);
    }
  }

  /**
   Revocation is final but for the acquisition that has its answer already: the record never changes again,
   and the leases granted to the runner from then on are none, or one if and only if an acquisition of its own
   was under way with the registry's consent and commits.
   */
  lemma {:induction false} RevocationIsFinal(duration: int, earlier: Run, later: Run, runnerId: string)
    requires Continues(earlier, later) && Revoked(After(duration, earlier).registry, runnerId)
    ensures SinceRevoked(duration, earlier, later, runnerId)
    ensures Revoked(After(duration, later).registry, runnerId)
    ensures After(duration, later).registry.runners[runnerId] == After(duration, earlier).registry.runners[runnerId]
    ensures GrantsTo(After(duration, later).queue.log, runnerId) ==
            GrantsTo(After(duration, earlier).queue.log, runnerId)
            + if WouldGrant(duration, After(duration, earlier), runnerId) && Committed(earlier, later) then 1 else 0
  {
    hide Step, WouldGrant, Grants;
    if earlier != later {
      RevocationIsFinal(duration, earlier, later.prev, runnerId);
      RegistryInv(duration, later.prev);
      SinceRevokedStep(duration, earlier, later, runnerId);
      GrantsToStep(duration, After(duration, later.prev), later.op, runnerId);
      GrantSinceRevoked(duration, earlier, later, runnerId);
      if NoneEnded(earlier, later.prev) {
        NoneEndedNoneCommitted(earlier, later.prev);
      }
    }
  }

  /**
   That one lease is granted: whenever an acquisition would be granted now, revoking the runner between its
   two halves leaves the grant standing.
   */
  lemma RevokedWhileAcquiring(duration: int, run: Run, runnerId: string, answer: Q.Answer, now: int,
                              lease: Q.TaskLease, at: int)
    requires var w := After(duration, run);
             w.underWay.None? && Grants(duration, w, QueueOp(S.AcquireOp(runnerId, answer, now)), lease)
    ensures var scope := After(duration, run).queue.rows[lease.taskId].task.scope;
            var revoked := Do(Do(run, BeginAcquire(runnerId, now)), RegistryOp(R.HealthOp(runnerId, scope, R.Revoked, at)));
            && Revoked(After(duration, revoked).registry, runnerId)
            && Grants(duration, After(duration, revoked), EndAcquire(true), lease)
  {
    RegistryInv(duration, run);
  }

  /** A consumed challenge enrols nobody else, however the run continues. */
  lemma {:induction false} ChallengeEnrollsOnce(duration: int, earlier: Run, later: Run, challengeId: string,
                                                token: string, identity: R.Identity)
    requires Continues(earlier, later) && challengeId in R.Consumed(After(duration, earlier).registry)
    ensures challengeId in R.Consumed(After(duration, later).registry)
    ensures R.EnrollStep(After(duration, later).registry, challengeId, token, identity).1.Failure?
  {
    if earlier != later {
      ChallengeEnrollsOnce(duration, earlier, later.prev, challengeId, token, identity);
      if later.op.RegistryOp? {
        R.ChallengeUsedOnce(After(duration, later.prev).registry, later.op.registryOp, challengeId);
      }
    }
  }
}

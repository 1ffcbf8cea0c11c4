/**
 The attended-task store refines the same abstract fenced register as the runner queue, with its own
 way of granting again: a claim replaces an expired claim without a separate recovery step.
 */
module AttendedTasksSafety {
  import opened Wrappers
  import opened AttendedTasks
  import FencedRegister

  datatype Op =
    | CreateOp(task: Task)
    | ClaimOp(taskId: string, tenantId: string, environmentId: string, principal: string, now: int)
    | CompleteOp(lease: Lease, claims: Claims, rejected: bool, note: Option<string>, now: int)

  datatype Log = Start | Then(past: Log, lease: Lease)

  datatype World = World(records: Records, clock: int, log: Log)

  ghost function TimeOf(w: World, op: Op): int {
    if op.CreateOp? then w.clock else op.now
  }

  ghost function Claimed(duration: int, records: Records, op: Op): Result<Lease, Error>
    requires op.ClaimOp?
  {
    ClaimStep(records, op.taskId, op.tenantId, op.environmentId, op.principal, op.now, duration).1
  }

  ghost function Step(duration: int, w: World, op: Op): World {
    match op
    case CreateOp(task) => w.(records := CreateStep(w.records, task).0)
    case ClaimOp(taskId, tenantId, environmentId, principal, now) =>
      var (records, r) := ClaimStep(w.records, taskId, tenantId, environmentId, principal, now, duration);
      World(records, now, if r.Success? then Then(w.log, r.value) else w.log)
    case CompleteOp(lease, claims, rejected, note, now) =>
      World(CompleteStep(w.records, lease, claims, rejected, note, now).0, now, w.log)
  }

  datatype Run = Begin(clock: int) | Do(prev: Run, op: Op)

  ghost function After(duration: int, run: Run): World {
    match run
    case Begin(clock) => World(map[], clock, Start)
    case Do(prev, op) => Step(duration, After(duration, prev), op)
  }

  ghost predicate Monotone(duration: int, run: Run) {
    run.Do? ==>
      && Monotone(duration, run.prev)
      && After(duration, run.prev).clock <= TimeOf(After(duration, run.prev), run.op)
  }

  ghost predicate Continues(earlier: Run, later: Run) {
    earlier == later || (later.Do? && Continues(earlier, later.prev))
  }

  ghost function GrantCount(log: Log, k: string): nat {
    if log.Start? then 0
    else GrantCount(log.past, k) + if log.lease.taskId == k then 1 else 0
  }

  ghost function LeasesOf(log: Log, k: string): set<FencedRegister.Lease<string>> {
    if log.Start? then {}
    else if log.lease.taskId != k then LeasesOf(log.past, k)
    else
      LeasesOf(log.past, k)
      + {FencedRegister.Lease(log.lease.principal, log.lease.token, log.lease.expiresAt)}
  }

  ghost predicate RecordInv(k: string, record: Record, log: Log) {
    && record.task.taskId == k
    && record.token == GrantCount(log, k)
    && (record.status.Claimed? ==> 1 <= record.token && record.principal.Some?)
    && (record.expiresAt.Some? <==> record.status.Claimed?)
    && (record.completion.Some? <==> Terminal(record))
    && (Terminal(record) ==>
          && 1 <= record.token && record.principal == Some(record.completion.value.principal)
          && record.completion.value.token == record.token
          && record.completion.value.rejected == record.status.Rejected?
          && record.claims == Some(record.completion.value.claims) && record.note == record.completion.value.note)
  }

  ghost predicate TaskInv(w: World, k: string) {
    if k in w.records then RecordInv(k, w.records[k], w.log)
    else GrantCount(w.log, k) == 0 && LeasesOf(w.log, k) == {}
  }

  ghost function Abstract(w: World, k: string): FencedRegister.Register<string, Completion> {
    if k !in w.records then FencedRegister.Register(w.clock, 0, None, None, LeasesOf(w.log, k))
    else
      var record := w.records[k];
      FencedRegister.Register(
        w.clock,
        record.token,
        if record.status.Claimed? && record.principal.Some? && record.expiresAt.Some? then
          Some(FencedRegister.Holder(record.principal.value, record.expiresAt.value)) else None,
        if record.completion.Some? then
          Some(FencedRegister.Outcome(record.completion.value.principal, record.completion.value.token,
                                      record.completion.value))
        else None,
        LeasesOf(w.log, k))
  }

  ghost function ActionOn(duration: int, w: World, op: Op, k: string): FencedRegister.Label<string, Completion> {
    match op
    case CreateOp(task) => FencedRegister.Idle
    case ClaimOp(taskId, _, _, _, _) =>
      var r := Claimed(duration, w.records, op);
      if taskId != k || r.Failure? then FencedRegister.Idle
      else FencedRegister.Grant(r.value.principal, r.value.expiresAt)
    case CompleteOp(lease, claims, rejected, note, now) =>
      var r := CompleteStep(w.records, lease, claims, rejected, note, now).1;
      if lease.taskId != k || r.Failure? || Terminal(w.records[k]) then FencedRegister.Idle
      else
        FencedRegister.Finish(lease.principal, lease.token,
                              Completion(claims, note, rejected, lease.token, lease.principal))
  }

  /** Seen from one task, the operation is one permitted step of the register, and the record stays sound. */
  ghost predicate Simulated(duration: int, w: World, op: Op, k: string) {
    var act := ActionOn(duration, w, op, k);
    && TaskInv(Step(duration, w, op), k)
    && FencedRegister.Enabled(Abstract(w, k), TimeOf(w, op), act)
    && Abstract(Step(duration, w, op), k) == FencedRegister.Apply(Abstract(w, k), TimeOf(w, op), act)
  }

  lemma StepCreate(duration: int, w: World, op: Op, k: string)
    requires TaskInv(w, k) && op.CreateOp? && w.clock <= TimeOf(w, op)
    ensures Simulated(duration, w, op, k)
  {
  }

  lemma StepClaim(duration: int, w: World, op: Op, k: string)
    requires 0 < duration && TaskInv(w, k) && op.ClaimOp? && w.clock <= TimeOf(w, op)
    ensures Simulated(duration, w, op, k)
  {
  }

  lemma StepComplete(duration: int, w: World, op: Op, k: string)
    requires TaskInv(w, k) && op.CompleteOp? && w.clock <= TimeOf(w, op)
    ensures Simulated(duration, w, op, k)
  {
  }

  lemma StepOnTask(duration: int, w: World, op: Op, k: string)
    requires 0 < duration && TaskInv(w, k) && w.clock <= TimeOf(w, op)
    ensures Simulated(duration, w, op, k)
  {
    match op
    case CreateOp(_) => StepCreate(duration, w, op, k);
    case ClaimOp(_, _, _, _, _) => StepClaim(duration, w, op, k);
    case CompleteOp(_, _, _, _, _) => StepComplete(duration, w, op, k);
  }

  ghost function Project(duration: int, run: Run, k: string): FencedRegister.Behaviour<string, Completion> {
    match run
    case Begin(clock) => FencedRegister.Begin(clock)
    case Do(prev, op) =>
      var w := After(duration, prev);
      FencedRegister.Then(Project(duration, prev, k), TimeOf(w, op), ActionOn(duration, w, op, k))
  }

  /** Refinement: every run of the store is, for every task, a legal history of the fenced register. */
  lemma {:induction false} StoreRefinesRegister(duration: int, run: Run, k: string)
    requires 0 < duration && Monotone(duration, run)
    ensures FencedRegister.Legal(Project(duration, run, k)) && FencedRegister.OnTime(Project(duration, run, k))
    ensures FencedRegister.Final(Project(duration, run, k)) == Abstract(After(duration, run), k)
    ensures TaskInv(After(duration, run), k) && FencedRegister.Inv(Abstract(After(duration, run), k))
  {
    match run
    case Begin(clock) =>
    case Do(prev, op) =>
      StoreRefinesRegister(duration, prev, k);
      StepOnTask(duration, After(duration, prev), op, k);
      FencedRegister.BehaviourSafe(Project(duration, run, k));
  }

  ghost predicate Issued(w: World, lease: Lease) {
    FencedRegister.Lease(lease.principal, lease.token, lease.expiresAt) in LeasesOf(w.log, lease.taskId)
  }

  /** At no instant do two unexpired leases on a task disagree about its principal or its fencing token. */
  lemma AtMostOneHolder(duration: int, run: Run, a: Lease, b: Lease, instant: int)
    requires 0 < duration && Monotone(duration, run) && After(duration, run).clock <= instant
    requires Issued(After(duration, run), a) && Issued(After(duration, run), b) && a.taskId == b.taskId
    requires instant < a.expiresAt && instant < b.expiresAt
    ensures a.principal == b.principal && a.token == b.token == GrantCount(After(duration, run).log, a.taskId)
  {
    StoreRefinesRegister(duration, run, a.taskId);
    FencedRegister.OneLiveHolder(Abstract(After(duration, run), a.taskId),
      FencedRegister.Lease(a.principal, a.token, a.expiresAt),
      FencedRegister.Lease(b.principal, b.token, b.expiresAt), instant);
  }

  lemma TerminalStep(duration: int, w: World, op: Op, k: string)
    requires k in w.records && Terminal(w.records[k])
    ensures k in Step(duration, w, op).records && Step(duration, w, op).records[k] == w.records[k]
  {
  }

  /** Once terminal, a record never changes, whatever is called afterwards. */
  lemma {:induction false} TerminalForever(duration: int, earlier: Run, later: Run, k: string)
    requires Continues(earlier, later)
    requires k in After(duration, earlier).records && Terminal(After(duration, earlier).records[k])
    ensures k in After(duration, later).records
    ensures After(duration, later).records[k] == After(duration, earlier).records[k]
  {
    hide Step;
    if earlier != later {
      TerminalForever(duration, earlier, later.prev, k);
      TerminalStep(duration, After(duration, later.prev), later.op, k);
    }
  }

  /** What a completion was checked for when it was stored. */
  predicate Checked(record: Record) {
    Terminal(record) ==>
      && record.claims.Some? && |record.claims.value| <= 32
      && record.claims.value.Keys == (set name | name in record.task.requiredClaims)
      && (record.note.Some? ==> |record.note.value| <= 1024)
  }

  lemma StepChecked(duration: int, w: World, op: Op, k: string)
    requires k in w.records ==> Checked(w.records[k])
    ensures k in Step(duration, w, op).records ==> Checked(Step(duration, w, op).records[k])
  {
    match op
    case CreateOp(task) =>
    case ClaimOp(_, _, _, _, _) =>
    case CompleteOp(_, _, _, _, _) =>
  }

  lemma {:induction false} StoredIsChecked(duration: int, run: Run, k: string)
    requires k in After(duration, run).records
    ensures Checked(After(duration, run).records[k])
  {
    match run
    case Begin(clock) =>
    case Do(prev, op) =>
      if k in After(duration, prev).records {
        StoredIsChecked(duration, prev, k);
      }
      StepChecked(duration, After(duration, prev), op, k);
  }

  lemma TerminalAnswers(records: Records, lease: Lease, claims: Claims, rejected: bool, note: Option<string>, now: int, log: Log)
    requires InScope(records, lease.taskId, lease.tenantId, lease.environmentId)
    requires var stored := records[lease.taskId];
             Terminal(stored) && Checked(stored) && RecordInv(lease.taskId, stored, log)
    ensures var stored := records[lease.taskId];
            var (next, r) := CompleteStep(records, lease, claims, rejected, note, now);
            && next == records && (r.Success? ==> r.value == stored)
            && (r.Success? <==>
                  && ValidLease(lease) && stored.token == lease.token && stored.principal == Some(lease.principal)
                  && stored.claims == Some(claims) && stored.note == note && stored.status.Rejected? == rejected)
  {
    hide GrantCount, ValidLease, InScope;
  }

  /**
   A stored result is bound to the highest token and its holder; a completion returns it exactly when it
   has the same token, principal, verdict, claims and note, and any other completion in scope fails.
   */
  lemma ResultIsFinal(duration: int, run: Run, lease: Lease, claims: Claims, rejected: bool,
                      note: Option<string>, now: int)
    requires 0 < duration && Monotone(duration, run)
    requires InScope(After(duration, run).records, lease.taskId, lease.tenantId, lease.environmentId)
    requires Terminal(After(duration, run).records[lease.taskId])
    ensures var w := After(duration, run);
            var stored := w.records[lease.taskId];
            var (records, r) := CompleteStep(w.records, lease, claims, rejected, note, now);
            && stored.token == GrantCount(w.log, lease.taskId)
            && (forall l | l in LeasesOf(w.log, lease.taskId) && l.token == stored.token ::
                  stored.principal == Some(l.owner))
            && records == w.records
            && (r.Success? ==> r.value == stored)
            && (r.Success? <==>
                  && ValidLease(lease) && stored.token == lease.token && stored.principal == Some(lease.principal)
                  && stored.claims == Some(claims) && stored.note == note && stored.status.Rejected? == rejected)
  {
    hide After, GrantCount, LeasesOf, FencedRegister.Legal, CompleteStep, Checked, ValidLease;
    var w := After(duration, run);
    StoredIsChecked(duration, run, lease.taskId);
    StoreRefinesRegister(duration, run, lease.taskId);
    TerminalAnswers(w.records, lease, claims, rejected, note, now, w.log);
    var r := Abstract(w, lease.taskId);
    forall l | l in LeasesOf(w.log, lease.taskId) && l.token == r.outcome.value.token
      ensures l.owner == r.outcome.value.owner
    {
      FencedRegister.ResultBoundToLastGrant(r, l);
    }
  }

  /** Replaying the very call that stored the result returns the stored record, at any later time. */
  lemma ReplayReturnsResult(duration: int, run: Run, later: Run, op: Op, now: int)
    requires op.CompleteOp? && Continues(Do(run, op), later)
    requires CompleteStep(After(duration, run).records, op.lease, op.claims, op.rejected, op.note, op.now).1.Success?
    requires 0 < duration && Monotone(duration, Do(run, op))
    ensures var stored := CompleteStep(After(duration, run).records, op.lease, op.claims, op.rejected, op.note, op.now).1;
            CompleteStep(After(duration, later).records, op.lease, op.claims, op.rejected, op.note, now)
            == (After(duration, later).records, stored)
  {
    var done := Do(run, op);
    StoreRefinesRegister(duration, run, op.lease.taskId);
    TerminalForever(duration, done, later, op.lease.taskId);
  }
}

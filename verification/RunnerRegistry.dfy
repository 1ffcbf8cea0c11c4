/**
 The registry of enrolled private runners: one-time enrolment challenges, health and revocation.
 A token digest is modelled by the token it is the digest of, because the digest is collision-free.
 */
module RunnerRegistry {
  import opened Wrappers

  datatype Health = Online | Offline | Revoked

  datatype Scope = Scope(tenantId: string, environmentId: string, runnerPool: string)

  datatype Challenge = Challenge(scope: Scope, token: string, expiresAt: int, consumedAt: Option<int>)

  datatype Identity = Identity(
    runnerId: string, scope: Scope, publicKey: string, capabilities: seq<string>, enrolledAt: int)

  datatype Runner = Runner(
    identity: Identity, health: Health, lastHeartbeatAt: Option<int>, revokedAt: Option<int>)

  datatype Error =
    | TtlOutOfBounds | Unavailable
    | ChallengeUnknown | ScopeMismatch | TokenUsed | TokenExpired | TokenInvalid
    | IdentityInvalid | IdentityConflict
    | RunnerNotFound | RunnerRevoked | HeartbeatPrecedesEnrollment

  datatype State = State(challenges: map<string, Challenge>, runners: map<string, Runner>)

  const EMPTY := State(map[], map[])

  predicate NoDuplicates(names: seq<string>) {
    forall i, j | 0 <= i < j < |names| :: names[i] != names[j]
  }

  predicate ValidIdentity(identity: Identity) {
    1 <= |identity.capabilities| <= 64 && NoDuplicates(identity.capabilities)
  }

  // ---------------------------------------------------------------- what each operation does

  ghost function IssueStep(s: State, id: string, token: string, scope: Scope, ttl: int, now: int)
    : (State, Result<Challenge, Error>)
  {
    if !(1 <= ttl <= 3600) then (s, Failure(TtlOutOfBounds))
    else if id in s.challenges then (s, Failure(Unavailable))
    else
      var challenge := Challenge(scope, token, now + ttl * 1_000_000, None);
      (s.(challenges := s.challenges[id := challenge]), Success(challenge))
  }

  ghost function EnrollStep(s: State, challengeId: string, token: string, identity: Identity)
    : (State, Result<Identity, Error>)
  {
    if challengeId !in s.challenges then (s, Failure(ChallengeUnknown))
    else
      var challenge := s.challenges[challengeId];
      if challenge.scope != identity.scope then (s, Failure(ScopeMismatch))
      else if challenge.consumedAt.Some? then (s, Failure(TokenUsed))
      else if challenge.expiresAt <= identity.enrolledAt then (s, Failure(TokenExpired))
      else if challenge.token != token then (s, Failure(TokenInvalid))
      else if !ValidIdentity(identity) then (s, Failure(IdentityInvalid))
      else if identity.runnerId in s.runners then (s, Failure(IdentityConflict))
      else
        (State(
           s.challenges[challengeId := challenge.(consumedAt := Some(identity.enrolledAt))],
           s.runners[identity.runnerId := Runner(identity, Online, None, None)]),
         Success(identity))
  }

  predicate InScope(s: State, runnerId: string, scope: Scope) {
    runnerId in s.runners && s.runners[runnerId].identity.scope == scope
  }

  predicate Authorized(s: State, runnerId: string, scope: Scope, capability: string) {
    && InScope(s, runnerId, scope)
    && s.runners[runnerId].health.Online?
    && capability in s.runners[runnerId].identity.capabilities
  }

  ghost function HealthStep(s: State, runnerId: string, scope: Scope, health: Health, now: int)
    : (State, Result<Runner, Error>)
  {
    if !InScope(s, runnerId, scope) then (s, Failure(RunnerNotFound))
    else
      var current := s.runners[runnerId];
      if current.health.Revoked? && !health.Revoked? then (s, Failure(RunnerRevoked))
      else if current.health.Revoked? then (s, Success(current))
      else
        var beat := if health.Online? then Some(now) else current.lastHeartbeatAt;
        if beat.Some? && beat.value < current.identity.enrolledAt then
          (s, Failure(HeartbeatPrecedesEnrollment))
        else
          var changed := Runner(current.identity, health, beat, if health.Revoked? then Some(now) else None);
          (s.(runners := s.runners[runnerId := changed]), Success(changed))
  }

  // ---------------------------------------------------------------- the store itself

  class SQLiteRunnerRegistry {
    var challenges: map<string, Challenge>
    var runners: map<string, Runner>

    ghost function Contents(): State
      reads this
    {
      State(challenges, runners)
    }

    constructor ()
      ensures Contents() == EMPTY
    {
      challenges, runners := map[], map[];
    }

    /** `id` and `token` are the random values the original draws. */
    method IssueChallenge(id: string, token: string, scope: Scope, ttl: int, now: int)
      returns (r: Result<Challenge, Error>)
      modifies this`challenges
      ensures (Contents(), r) == IssueStep(old(Contents()), id, token, scope, ttl, now)
    {
      if ttl < 1 || 3600 < ttl {
        return Failure(TtlOutOfBounds);
      }
      if id in challenges {
        return Failure(Unavailable);
      }
      var challenge := Challenge(scope, token, now + ttl * 1_000_000, None);
      challenges := challenges[id := challenge];
      return Success(challenge);
    }

    predicate Authorize(runnerId: string, scope: Scope, capability: string)
      reads this
      ensures Authorize(runnerId, scope, capability) == Authorized(Contents(), runnerId, scope, capability)
    {
      && runnerId in runners
      && var record := runners[runnerId];
      && record.identity.scope == scope
      && record.health.Online?
      && capability in record.identity.capabilities
    }

    method Enroll(challengeId: string, token: string, identity: Identity) returns (r: Result<Identity, Error>)
      modifies this
      ensures (Contents(), r) == EnrollStep(old(Contents()), challengeId, token, identity)
    {
      if challengeId !in challenges {
        return Failure(ChallengeUnknown);
      }
      var challenge := challenges[challengeId];
      if challenge.scope != identity.scope {
        return Failure(ScopeMismatch);
      }
      if challenge.consumedAt.Some? {
        return Failure(TokenUsed);
      }
      if challenge.expiresAt <= identity.enrolledAt {
        return Failure(TokenExpired);
      }
      if challenge.token != token {
        return Failure(TokenInvalid);
      }
      if !ValidIdentity(identity) {
        return Failure(IdentityInvalid);
      }
      if identity.runnerId in runners {
        return Failure(IdentityConflict);
      }
      runners := runners[identity.runnerId := Runner(identity, Online, None, None)];
      challenges := challenges[challengeId := challenge.(consumedAt := Some(identity.enrolledAt))];
      return Success(identity);
    }

    method SetHealth(runnerId: string, scope: Scope, health: Health, now: int) returns (r: Result<Runner, Error>)
      modifies this`runners
      ensures (Contents(), r) == HealthStep(old(Contents()), runnerId, scope, health, now)
    {
      if runnerId !in runners || runners[runnerId].identity.scope != scope {
        return Failure(RunnerNotFound);
      }
      var current := runners[runnerId];
      if current.health == Revoked && health != Revoked {
        return Failure(RunnerRevoked);
      }
      if current.health == Revoked {
        return Success(current);
      }
      var beat := current.lastHeartbeatAt;
      if health == Online {
        beat := Some(now);
      }
      if beat.Some? && beat.value < current.identity.enrolledAt {
        return Failure(HeartbeatPrecedesEnrollment);
      }
      var changed := Runner(current.identity, health, beat, if health == Revoked then Some(now) else None);
      runners := runners[runnerId := changed];
      return Success(changed);
    }
  }

  // ---------------------------------------------------------------- runs

  datatype Op =
    | IssueOp(id: string, token: string, scope: Scope, ttl: int, now: int)
    | EnrollOp(challengeId: string, token: string, identity: Identity)
    | HealthOp(runnerId: string, scope: Scope, health: Health, now: int)

  ghost function Step(s: State, op: Op): State {
    match op
    case IssueOp(id, token, scope, ttl, now) => IssueStep(s, id, token, scope, ttl, now).0
    case EnrollOp(challengeId, token, identity) => EnrollStep(s, challengeId, token, identity).0
    case HealthOp(runnerId, scope, health, now) => HealthStep(s, runnerId, scope, health, now).0
  }

  ghost function Consumed(s: State): set<string> {
    set id | id in s.challenges && s.challenges[id].consumedAt.Some?
  }

  ghost predicate RecordOk(id: string, runner: Runner) {
    && runner.identity.runnerId == id && (runner.health.Revoked? <==> runner.revokedAt.Some?)
    && (runner.lastHeartbeatAt.Some? ==> runner.identity.enrolledAt <= runner.lastHeartbeatAt.value)
  }

  ghost predicate Inv(s: State) {
    && |s.runners| == |Consumed(s)|
    && forall id | id in s.runners :: RecordOk(id, s.runners[id])
  }

  lemma IssueConsumesNone(s: State, id: string, token: string, scope: Scope, ttl: int, now: int)
    ensures Consumed(IssueStep(s, id, token, scope, ttl, now).0) == Consumed(s)
    ensures IssueStep(s, id, token, scope, ttl, now).0.runners == s.runners
  {}

  lemma EnrollConsumesOne(s: State, challengeId: string, token: string, identity: Identity)
    ensures var (t, r) := EnrollStep(s, challengeId, token, identity);
            r.Success? ==>
              && challengeId !in Consumed(s) && Consumed(t) == Consumed(s) + {challengeId}
              && identity.runnerId !in s.runners && t.runners.Keys == s.runners.Keys + {identity.runnerId}
    ensures var (t, r) := EnrollStep(s, challengeId, token, identity); r.Failure? ==> t == s
  {}

  lemma SameKeysSameSize(s: State, t: State)
    requires s.runners.Keys == t.runners.Keys
    ensures |s.runners| == |t.runners|
  {
    assert |s.runners| == |s.runners.Keys| && |t.runners| == |t.runners.Keys|;
  }

  lemma OneMoreKey(s: State, t: State, id: string)
    requires id !in s.runners && t.runners.Keys == s.runners.Keys + {id}
    ensures |t.runners| == |s.runners| + 1
  {
    assert |s.runners| == |s.runners.Keys| && |t.runners| == |t.runners.Keys|;
  }

  /** Every enrolment consumes exactly one challenge, so runners and consumed challenges stay equal in number. */
  lemma StepKeepsCount(s: State, op: Op)
    requires |s.runners| == |Consumed(s)|
    ensures |Step(s, op).runners| == |Consumed(Step(s, op))|
  {
    hide IssueStep, EnrollStep, HealthStep, Consumed;
    match op
    case IssueOp(id, token, scope, ttl, now) =>
      IssueConsumesNone(s, id, token, scope, ttl, now);
    case EnrollOp(challengeId, token, identity) =>
      EnrollConsumesOne(s, challengeId, token, identity);
      var (t, r) := EnrollStep(s, challengeId, token, identity);
      if r.Success? {
        OneMoreKey(s, t, identity.runnerId);
      }
    case HealthOp(runnerId, scope, health, now) =>
      HealthChangesOneRecord(s, runnerId, scope, health, now);
      SameKeysSameSize(s, Step(s, op));
  }

  lemma HealthChangesOneRecord(s: State, runnerId: string, scope: Scope, health: Health, now: int)
    ensures var t := HealthStep(s, runnerId, scope, health, now).0;
            && t.challenges == s.challenges && Consumed(t) == Consumed(s)
            && t.runners.Keys == s.runners.Keys
            && forall id | id in s.runners && id != runnerId :: t.runners[id] == s.runners[id]
  {}

  lemma StepKeepsRecords(s: State, op: Op)
    requires forall id | id in s.runners :: RecordOk(id, s.runners[id])
    ensures forall id | id in Step(s, op).runners :: RecordOk(id, Step(s, op).runners[id])
  {}

  lemma StepInv(s: State, op: Op)
    requires Inv(s)
    ensures Inv(Step(s, op))
  {
    StepKeepsCount(s, op);
    StepKeepsRecords(s, op);
  }

  /** A challenge, once consumed, stays consumed and refuses every later enrolment. */
  lemma ChallengeUsedOnce(s: State, op: Op, challengeId: string)
    requires challengeId in Consumed(s)
    ensures challengeId in Consumed(Step(s, op))
    ensures op.EnrollOp? && op.challengeId == challengeId ==>
              EnrollStep(s, op.challengeId, op.token, op.identity).1.Failure? && Step(s, op) == s
  {}

  /** Revocation and enrolled identity are final. */
  ghost predicate Evolves(s: State, t: State) {
    forall id | id in s.runners ::
      && id in t.runners
      && t.runners[id].identity == s.runners[id].identity
      && (s.runners[id].health.Revoked? ==> t.runners[id] == s.runners[id])
  }

  lemma StepEvolves(s: State, op: Op)
    requires Inv(s)
    ensures Evolves(s, Step(s, op))
  {}

  /** A revoked runner is authorized for nothing, whatever scope or capability is asked for. */
  lemma RevokedNeverAuthorized(s: State, t: State, runnerId: string, scope: Scope, capability: string)
    requires Evolves(s, t) && runnerId in s.runners && s.runners[runnerId].health.Revoked?
    ensures !Authorized(t, runnerId, scope, capability)
  {}
}

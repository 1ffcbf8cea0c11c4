/** What the runner registry answers, and what every enrolled runner has behind it. */
module RunnerRegistryAnswers {
  import opened Wrappers
  import opened RunnerRegistry

  datatype Run = Begin | Do(prev: Run, op: Op)

  ghost function After(run: Run): State {
    match run
    case Begin => State(map[], map[])
    case Do(prev, op) => Step(After(prev), op)
  }

  const MAX_TTL_SECONDS := 3600
  const MAX_CAPABILITIES := 64

  /** A challenge is issued exactly for a lifetime between a second and an hour under a free identifier. */
  lemma IssuedIff(s: State, id: string, token: string, scope: Scope, ttl: int, now: int)
    ensures var (t, r) := IssueStep(s, id, token, scope, ttl, now);
            && (r.Success? <==> 1 <= ttl <= MAX_TTL_SECONDS && id !in s.challenges)
            && (r.Success? ==>
                  && r.value == Challenge(scope, token, now + ttl * 1_000_000, None)
                  && t.runners == s.runners && t.challenges == s.challenges[id := r.value])
            && (r.Failure? ==> t == s)
  {}

  /** The challenge admits this identity: its scope, its token, unused and in time. */
  ghost predicate Admits(s: State, challengeId: string, token: string, identity: Identity) {
    && challengeId in s.challenges
    && s.challenges[challengeId].scope == identity.scope && s.challenges[challengeId].token == token
    && s.challenges[challengeId].consumedAt.None? && identity.enrolledAt < s.challenges[challengeId].expiresAt
  }

  predicate WellFormed(identity: Identity) {
    && 1 <= |identity.capabilities| <= MAX_CAPABILITIES
    && forall i, j | 0 <= i < j < |identity.capabilities| :: identity.capabilities[i] != identity.capabilities[j]
  }

  /** A runner is enrolled exactly by a challenge that admits it, once; it is then online and the challenge is spent. */
  lemma EnrolledIff(s: State, challengeId: string, token: string, identity: Identity)
    ensures var (t, r) := EnrollStep(s, challengeId, token, identity);
            && (r.Success? <==>
                Admits(s, challengeId, token, identity) && WellFormed(identity) && identity.runnerId !in s.runners)
            && (r.Success? ==>
                  && r.value == identity
                  && t.runners == s.runners[identity.runnerId := Runner(identity, Online, None, None)]
                  && t.challenges == s.challenges[challengeId := s.challenges[challengeId].(consumedAt := Some(identity.enrolledAt))])
            && (r.Failure? ==> t == s)
  {}

  /** A report is taken exactly from an enrolled runner in its own scope, and from a revoked one only its revocation again. */
  lemma ReportedIff(run: Run, runnerId: string, scope: Scope, health: Health, now: int)
    ensures var s := After(run); var (t, r) := HealthStep(s, runnerId, scope, health, now);
            && (r.Success? <==>
                && runnerId in s.runners && s.runners[runnerId].identity.scope == scope
                && (s.runners[runnerId].health == Revoked ==> health == Revoked)
                && (health == Online ==> s.runners[runnerId].identity.enrolledAt <= now))
            && (r.Success? ==>
                  && t.challenges == s.challenges && t.runners == s.runners[runnerId := r.value]
                  && r.value.identity == s.runners[runnerId].identity && r.value.health == health
                  && (s.runners[runnerId].health == Revoked ==> r.value == s.runners[runnerId])
                  && (s.runners[runnerId].health != Revoked ==>
                        && r.value.lastHeartbeatAt == (if health == Online then Some(now) else s.runners[runnerId].lastHeartbeatAt)
                        && r.value.revokedAt == (if health == Revoked then Some(now) else None)))
            && (r.Failure? ==> t == s)
  {
    RunInv(run);
  }

  lemma {:induction false} RunInv(run: Run)
    ensures Inv(After(run))
  {
    if run.Do? {
      RunInv(run.prev);
      StepInv(After(run.prev), run.op);
    } else {
      assert Consumed(After(run)) == {};
    }
  }

  /** A runner may be given work exactly if it is enrolled in that scope, online, and has the capability. */
  lemma AuthorizedIff(s: State, runnerId: string, scope: Scope, capability: string)
    ensures Authorized(s, runnerId, scope, capability) <==>
              exists runner :: runnerId in s.runners && runner == s.runners[runnerId] && runner.identity.scope == scope
                && runner.health == Online && exists i :: 0 <= i < |runner.identity.capabilities| && runner.identity.capabilities[i] == capability
  {}

  // ---------------------------------------------------------------- where runners come from

  /** Some operation of the run issued this challenge. */
  ghost predicate IssuedIn(run: Run, id: string, challenge: Challenge) {
    && run.Do?
    && (IssuedIn(run.prev, id, challenge)
        || (&& run.op.IssueOp? && run.op.id == id && 1 <= run.op.ttl <= MAX_TTL_SECONDS && id !in After(run.prev).challenges
            && challenge == Challenge(run.op.scope, run.op.token, run.op.now + run.op.ttl * 1_000_000, None)))
  }

  lemma {:induction false} ChallengesWereIssued(run: Run, id: string)
    requires id in After(run).challenges
    ensures IssuedIn(run, id, After(run).challenges[id].(consumedAt := None))
  {
    if run.Do? {
      var s := After(run.prev);
      if id in s.challenges {
        ChallengesWereIssued(run.prev, id);
        StepKeepsChallenge(s, run.op, id);
      }
    }
  }

  lemma StepKeepsChallenge(s: State, op: Op, id: string)
    requires id in s.challenges
    ensures id in Step(s, op).challenges
    ensures Step(s, op).challenges[id].(consumedAt := None) == s.challenges[id].(consumedAt := None)
  {}

  /** The runner was enrolled in this run with a challenge issued in it: for its scope, by its token, in time. */
  ghost predicate Invited(run: Run, identity: Identity) {
    && run.Do?
    && (Invited(run.prev, identity)
        || (&& run.op.EnrollOp? && run.op.identity == identity
            && exists challenge :: && IssuedIn(run.prev, run.op.challengeId, challenge)
                                   && challenge.scope == identity.scope && challenge.token == run.op.token
                                   && identity.enrolledAt < challenge.expiresAt))
  }

  /** Every runner of every run was invited in it. */
  lemma {:induction false} EveryRunnerWasInvited(run: Run, runnerId: string)
    requires runnerId in After(run).runners
    ensures Invited(run, After(run).runners[runnerId].identity)
  {
    hide IssuedIn;
    if run.Do? {
      var s := After(run.prev);
      RunInv(run.prev);
      if runnerId in s.runners {
        EveryRunnerWasInvited(run.prev, runnerId);
        StepEvolves(s, run.op);
      } else {
        var challenge := s.challenges[run.op.challengeId].(consumedAt := None);
        ChallengesWereIssued(run.prev, run.op.challengeId);
        assert IssuedIn(run.prev, run.op.challengeId, challenge);
      }
    }
  }
}

/**
 The abstract protocol behind both lease stores: a register that hands a task to one holder at a
 time, numbers the grants with a fencing token, and accepts at most one result.
 */
module FencedRegister {
  import opened Wrappers

  datatype Holder<O> = Holder(owner: O, until: int)

  datatype Outcome<O, V> = Outcome(owner: O, token: int, value: V)

  /** What a client was handed: it may believe it holds the task while `until` lies in the future. */
  datatype Lease<O> = Lease(owner: O, token: int, until: int)

  datatype Register<O(==), V> = Register(
    clock: int,
    grants: nat,
    holder: Option<Holder<O>>,
    outcome: Option<Outcome<O, V>>,
    leases: set<Lease<O>>)

  datatype Label<O, V> =
    | Grant(owner: O, until: int)
    | Extend(until: int)
    | Lapse
    | Finish(owner: O, token: int, value: V)
    | FinishLate(owner: O, token: int, value: V)
    | Idle

  /**
   A result is taken from the current holder only. A late one comes after its lease ran out but before
   anybody else was let in: the holder's place has neither lapsed nor been granted again.
   */
  ghost predicate Enabled<O, V>(r: Register<O, V>, now: int, act: Label<O, V>) {
    && r.clock <= now
    && match act
       case Grant(owner, until) =>
         r.outcome.None? && (r.holder.None? || r.holder.value.until <= now)
       case Extend(until) =>
         r.holder.Some? && r.holder.value.until <= until
       case Lapse =>
         r.holder.Some? && r.holder.value.until <= now
       case Finish(owner, token, value) =>
         r.holder.Some? && now < r.holder.value.until && owner == r.holder.value.owner && token == r.grants
       case FinishLate(owner, token, value) =>
         r.holder.Some? && r.holder.value.until <= now && owner == r.holder.value.owner && token == r.grants
       case Idle => true
  }

  ghost function Apply<O, V>(r: Register<O, V>, now: int, act: Label<O, V>): Register<O, V>
    requires Enabled(r, now, act)
  {
    var r := r.(clock := now);
    match act
    case Grant(owner, until) =>
      r.(grants := r.grants + 1, holder := Some(Holder(owner, until)),
         leases := r.leases + {Lease(owner, r.grants + 1, until)})
    case Extend(until) =>
      r.(holder := Some(Holder(r.holder.value.owner, until)),
         leases := r.leases + {Lease(r.holder.value.owner, r.grants, until)})
    case Lapse => r.(holder := None)
    case Finish(owner, token, value) =>
      r.(holder := None, outcome := Some(Outcome(owner, token, value)))
    case FinishLate(owner, token, value) =>
      r.(holder := None, outcome := Some(Outcome(owner, token, value)))
    case Idle => r
  }

  /** The initial register of a task nobody has asked for yet. */
  ghost function Fresh<O, V>(clock: int): Register<O, V> {
    Register(clock, 0, None, None, {})
  }

  ghost predicate Inv<O, V>(r: Register<O, V>) {
    && (r.holder.Some? ==> r.grants >= 1 && r.outcome.None?)
    && (r.outcome.Some? ==> r.grants >= 1 && r.outcome.value.token == r.grants)
    && (forall l | l in r.leases :: 1 <= l.token <= r.grants)
    && (forall l | l in r.leases && l.token == r.grants ::
          && (r.holder.Some? ==> l.owner == r.holder.value.owner && l.until <= r.holder.value.until)
          && (r.outcome.Some? ==> l.owner == r.outcome.value.owner))
    && (forall l | l in r.leases && r.clock < l.until ::
          l.token == r.grants && (r.holder.Some? || r.outcome.Some?))
  }

  lemma FreshInv<O, V>(clock: int)
    ensures Inv(Fresh<O, V>(clock))
  {}

  lemma StepInv<O, V>(r: Register<O, V>, now: int, act: Label<O, V>)
    requires Inv(r) && Enabled(r, now, act)
    ensures Inv(Apply(r, now, act))
  {}

  /** How a register may change over any number of steps. */
  ghost predicate Evolves<O, V>(r: Register<O, V>, s: Register<O, V>) {
    && r.clock <= s.clock
    && r.grants <= s.grants
    && r.leases <= s.leases
    && (r.outcome.Some? ==> s.outcome == r.outcome && s.grants == r.grants)
  }

  lemma StepEvolves<O, V>(r: Register<O, V>, now: int, act: Label<O, V>)
    requires Inv(r) && Enabled(r, now, act)
    ensures Evolves(r, Apply(r, now, act))
  {}

  /** Mutual exclusion: at no instant do two clients hold unexpired leases of different grants. */
  lemma OneLiveHolder<O, V>(r: Register<O, V>, a: Lease<O>, b: Lease<O>, instant: int)
    requires Inv(r) && r.clock <= instant
    requires a in r.leases && b in r.leases && instant < a.until && instant < b.until
    ensures a.owner == b.owner && a.token == b.token == r.grants
  {}

  /** The result belongs to the highest token ever granted, and to the client holding that token. */
  lemma ResultBoundToLastGrant<O, V>(r: Register<O, V>, l: Lease<O>)
    requires Inv(r) && r.outcome.Some? && l in r.leases
    ensures l.token <= r.outcome.value.token
    ensures l.token == r.outcome.value.token ==> l.owner == r.outcome.value.owner
  {}

  /** A history of the register, oldest step innermost. */
  datatype Behaviour<O, V> = Begin(clock: int) | Then(prev: Behaviour<O, V>, now: int, act: Label<O, V>)

  ghost predicate Legal<O, V>(b: Behaviour<O, V>)
    decreases b, 0
  {
    b.Then? ==> Legal(b.prev) && Enabled(Final(b.prev), b.now, b.act)
  }

  ghost function Final<O, V>(b: Behaviour<O, V>): Register<O, V>
    requires Legal(b)
    decreases b, 1
  {
    match b
    case Begin(clock) => Fresh(clock)
    case Then(prev, now, act) => Apply(Final(prev), now, act)
  }

  ghost function GrantCount<O, V>(b: Behaviour<O, V>): nat {
    match b
    case Begin(_) => 0
    case Then(prev, _, act) => GrantCount(prev) + if act.Grant? then 1 else 0
  }

  ghost function FinishCount<O, V>(b: Behaviour<O, V>): nat {
    match b
    case Begin(_) => 0
    case Then(prev, _, act) => FinishCount(prev) + if act.Finish? || act.FinishLate? then 1 else 0
  }

  /** No result came after its lease had run out. */
  ghost predicate OnTime<O, V>(b: Behaviour<O, V>) {
    b.Then? ==> OnTime(b.prev) && !b.act.FinishLate?
  }

  /** Every history keeps the invariant; the token counts the grants; at most one result is taken. */
  lemma {:induction false} BehaviourSafe<O, V>(b: Behaviour<O, V>)
    requires Legal(b)
    ensures Inv(Final(b))
    ensures Final(b).grants == GrantCount(b)
    ensures FinishCount(b) == if Final(b).outcome.Some? then 1 else 0
  {
    match b
    case Begin(clock) => FreshInv<O, V>(clock);
    case Then(prev, now, act) =>
      BehaviourSafe(prev);
      StepInv(Final(prev), now, act);
  }

  ghost predicate Prefix<O, V>(a: Behaviour<O, V>, b: Behaviour<O, V>) {
    a == b || (b.Then? && Prefix(a, b.prev))
  }

  /** Once a result is in, no continuation of the history changes it or grants the task again. */
  lemma {:induction false} PrefixEvolves<O, V>(a: Behaviour<O, V>, b: Behaviour<O, V>)
    requires Legal(b) && Prefix(a, b)
    ensures Legal(a) && Evolves(Final(a), Final(b))
  {
    if a != b {
      PrefixEvolves(a, b.prev);
      BehaviourSafe(b.prev);
      StepEvolves(Final(b.prev), b.now, b.act);
    }
  }
}

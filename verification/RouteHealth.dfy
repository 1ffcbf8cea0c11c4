/**
 The append-only route outcome log and the health derived from it: a window of the newest outcomes,
 success counts, the nearest-rank 95th percentile and the circuit.
 */
module RouteHealth {
  import opened Wrappers
  import Routing
  import Sorting
  import Text

  datatype Kind = Succeeded | RetryableFailure | TerminalFailure

  datatype Outcome = Outcome(
    tenantId: string, eventId: string, candidateId: string,
    kind: Kind, latency: int, occurredAt: int, content: string)
  {
    predicate Valid() {
      0 <= latency <= Routing.MAX_LATENCY_MS
    }
  }

  datatype Error = OutcomeConflict

  // ---------------------------------------------------------------- the log

  /** The row with the log's primary key, tenant and event. */
  function Lookup(rows: seq<Outcome>, tenantId: string, eventId: string): (r: Option<Outcome>)
    ensures r.Some? ==> r.value in rows && r.value.tenantId == tenantId && r.value.eventId == eventId
    ensures r.None? ==> forall x | x in rows :: x.tenantId != tenantId || x.eventId != eventId
  {
    if rows == [] then None
    else if rows[0].tenantId == tenantId && rows[0].eventId == eventId then Some(rows[0])
    else Lookup(rows[1..], tenantId, eventId)
  }

  ghost function AppendStep(rows: seq<Outcome>, outcome: Outcome): (seq<Outcome>, Result<Outcome, Error>) {
    match Lookup(rows, outcome.tenantId, outcome.eventId)
    case Some(stored) => (rows, if stored != outcome then Failure(OutcomeConflict) else Success(stored))
    case None => (rows + [outcome], Success(outcome))
  }

  /** `ORDER BY occurred_at DESC, event_id DESC`. */
  predicate NewestFirst(a: Outcome, b: Outcome) {
    if a.occurredAt != b.occurredAt then a.occurredAt > b.occurredAt else Text.Leq(b.eventId, a.eventId)
  }

  function Concerning(rows: seq<Outcome>, tenantId: string, candidateId: string): seq<Outcome> {
    Sorting.Filter((x: Outcome) => x.tenantId == tenantId && x.candidateId == candidateId, rows)
  }

  function Window(rows: seq<Outcome>, tenantId: string, candidateId: string, limit: int): seq<Outcome> {
    var ordered := Sorting.Sort(NewestFirst, Concerning(rows, tenantId, candidateId));
    if limit <= 0 then [] else if |ordered| <= limit then ordered else ordered[..limit]
  }

  // ---------------------------------------------------------------- what is derived from a window

  function Count(window: seq<Outcome>, kind: Kind): nat {
    |Sorting.Filter((x: Outcome) => x.kind == kind, window)|
  }

  function Latencies(window: seq<Outcome>): seq<int> {
    seq(|window|, i requires 0 <= i < |window| => window[i].latency)
  }

  predicate IntLeq(a: int, b: int) {
    a <= b
  }

  /** The least whole number no less than 95 percent of `n`. */
  function Rank95(n: nat): nat {
    (n * 95 + 99) / 100
  }

  lemma RankInWindow(n: nat)
    requires 0 < n
    ensures 1 <= Rank95(n) <= n
  {}

  lemma SortedLatencies(window: seq<Outcome>)
    ensures var sorted := Sorting.Sort(IntLeq, Latencies(window));
            && |sorted| == |window| && Sorting.Sorted(IntLeq, sorted)
            && multiset(sorted) == multiset(Latencies(window))
  {
    Sorting.SortSpec(IntLeq, Latencies(window));
    Sorting.SortMembers(IntLeq, Latencies(window));
  }

  function P95(window: seq<Outcome>): int
    requires window != []
  {
    SortedLatencies(window);
    RankInWindow(|window|);
    Sorting.Sort(IntLeq, Latencies(window))[Rank95(|window|) - 1]
  }

  /** A share in basis points, rounded down. */
  function Rate(hits: nat, n: nat): int
    requires 0 < n
  {
    hits * 10_000 / n
  }

  /** How many of the newest outcomes failed before the newest success. */
  function ConsecutiveFailures(window: seq<Outcome>): nat {
    if window == [] || window[0].kind.Succeeded? then 0 else 1 + ConsecutiveFailures(window[1..])
  }

  function CircuitExpiry(window: seq<Outcome>, policy: Routing.Policy): int
    requires window != []
  {
    window[0].occurredAt + policy.cooldownSeconds * 1_000_000
  }

  function StatusOf(window: seq<Outcome>, policy: Routing.Policy, evaluatedAt: int): Routing.Status {
    if window == [] || |window| < policy.minimumSamples then Routing.Unknown
    else if policy.failureThreshold <= ConsecutiveFailures(window) && evaluatedAt < CircuitExpiry(window, policy)
      then Routing.Unavailable
    else if 0 < Count(window, RetryableFailure) || 0 < Count(window, TerminalFailure) then Routing.Degraded
    else Routing.Healthy
  }

  function SnapshotOf(tenantId: string, candidateId: string, window: seq<Outcome>, policy: Routing.Policy, evaluatedAt: int)
    : Routing.Snapshot
  {
    var status := StatusOf(window, policy, evaluatedAt);
    if window == [] then
      Routing.Snapshot(tenantId, candidateId, evaluatedAt, status, 0, 0, 0, 0, 0, None, None, None, None)
    else
      Routing.Snapshot(
        tenantId, candidateId, evaluatedAt, status, |window|,
        Count(window, Succeeded), Count(window, RetryableFailure), Count(window, TerminalFailure),
        ConsecutiveFailures(window),
        Some(Rate(Count(window, Succeeded), |window|)), Some(P95(window)), Some(window[0].occurredAt),
        if status.Unavailable? then Some(CircuitExpiry(window, policy)) else None)
  }

  method Percentile(outcomes: seq<Outcome>) returns (p95: int)
    requires outcomes != []
    ensures p95 == P95(outcomes)
  {
    var latencies := Sorting.Sort(IntLeq, Latencies(outcomes));
    SortedLatencies(outcomes);
    RankInWindow(|outcomes|);
    p95 := latencies[(|latencies| * 95 + 99) / 100 - 1];
  }

  method LeadingFailures(outcomes: seq<Outcome>) returns (consecutive: nat)
    ensures consecutive == ConsecutiveFailures(outcomes)
  {
    consecutive := 0;
    for i := 0 to |outcomes|
      invariant consecutive == i
      invariant ConsecutiveFailures(outcomes) == i + ConsecutiveFailures(outcomes[i..])
    {
      assert outcomes[i..][0] == outcomes[i] && outcomes[i..][1..] == outcomes[i + 1..];
      if outcomes[i].kind == Succeeded {
        break;
      }
      consecutive := consecutive + 1;
    }
  }

  // ---------------------------------------------------------------- the store itself

  class SQLiteRouteOutcomeStore {
    var rows: seq<Outcome>

    constructor ()
      ensures rows == []
    {
      rows := [];
    }

    method Append(outcome: Outcome) returns (r: Result<Outcome, Error>)
      modifies this
      ensures (rows, r) == AppendStep(old(rows), outcome)
    {
      var stored := Lookup(rows, outcome.tenantId, outcome.eventId);
      if stored.Some? {
        if stored.value != outcome {
          return Failure(OutcomeConflict);
        }
        return Success(stored.value);
      }
      rows := rows + [outcome];
      return Success(outcome);
    }

    method HealthSnapshot(tenantId: string, candidate: Routing.Candidate, policy: Routing.Policy, evaluatedAt: int)
      returns (r: Routing.Snapshot)
      ensures r == SnapshotOf(tenantId, candidate.candidateId,
                              Window(rows, tenantId, candidate.candidateId, policy.windowSize), policy, evaluatedAt)
    {
      hide Window, Count, Latencies, ConsecutiveFailures, P95, Rate;
      var outcomes := Window(rows, tenantId, candidate.candidateId, policy.windowSize);
      var sample, success := |outcomes|, Count(outcomes, Succeeded);
      var retryable, terminal := Count(outcomes, RetryableFailure), Count(outcomes, TerminalFailure);
      if outcomes == [] {
        return Routing.Snapshot(tenantId, candidate.candidateId, evaluatedAt, Routing.Unknown,
                                0, 0, 0, 0, 0, None, None, None, None);
      }
      var p95 := Percentile(outcomes);
      var last := outcomes[0].occurredAt;
      var consecutive := LeadingFailures(outcomes);
      var expiry := last + policy.cooldownSeconds * 1_000_000;
      var status;
      if sample < policy.minimumSamples {
        status := Routing.Unknown;
      } else if consecutive >= policy.failureThreshold && expiry > evaluatedAt {
        status := Routing.Unavailable;
      } else if retryable != 0 || terminal != 0 {
        status := Routing.Degraded;
      } else {
        status := Routing.Healthy;
      }
      return Routing.Snapshot(
        tenantId, candidate.candidateId, evaluatedAt, status, sample, success, retryable, terminal, consecutive,
        Some(Rate(success, sample)), Some(p95), Some(last),
        if status == Routing.Unavailable then Some(expiry) else None);
    }
  }
}

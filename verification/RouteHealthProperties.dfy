/** Health depends on what was recorded, not on when it arrived, and always passes the snapshot validator. */
module RouteHealthProperties {
  import opened Wrappers
  import opened RouteHealth
  import Routing
  import RoutingBounds
  import Sorting
  import Text

  // ---------------------------------------------------------------- runs of the log

  /** Outcomes offered to an empty log, the first one innermost. */
  datatype Run = Begin | Offer(prev: Run, outcome: Outcome)

  ghost function After(run: Run): seq<Outcome> {
    match run
    case Begin => []
    case Offer(prev, outcome) => AppendStep(After(prev), outcome).0
  }

  ghost function Offered(run: Run): set<Outcome> {
    match run
    case Begin => {}
    case Offer(prev, outcome) => Offered(prev) + {outcome}
  }

  /** Nobody offers two different outcomes under one event id of a tenant. */
  ghost predicate ConflictFree(offered: set<Outcome>) {
    forall a, b | a in offered && b in offered && a.tenantId == b.tenantId && a.eventId == b.eventId :: a == b
  }

  ghost predicate Keyed(rows: seq<Outcome>) {
    forall i, j | 0 <= i < j < |rows| :: rows[i].tenantId != rows[j].tenantId || rows[i].eventId != rows[j].eventId
  }

  lemma {:induction false} LogIsKeyed(run: Run)
    ensures Keyed(After(run))
    ensures forall x | x in After(run) :: x in Offered(run)
  {
    if run.Offer? {
      LogIsKeyed(run.prev);
    }
  }

  /** Without conflicts, exactly the offered outcomes are recorded, repetitions and order aside. */
  lemma {:induction false} RecordsExactlyOffered(run: Run)
    requires ConflictFree(Offered(run))
    ensures forall x :: x in After(run) <==> x in Offered(run)
  {
    if run.Offer? {
      RecordsExactlyOffered(run.prev);
      LogIsKeyed(run.prev);
    }
  }

  /** In every run an outcome is taken exactly if nothing else is recorded under its tenant and event; it is recorded once. */
  lemma RecordedIff(run: Run, outcome: Outcome)
    ensures var rows := After(run); var (next, r) := AppendStep(rows, outcome);
            && (r.Success? <==>
                forall x | x in rows && x.tenantId == outcome.tenantId && x.eventId == outcome.eventId :: x == outcome)
            && (r.Success? ==> r.value == outcome && next == if outcome in rows then rows else rows + [outcome])
            && (r.Failure? ==> next == rows)
  {
    LogIsKeyed(run);
    var stored := Lookup(After(run), outcome.tenantId, outcome.eventId);
    if stored.Some? {
      forall x | x in After(run) && x.tenantId == outcome.tenantId && x.eventId == outcome.eventId ensures x == stored.value {
        if x != stored.value {
          SameKey(After(run), x, stored.value);
        }
      }
    }
  }

  lemma {:induction false} KeyedIsSet(rows: seq<Outcome>)
    requires Keyed(rows)
    ensures forall x :: multiset(rows)[x] == if x in rows then 1 else 0
  {
    if rows != [] {
      var rest := rows[1..];
      KeyedIsSet(rest);
      assert rows == [rows[0]] + rest;
      assert forall i | 0 <= i < |rest| :: rest[i] == rows[i + 1];
      assert rows[0] !in rest;
    }
  }

  lemma SameSetSameMultiset(a: seq<Outcome>, b: seq<Outcome>)
    requires Keyed(a) && Keyed(b) && forall x :: x in a <==> x in b
    ensures multiset(a) == multiset(b)
  {
    KeyedIsSet(a);
    KeyedIsSet(b);
    forall x: Outcome ensures multiset(a)[x] == multiset(b)[x] {}
  }

  lemma NewestFirstIsPreorder()
    ensures Sorting.Preorder(NewestFirst)
  {
    forall a: string, b: string ensures Text.Leq(a, b) || Text.Leq(b, a) {
      Text.Total(a, b);
    }
    forall a: string, b: string, c: string | Text.Leq(a, b) && Text.Leq(b, c) ensures Text.Leq(a, c) {
      Text.Transitive(a, b, c);
    }
  }

  lemma UntiedOutcomes(rows: seq<Outcome>, tenantId: string, candidateId: string)
    requires Keyed(rows)
    ensures Sorting.Untied(NewestFirst, Concerning(rows, tenantId, candidateId))
  {
    var keep := (x: Outcome) => x.tenantId == tenantId && x.candidateId == candidateId;
    Sorting.FilterMembers(keep, rows);
    var mine := Concerning(rows, tenantId, candidateId);
    forall a, b | a in mine && b in mine && NewestFirst(a, b) && NewestFirst(b, a) ensures a == b {
      Text.Antisymmetric(a.eventId, b.eventId);
      assert a in rows && b in rows && keep(a) && keep(b);
    }
  }

  lemma WindowOfSet(a: seq<Outcome>, b: seq<Outcome>, tenantId: string, candidateId: string, limit: int)
    requires Keyed(a) && Keyed(b) && forall x :: x in a <==> x in b
    ensures Window(a, tenantId, candidateId, limit) == Window(b, tenantId, candidateId, limit)
  {
    SameSetSameMultiset(a, b);
    Sorting.FilterMultiset((x: Outcome) => x.tenantId == tenantId && x.candidateId == candidateId, a, b);
    UntiedOutcomes(a, tenantId, candidateId);
    NewestFirstIsPreorder();
    Sorting.SortOfPermutation(NewestFirst, Concerning(a, tenantId, candidateId), Concerning(b, tenantId, candidateId));
  }

  /** Two conflict-free histories that offered the same outcomes yield the same health, whatever their order. */
  lemma ArrivalOrderIrrelevant(a: Run, b: Run, tenantId: string, candidateId: string, policy: Routing.Policy, evaluatedAt: int)
    requires ConflictFree(Offered(a)) && Offered(a) == Offered(b)
    ensures SnapshotOf(tenantId, candidateId, Window(After(a), tenantId, candidateId, policy.windowSize), policy, evaluatedAt)
         == SnapshotOf(tenantId, candidateId, Window(After(b), tenantId, candidateId, policy.windowSize), policy, evaluatedAt)
  {
    RecordsExactlyOffered(a);
    RecordsExactlyOffered(b);
    LogIsKeyed(a);
    LogIsKeyed(b);
    WindowOfSet(After(a), After(b), tenantId, candidateId, policy.windowSize);
  }

  // ---------------------------------------------------------------- the percentile

  function AtMost(window: seq<Outcome>, v: int): nat {
    |Sorting.Filter((x: int) => x <= v, Latencies(window))|
  }

  function Below(window: seq<Outcome>, v: int): nat {
    |Sorting.Filter((x: int) => x < v, Latencies(window))|
  }

  lemma SameSizeFilters(keep: int -> bool, a: seq<int>, b: seq<int>)
    requires multiset(a) == multiset(b)
    ensures |Sorting.Filter(keep, a)| == |Sorting.Filter(keep, b)|
  {
    Sorting.FilterMultiset(keep, a, b);
    Sorting.MultisetMembers(Sorting.Filter(keep, a), Sorting.Filter(keep, b));
  }

  lemma AtMostAround(sorted: seq<int>, k: nat, v: int)
    requires Sorting.Sorted(IntLeq, sorted) && 1 <= k <= |sorted| && v == sorted[k - 1]
    ensures k <= |Sorting.Filter((x: int) => x <= v, sorted)|
  {
    var atMost := (x: int) => x <= v;
    var front, back := sorted[..k], sorted[k..];
    assert front + back == sorted;
    forall i | 0 <= i < k ensures atMost(front[i]) {
      assert i == k - 1 || IntLeq(sorted[i], sorted[k - 1]);
    }
    Sorting.FilterKeepsAll(atMost, front);
    Sorting.FilterConcat(atMost, front, back);
  }

  lemma BelowAround(sorted: seq<int>, k: nat, v: int)
    requires Sorting.Sorted(IntLeq, sorted) && 1 <= k <= |sorted| && v == sorted[k - 1]
    ensures |Sorting.Filter((x: int) => x < v, sorted)| < k
  {
    var below := (x: int) => x < v;
    var front, back := sorted[..k - 1], sorted[k - 1..];
    assert front + back == sorted;
    forall i | 0 <= i < |back| ensures !below(back[i]) {
      assert i == 0 || IntLeq(sorted[k - 1], sorted[k - 1 + i]);
    }
    Sorting.FilterDropsAll(below, back);
    Sorting.FilterConcat(below, front, back);
    Sorting.FilterMembers(below, front);
  }

  /** Nearest rank: at least 95 percent of the window is at or below p95, and less than that strictly below. */
  lemma P95IsNearestRank(window: seq<Outcome>)
    requires window != []
    ensures Rank95(|window|) <= AtMost(window, P95(window))
    ensures Below(window, P95(window)) < Rank95(|window|)
    ensures 100 * (Rank95(|window|) - 1) < 95 * |window| <= 100 * Rank95(|window|)
  {
    var v, sorted := P95(window), Sorting.Sort(IntLeq, Latencies(window));
    SortedLatencies(window);
    RankInWindow(|window|);
    AtMostAround(sorted, Rank95(|window|), v);
    BelowAround(sorted, Rank95(|window|), v);
    SameSizeFilters((x: int) => x <= v, sorted, Latencies(window));
    SameSizeFilters((x: int) => x < v, sorted, Latencies(window));
  }

  lemma P95IsALatency(window: seq<Outcome>)
    requires window != []
    ensures exists x :: x in window && x.latency == P95(window)
  {
    SortedLatencies(window);
    RankInWindow(|window|);
    var sorted := Sorting.Sort(IntLeq, Latencies(window));
    Sorting.MultisetMembers(sorted, Latencies(window));
    assert P95(window) in sorted;
    var i :| 0 <= i < |window| && Latencies(window)[i] == P95(window);
    assert window[i] in window;
  }

  // ---------------------------------------------------------------- counts and circuit

  lemma {:induction false} KindsPartition(window: seq<Outcome>)
    ensures Count(window, Succeeded) + Count(window, RetryableFailure) + Count(window, TerminalFailure) == |window|
  {
    if window != [] {
      KindsPartition(window[1..]);
    }
  }

  /** The consecutive failures are the failures before the newest success. */
  lemma {:induction false} ConsecutiveMeaning(window: seq<Outcome>)
    ensures ConsecutiveFailures(window) <= |window|
    ensures forall i | 0 <= i < ConsecutiveFailures(window) :: !window[i].kind.Succeeded?
    ensures ConsecutiveFailures(window) < |window| ==> window[ConsecutiveFailures(window)].kind.Succeeded?
  {
    if window != [] && !window[0].kind.Succeeded? {
      ConsecutiveMeaning(window[1..]);
    }
  }

  /** The derived snapshot always passes its validator; circuit expiry is present exactly when UNAVAILABLE. */
  lemma SnapshotIsValid(tenantId: string, candidateId: string, window: seq<Outcome>, policy: Routing.Policy, evaluatedAt: int)
    requires policy.Valid() && |window| <= policy.windowSize && forall x | x in window :: x.Valid()
    ensures SnapshotOf(tenantId, candidateId, window, policy, evaluatedAt).Valid()
  {
    hide P95, Count, ConsecutiveFailures, Rate;
    if window != [] {
      KindsPartition(window);
      ConsecutiveMeaning(window);
      P95IsALatency(window);
      RateInRange(Count(window, Succeeded), |window|);
    }
  }

  lemma RateInRange(hits: nat, n: nat)
    requires 0 < n && hits <= n
    ensures 0 <= Rate(hits, n) <= 10_000
  {
    RoutingBounds.DivideUpper(hits * 10_000, n, 10_000);
    RoutingBounds.DivideLower(hits * 10_000, n, 0);
  }

  lemma WindowFits(rows: seq<Outcome>, tenantId: string, candidateId: string, limit: int)
    requires 0 <= limit && forall x | x in rows :: x.Valid()
    ensures var window := Window(rows, tenantId, candidateId, limit);
            |window| <= limit && forall x | x in window :: x.Valid() && x.tenantId == tenantId && x.candidateId == candidateId
  {
    var keep := (x: Outcome) => x.tenantId == tenantId && x.candidateId == candidateId;
    Sorting.FilterMembers(keep, rows);
    NewestFirstIsPreorder();
    Sorting.SortMembers(NewestFirst, Concerning(rows, tenantId, candidateId));
    var ordered := Sorting.Sort(NewestFirst, Concerning(rows, tenantId, candidateId));
    forall x | x in Window(rows, tenantId, candidateId, limit)
      ensures x.Valid() && x.tenantId == tenantId && x.candidateId == candidateId
    {
      assert x in ordered && keep(x);
    }
  }

  /** Every snapshot the store issues is one the router accepts as input. */
  lemma StoreSnapshotsAreValid(rows: seq<Outcome>, tenantId: string, candidateId: string, policy: Routing.Policy, evaluatedAt: int)
    requires policy.Valid() && forall x | x in rows :: x.Valid()
    ensures SnapshotOf(tenantId, candidateId, Window(rows, tenantId, candidateId, policy.windowSize), policy, evaluatedAt).Valid()
  {
    WindowFits(rows, tenantId, candidateId, policy.windowSize);
    SnapshotIsValid(tenantId, candidateId, Window(rows, tenantId, candidateId, policy.windowSize), policy, evaluatedAt);
  }

  // ---------------------------------------------------------------- the newest outcomes decide

  predicate Concerns(x: Outcome, tenantId: string, candidateId: string) {
    x.tenantId == tenantId && x.candidateId == candidateId
  }

  /** Later in time, or at the same time with the greater event identifier. */
  predicate Newer(a: Outcome, b: Outcome) {
    || b.occurredAt < a.occurredAt
    || (a.occurredAt == b.occurredAt && a.eventId != b.eventId && Text.Leq(b.eventId, a.eventId))
  }

  /** `window` is the newest of the tenant's outcomes for the candidate, the newest first, as many as there are up to the limit. */
  ghost predicate IsNewest(window: seq<Outcome>, rows: seq<Outcome>, tenantId: string, candidateId: string, limit: nat) {
    var theirs := set x | x in rows && Concerns(x, tenantId, candidateId);
    && |window| == (if |theirs| <= limit then |theirs| else limit)
    && (forall x | x in window :: x in theirs)
    && (forall i, j | 0 <= i < j < |window| :: Newer(window[i], window[j]))
    && forall x, y | x in window && y in theirs && y !in window :: Newer(x, y)
  }

  lemma {:induction false} SingleSize(s: seq<Outcome>)
    requires Sorting.Single(s)
    ensures |set x | x in s| == |s|
  {
    if s != [] {
      SingleSize(s[1..]);
      assert s == [s[0]] + s[1..];
      assert (set x | x in s) == {s[0]} + set x | x in s[1..];
      assert s[0] !in s[1..];
    }
  }

  /** What concerns a candidate is each such row once. */
  lemma ConcerningOnce(rows: seq<Outcome>, tenantId: string, candidateId: string)
    requires Keyed(rows)
    ensures var theirs := Concerning(rows, tenantId, candidateId);
            && Sorting.Single(theirs)
            && (forall x :: x in theirs <==> x in rows && Concerns(x, tenantId, candidateId))
            && |theirs| == |set x | x in rows && Concerns(x, tenantId, candidateId)|
  {
    var keep := (x: Outcome) => x.tenantId == tenantId && x.candidateId == candidateId;
    var theirs := Concerning(rows, tenantId, candidateId);
    Sorting.FilterMembers(keep, rows);
    Sorting.FilterSingle(keep, rows);
    SingleSize(theirs);
    assert (set x | x in theirs) == set x | x in rows && Concerns(x, tenantId, candidateId);
  }

  lemma OrderedNewestFirst(rows: seq<Outcome>, tenantId: string, candidateId: string)
    requires Keyed(rows)
    ensures var ordered := Sorting.Sort(NewestFirst, Concerning(rows, tenantId, candidateId));
            && (forall x :: x in ordered <==> x in rows && Concerns(x, tenantId, candidateId))
            && |ordered| == |set x | x in rows && Concerns(x, tenantId, candidateId)|
            && forall i, j | 0 <= i < j < |ordered| :: Newer(ordered[i], ordered[j])
  {
    var theirs := Concerning(rows, tenantId, candidateId);
    ConcerningOnce(rows, tenantId, candidateId);
    NewestFirstIsPreorder();
    Sorting.SortMembers(NewestFirst, theirs);
    Sorting.SortSpec(NewestFirst, theirs);
    Sorting.SortSingle(NewestFirst, theirs);
    var ordered := Sorting.Sort(NewestFirst, theirs);
    hide Concerning;
    forall i, j | 0 <= i < j < |ordered| ensures Newer(ordered[i], ordered[j]) {
      assert ordered[i] in ordered && ordered[j] in ordered && ordered[i] != ordered[j];
      SameKey(rows, ordered[i], ordered[j]);
    }
  }

  lemma SameKey(rows: seq<Outcome>, x: Outcome, y: Outcome)
    requires Keyed(rows) && x in rows && y in rows && x != y
    ensures x.tenantId != y.tenantId || x.eventId != y.eventId
  {
    var i :| 0 <= i < |rows| && rows[i] == x;
    var j :| 0 <= j < |rows| && rows[j] == y;
  }

  /** On the rows of any log the window is the newest outcomes. */
  lemma WindowIsNewest(run: Run, tenantId: string, candidateId: string, limit: nat)
    ensures IsNewest(Window(After(run), tenantId, candidateId, limit), After(run), tenantId, candidateId, limit)
  {
    hide NewestFirst, Newer;
    LogIsKeyed(run);
    OrderedNewestFirst(After(run), tenantId, candidateId);
    var ordered := Sorting.Sort(NewestFirst, Concerning(After(run), tenantId, candidateId));
    var window := Window(After(run), tenantId, candidateId, limit);
    assert window <= ordered;
    forall x, y | x in window && y in ordered && y !in window ensures Newer(x, y) {
      var i :| 0 <= i < |window| && window[i] == x;
      var j :| 0 <= j < |ordered| && ordered[j] == y;
      assert forall k | 0 <= k < |window| :: ordered[k] == window[k] && window[k] in window;
    }
  }

  predicate Failed(x: Outcome) {
    x.kind.RetryableFailure? || x.kind.TerminalFailure?
  }

  /** How many outcomes of the window are of this kind. */
  ghost function Number(window: seq<Outcome>, kind: Kind): nat {
    if window == [] then 0
    else Number(window[..|window| - 1], kind) + if window[|window| - 1].kind == kind then 1 else 0
  }

  lemma {:induction false} CountIsNumber(window: seq<Outcome>, kind: Kind)
    ensures Count(window, kind) == Number(window, kind) <= |window|
  {
    if window != [] {
      var n := |window| - 1;
      CountIsNumber(window[..n], kind);
      assert window == window[..n] + [window[n]];
      Sorting.FilterAppend((x: Outcome) => x.kind == kind, window[..n], window[n]);
    }
  }

  /** The newest `threshold` outcomes all failed. */
  predicate FailsInARow(window: seq<Outcome>, threshold: int) {
    threshold <= |window| && forall i | 0 <= i < threshold :: Failed(window[i])
  }

  lemma ThresholdMeans(window: seq<Outcome>, threshold: int)
    requires 0 <= threshold
    ensures threshold <= ConsecutiveFailures(window) <==> FailsInARow(window, threshold)
  {
    ConsecutiveMeaning(window);
    var n := ConsecutiveFailures(window);
    if n < threshold && FailsInARow(window, threshold) {
      assert false;
    }
  }

  /** The circuit is open: the newest outcomes all failed, and the newest of them is still cooling down. */
  predicate CircuitIsOpen(window: seq<Outcome>, policy: Routing.Policy, evaluatedAt: int) {
    && window != [] && FailsInARow(window, policy.failureThreshold)
    && evaluatedAt < window[0].occurredAt + policy.cooldownSeconds * 1_000_000
  }

  lemma StatusMeans(window: seq<Outcome>, policy: Routing.Policy, evaluatedAt: int)
    requires policy.Valid()
    ensures var status := StatusOf(window, policy, evaluatedAt);
            if window == [] || |window| < policy.minimumSamples then status.Unknown?
            else if CircuitIsOpen(window, policy, evaluatedAt) then status.Unavailable?
            else if exists i :: 0 <= i < |window| && Failed(window[i]) then status.Degraded?
            else status.Healthy?
  {
    ThresholdMeans(window, policy.failureThreshold);
    AnyOfKind(window, RetryableFailure);
    AnyOfKind(window, TerminalFailure);
  }

  lemma {:induction false} AnyOfKind(window: seq<Outcome>, kind: Kind)
    ensures 0 < Count(window, kind) <==> exists i :: 0 <= i < |window| && window[i].kind == kind
  {
    var keep := (x: Outcome) => x.kind == kind;
    Sorting.FilterMembers(keep, window);
    var kept := Sorting.Filter(keep, window);
    if kept != [] {
      assert kept[0] in kept;
    }
    if i :| 0 <= i < |window| && window[i].kind == kind {
      assert window[i] in kept;
    }
  }

  /**
   The health a log yields follows from the newest outcomes and from nothing else: their number and kinds,
   the success rate rounded down once, the greatest time recorded, and the status by their newest failures.
   */
  lemma NewestDecideHealth(run: Run, tenantId: string, candidateId: string, policy: Routing.Policy, evaluatedAt: int)
    requires policy.Valid()
    ensures var window := Window(After(run), tenantId, candidateId, policy.windowSize);
            var s := SnapshotOf(tenantId, candidateId, window, policy, evaluatedAt); var n := |window|;
            && IsNewest(window, After(run), tenantId, candidateId, policy.windowSize)
            && s.tenantId == tenantId && s.candidateId == candidateId && s.evaluatedAt == evaluatedAt && s.sampleCount == n
            && s.successCount == Number(window, Succeeded) && s.retryableCount == Number(window, RetryableFailure)
            && s.terminalCount == Number(window, TerminalFailure)
            && (n == 0 ==> s.status.Unknown? && s.observedSuccess.None? && s.p95Latency.None? && s.lastOutcomeAt.None?)
            && (0 < n ==>
                  && s.observedSuccess.Some? && s.p95Latency.Some? && s.lastOutcomeAt.Some?
                  && s.observedSuccess.value * n <= s.successCount * 10_000 < (s.observedSuccess.value + 1) * n
                  && (exists x :: x in After(run) && Concerns(x, tenantId, candidateId) && x.occurredAt == s.lastOutcomeAt.value)
                  && forall x | x in After(run) && Concerns(x, tenantId, candidateId) :: x.occurredAt <= s.lastOutcomeAt.value)
            && s.circuitOpenUntil ==
               (if s.status.Unavailable? then Some(s.lastOutcomeAt.value + policy.cooldownSeconds * 1_000_000) else None)
            && (if n < policy.minimumSamples || n == 0 then s.status.Unknown?
                else if CircuitIsOpen(window, policy, evaluatedAt) then s.status.Unavailable?
                else if exists i :: 0 <= i < n && Failed(window[i]) then s.status.Degraded?
                else s.status.Healthy?)
  {
    hide Window, P95, Count, ConsecutiveFailures, StatusOf, Number, Rate, IsNewest, CircuitIsOpen;
    WindowIsNewest(run, tenantId, candidateId, policy.windowSize);
    var window := Window(After(run), tenantId, candidateId, policy.windowSize);
    StatusMeans(window, policy, evaluatedAt);
    CountIsNumber(window, Succeeded);
    CountIsNumber(window, RetryableFailure);
    CountIsNumber(window, TerminalFailure);
    if window != [] {
      RateIsFloor(Count(window, Succeeded), |window|);
      FirstIsLatest(window, After(run), tenantId, candidateId, policy.windowSize);
    }
  }

  lemma FirstIsLatest(window: seq<Outcome>, rows: seq<Outcome>, tenantId: string, candidateId: string, limit: nat)
    requires IsNewest(window, rows, tenantId, candidateId, limit) && window != []
    ensures window[0] in rows && Concerns(window[0], tenantId, candidateId)
    ensures forall x | x in rows && Concerns(x, tenantId, candidateId) :: x.occurredAt <= window[0].occurredAt
  {
    assert window[0] in window;
    forall x | x in rows && Concerns(x, tenantId, candidateId) ensures x.occurredAt <= window[0].occurredAt {
      if x in window {
        var i :| 0 <= i < |window| && window[i] == x;
        assert i == 0 || Newer(window[0], window[i]);
      } else {
        assert Newer(window[0], x);
      }
    }
  }

  lemma RateIsFloor(hits: nat, n: nat)
    requires 0 < n
    ensures Rate(hits, n) * n <= hits * 10_000 < (Rate(hits, n) + 1) * n
  {}
}

/** What the audit chains guarantee: appends keep them verifying, and their last digest binds every row. */
module AuditChainSafety {
  import opened Wrappers
  import opened AuditChain
  import Sorting

  // ---------------------------------------------------------------- binding

  ghost predicate CollisionFree(h: Hash) {
    forall a, b :: h.record(a) == h.record(b) ==> a == b
  }

  ghost predicate OfTenant(chain: seq<Row>, tenantId: string) {
    forall i | 0 <= i < |chain| :: chain[i].tenantId == tenantId
  }

  /** A row that passes every check is rebuilt from its decoded record alone. */
  lemma SoundRowIsItsRecord(h: Hash, row: Row, tenantId: string, expected: int, previous: Option<string>)
    requires Fault(h, row, tenantId, expected, previous).None? && row.tenantId == tenantId
    ensures row.recordJson.Some? && row.recordDigest == h.record(row.recordJson.value.body)
    ensures row.recordJson.value.body.sequence == expected && row.recordJson.value.body.previous == previous
    ensures row == NewRow(h, row.recordJson.value.body.event, expected, previous)
  {}

  lemma LastRowOfChain(h: Hash, chain: seq<Row>, tenantId: string)
    requires Chained(h, chain, tenantId) && OfTenant(chain, tenantId) && chain != []
    ensures var m := |chain| - 1;
            var row := chain[m];
            && row.recordJson.Some? && row.recordDigest == h.record(row.recordJson.value.body)
            && row.recordJson.value.body.sequence == |chain|
            && row.recordJson.value.body.previous == LastDigest(chain[..m])
            && row == NewRow(h, row.recordJson.value.body.event, |chain|, LastDigest(chain[..m]))
            && Chained(h, chain[..m], tenantId) && OfTenant(chain[..m], tenantId)
  {
    var m := |chain| - 1;
    SoundRowIsItsRecord(h, chain[m], tenantId, m + 1, LastDigest(chain[..m]));
    PrefixesChained(h, chain, tenantId);
  }

  /** Two verifying chains of one tenant that end in the same digest are the same, row for row. */
  lemma {:induction false} LastDigestBindsChain(h: Hash, a: seq<Row>, b: seq<Row>, tenantId: string)
    requires CollisionFree(h) && Chained(h, a, tenantId) && Chained(h, b, tenantId)
    requires OfTenant(a, tenantId) && OfTenant(b, tenantId)
    requires LastDigest(a) == LastDigest(b)
    ensures a == b
  {
    hide Chained, OfTenant;
    if a != [] && b != [] {
      var m, n := |a| - 1, |b| - 1;
      LastRowOfChain(h, a, tenantId);
      LastRowOfChain(h, b, tenantId);
      assert a[m].recordJson.value.body == b[n].recordJson.value.body;
      LastDigestBindsChain(h, a[..m], b[..n], tenantId);
      assert a == a[..m] + [a[m]] && b == b[..n] + [b[n]];
    }
  }

  lemma OtherChainFails(h: Hash, chain: seq<Row>, other: seq<Row>, tenantId: string)
    requires CollisionFree(h) && Chained(h, chain, tenantId)
    requires OfTenant(chain, tenantId) && OfTenant(other, tenantId)
    requires LastDigest(other) == LastDigest(chain) && other != chain
    ensures !Chained(h, other, tenantId)
  {
    if Chained(h, other, tenantId) {
      LastDigestBindsChain(h, chain, other, tenantId);
    }
  }

  lemma ReplacementFacts(chain: seq<Row>, tenantId: string, i: nat, changed: Row)
    requires OfTenant(chain, tenantId) && i < |chain| - 1 && changed.tenantId == tenantId && changed != chain[i]
    ensures var other := chain[i := changed];
            OfTenant(other, tenantId) && LastDigest(other) == LastDigest(chain) && other != chain
  {
    assert chain[i := changed][i] == changed;
  }

  /** Changing any row before the last one, while the last one stays, makes verification fail. */
  lemma TamperingShows(h: Hash, chain: seq<Row>, tenantId: string, i: nat, changed: Row)
    requires CollisionFree(h) && Chained(h, chain, tenantId) && OfTenant(chain, tenantId)
    requires i < |chain| - 1 && changed.tenantId == tenantId && changed != chain[i]
    ensures !Chained(h, chain[i := changed], tenantId)
  {
    ReplacementFacts(chain, tenantId, i, changed);
    OtherChainFails(h, chain, chain[i := changed], tenantId);
  }

  /** So does removing any run of rows in front of a row that stays. */
  lemma RemovalShows(h: Hash, chain: seq<Row>, tenantId: string, from: nat, to: nat)
    requires CollisionFree(h) && Chained(h, chain, tenantId) && OfTenant(chain, tenantId)
    requires from < to < |chain|
    ensures !Chained(h, chain[..from] + chain[to..], tenantId)
  {
    hide Chained, CollisionFree;
    var other := chain[..from] + chain[to..];
    assert OfTenant(other, tenantId) && LastDigest(other) == LastDigest(chain) && |other| < |chain|;
    OtherChainFails(h, chain, other, tenantId);
  }

  // ---------------------------------------------------------------- runs

  /** The events offered to an empty store, first one innermost. */
  datatype Run = Begin | Offer(prev: Run, event: AuditEvent)

  ghost function After(h: Hash, run: Run): seq<Row> {
    match run
    case Begin => []
    case Offer(prev, event) => AppendStep(h, After(h, prev), event).0
  }

  lemma SequenceIsPosition(h: Hash, chain: seq<Row>, tenantId: string)
    requires Chained(h, chain, tenantId)
    ensures forall i | 0 <= i < |chain| :: chain[i].sequence == i + 1
  {
    forall i | 0 <= i < |chain| ensures chain[i].sequence == i + 1 {
      assert Fault(h, chain[i], tenantId, i + 1, LastDigest(chain[..i])).None?;
    }
  }

  /** In insertion order a tenant's rows already form a chain, so ordering them by sequence changes nothing. */
  lemma ChainIsOrdered(h: Hash, rows: seq<Row>, tenantId: string)
    requires Chained(h, Of(rows, tenantId), tenantId)
    ensures Ordered(rows, tenantId) == Of(rows, tenantId)
    ensures NextSequence(Of(rows, tenantId)) == |Of(rows, tenantId)| + 1
  {
    hide Chained, LastDigest;
    var chain := Of(rows, tenantId);
    SequenceIsPosition(h, chain, tenantId);
    SequenceIsPreorder();
    forall a, b | a in chain && b in chain && BySequence(a, b) && BySequence(b, a) ensures a == b {
      var i :| 0 <= i < |chain| && chain[i] == a;
      var j :| 0 <= j < |chain| && chain[j] == b;
    }
    Sorting.SortOfSorted(BySequence, chain);
  }

  lemma SequenceIsPreorder()
    ensures Sorting.Preorder(BySequence)
  {}

  lemma OfAppend(rows: seq<Row>, row: Row, tenantId: string)
    ensures Of(rows + [row], tenantId) == Of(rows, tenantId) + if row.tenantId == tenantId then [row] else []
  {
    Sorting.FilterAppend((r: Row) => r.tenantId == tenantId, rows, row);
  }

  lemma NewRowIsSound(h: Hash, event: AuditEvent, sequence: int, previous: Option<string>)
    requires var row := NewRow(h, event, sequence, previous); ValidRecord(h, row.recordJson.value)
    ensures Fault(h, NewRow(h, event, sequence, previous), event.body.tenantId, sequence, previous).None?
  {}

  lemma NewRowExtendsChain(h: Hash, chain: seq<Row>, event: AuditEvent)
    requires Chained(h, chain, event.body.tenantId)
    requires ValidRecord(h, NewRow(h, event, |chain| + 1, LastDigest(chain)).recordJson.value)
    ensures Chained(h, chain + [NewRow(h, event, |chain| + 1, LastDigest(chain))], event.body.tenantId)
  {
    NewRowIsSound(h, event, |chain| + 1, LastDigest(chain));
    var longer := chain + [NewRow(h, event, |chain| + 1, LastDigest(chain))];
    assert longer[..|chain|] == chain && longer[..|chain| + 1] == longer;
    ChainedSnoc(h, longer, event.body.tenantId, |chain|);
  }

  /** An append adds nothing, or exactly the next row of the event's own tenant. */
  lemma AppendAddsNextRow(h: Hash, rows: seq<Row>, event: AuditEvent)
    requires Chained(h, Of(rows, event.body.tenantId), event.body.tenantId)
    ensures var next := AppendStep(h, rows, event).0;
            var chain := Of(rows, event.body.tenantId);
            var row := NewRow(h, event, |chain| + 1, LastDigest(chain));
            next == rows || (next == rows + [row] && ValidRecord(h, row.recordJson.value))
  {
    hide Chained, Ordered, FindEvent, ValidEvent;
    ChainIsOrdered(h, rows, event.body.tenantId);
  }

  lemma AppendKeepsChain(h: Hash, rows: seq<Row>, event: AuditEvent, tenantId: string)
    requires Chained(h, Of(rows, tenantId), tenantId)
    requires Chained(h, Of(rows, event.body.tenantId), event.body.tenantId)
    ensures var next := AppendStep(h, rows, event).0;
            && Chained(h, Of(next, tenantId), tenantId)
            && (tenantId != event.body.tenantId ==> Of(next, tenantId) == Of(rows, tenantId))
  {
    hide Chained, AppendStep, Of, ValidRecord;
    var chain := Of(rows, event.body.tenantId);
    var row := NewRow(h, event, |chain| + 1, LastDigest(chain));
    AppendAddsNextRow(h, rows, event);
    OfAppend(rows, row, tenantId);
    if AppendStep(h, rows, event).0 != rows {
      if tenantId == event.body.tenantId {
        NewRowExtendsChain(h, chain, event);
      } else {
        assert Of(rows, tenantId) + [] == Of(rows, tenantId);
      }
    }
  }

  /** Whatever is offered, by any mix of tenants, every tenant's chain verifies. */
  lemma {:induction false} ReachableChainsVerify(h: Hash, run: Run, tenantId: string)
    ensures Chained(h, Of(After(h, run), tenantId), tenantId)
    ensures Ordered(After(h, run), tenantId) == Of(After(h, run), tenantId)
  {
    if run.Offer? {
      ReachableChainsVerify(h, run.prev, tenantId);
      ReachableChainsVerify(h, run.prev, run.event.body.tenantId);
      AppendKeepsChain(h, After(h, run.prev), run.event, tenantId);
    }
    ChainIsOrdered(h, After(h, run), tenantId);
  }

  /** An append for one tenant changes neither the rows nor the verification of any other. */
  lemma TenantsAreIndependent(h: Hash, run: Run, event: AuditEvent, tenantId: string)
    requires tenantId != event.body.tenantId
    ensures Ordered(After(h, Offer(run, event)), tenantId) == Ordered(After(h, run), tenantId)
  {
    ReachableChainsVerify(h, run, tenantId);
    ReachableChainsVerify(h, run, event.body.tenantId);
    AppendKeepsChain(h, After(h, run), event, tenantId);
  }

  ghost predicate RowsSound(h: Hash, rows: seq<Row>) {
    && (forall row | row in rows ::
          row.recordJson.Some? && ValidRecord(h, row.recordJson.value)
          && row == NewRow(h, row.recordJson.value.body.event, row.sequence, row.previous))
    && forall i, j | 0 <= i < j < |rows| :: rows[i].tenantId != rows[j].tenantId || rows[i].eventId != rows[j].eventId
  }

  lemma {:induction false} ReachableRowsSound(h: Hash, run: Run)
    ensures RowsSound(h, After(h, run))
  {
    if run.Offer? {
      ReachableRowsSound(h, run.prev);
    }
  }

  lemma {:induction false} FindEventFinds(rows: seq<Row>, i: nat)
    requires i < |rows|
    requires forall a, b | 0 <= a < b < |rows| :: rows[a].tenantId != rows[b].tenantId || rows[a].eventId != rows[b].eventId
    ensures FindEvent(rows, rows[i].tenantId, rows[i].eventId) == Some(rows[i])
  {
    if 0 < i {
      FindEventFinds(rows[1..], i - 1);
    }
  }

  /** Offering a recorded event again adds no record and returns the stored one, however often and whenever. */
  lemma ReplayAddsNothing(h: Hash, run: Run, i: nat)
    requires i < |After(h, run)|
    ensures var row := After(h, run)[i];
            row.recordJson.Some? &&
            AppendStep(h, After(h, run), row.recordJson.value.body.event)
            == (After(h, run), Success(row.recordJson.value))
  {
    ReachableRowsSound(h, run);
    var rows := After(h, run);
    assert rows[i] in rows;
    FindEventFinds(rows, i);
  }

  /** An event id, once recorded, refuses every other content. */
  lemma ConflictingEventIsRefused(h: Hash, run: Run, i: nat, event: AuditEvent)
    requires i < |After(h, run)| && ValidEvent(h, event)
    requires var row := After(h, run)[i];
             row.tenantId == event.body.tenantId && row.eventId == event.body.eventId && row.eventDigest != event.digest
    ensures AppendStep(h, After(h, run), event) == (After(h, run), Failure(Conflict))
  {
    ReachableRowsSound(h, run);
    var rows := After(h, run);
    assert rows[i] in rows;
    FindEventFinds(rows, i);
  }

  // ---------------------------------------------------------------- what appending and verifying amount to

  /** The one row that can stand at this place of the tenant's chain for this event. */
  function RowFor(h: Hash, tenantId: string, event: AuditEvent, sequence: int, previous: Option<string>): Row {
    var record := AuditRecord(RecordBody(sequence, event, previous), h.record(RecordBody(sequence, event, previous)));
    Row(tenantId, sequence, event.body.eventId, event.digest, previous, record.digest, Some(event), Some(record))
  }

  /** Verification accepts a row exactly if it is the row for some properly signed event of the tenant. */
  lemma FollowsIff(h: Hash, row: Row, tenantId: string, expected: int, previous: Option<string>)
    requires row.tenantId == tenantId
    ensures Fault(h, row, tenantId, expected, previous).None? <==>
              && 1 <= expected <= MAX_SEQUENCE && (expected == 1 <==> previous.None?)
              && row.eventJson.Some? && var event := row.eventJson.value;
                 && event.body.tenantId == tenantId && event.digest == h.event(event.body)
                 && row == RowFor(h, tenantId, event, expected, previous)
  {}

  /** What each kind of fault says about the row. */
  lemma FaultNames(h: Hash, row: Row, tenantId: string, expected: int, previous: Option<string>)
    ensures var fault := Fault(h, row, tenantId, expected, previous);
            && (fault == Some(SequenceGap) <==> row.sequence != expected)
            && (fault == Some(PreviousDigestMismatch) ==> row.previous != previous)
            && (row.sequence == expected && row.recordJson.None? ==> fault == Some(AuditIntegrityError))
            && (fault == Some(TenantMismatch) ==>
                  row.previous == previous && row.eventJson.Some? && row.eventJson.value.body.tenantId != tenantId)
  {}

  /**
   In every run an event under a new identifier is recorded exactly if its digest is its own and there is a
   sequence number left; then as the next row of its tenant, linked to the last one, and nothing else changes.
   */
  lemma RecordedIff(h: Hash, run: Run, event: AuditEvent)
    requires forall row | row in After(h, run) && row.tenantId == event.body.tenantId :: row.eventId != event.body.eventId
    ensures var rows := After(h, run); var chain := Of(rows, event.body.tenantId);
            var (next, r) := AppendStep(h, rows, event);
            var previous := if chain == [] then None else Some(chain[|chain| - 1].recordDigest);
            var row := RowFor(h, event.body.tenantId, event, |chain| + 1, previous);
            && (r.Success? <==> event.digest == h.event(event.body) && |chain| < MAX_SEQUENCE)
            && (r.Success? ==> next == rows + [row] && row.recordJson == Some(r.value))
            && (r.Failure? ==> next == rows)
  {
    hide Chained;
    ReachableChainsVerify(h, run, event.body.tenantId);
    ChainIsOrdered(h, After(h, run), event.body.tenantId);
  }
}

/**
 Per-tenant append-only audit hash chains. SHA-256 is an arbitrary pair of functions; results that rest
 on it being collision-free say so. Stored JSON is modelled by what it decodes to, `None` if to nothing.
 */
module AuditChain {
  import opened Wrappers
  import Sorting

  const MAX_SEQUENCE := 0x7fff_ffff_ffff_ffff

  datatype EventBody = EventBody(eventId: string, tenantId: string, content: string)

  datatype AuditEvent = AuditEvent(body: EventBody, digest: string)

  datatype RecordBody = RecordBody(sequence: int, event: AuditEvent, previous: Option<string>)

  datatype AuditRecord = AuditRecord(body: RecordBody, digest: string)

  datatype Row = Row(
    tenantId: string, sequence: int, eventId: string, eventDigest: string,
    previous: Option<string>, recordDigest: string,
    eventJson: Option<AuditEvent>, recordJson: Option<AuditRecord>)

  datatype Hash = Hash(event: EventBody -> string, record: RecordBody -> string)

  datatype Error = InvalidEvent | IntegrityError | Conflict

  datatype Reason = SequenceGap | AuditIntegrityError | StoredFieldsMismatch | PreviousDigestMismatch | TenantMismatch

  datatype Verification = Verification(
    valid: bool, checkedCount: nat, firstBroken: Option<int>, reason: Option<Reason>)

  predicate ValidEvent(h: Hash, event: AuditEvent) {
    event.digest == h.event(event.body)
  }

  predicate ValidRecord(h: Hash, record: AuditRecord) {
    && 1 <= record.body.sequence <= MAX_SEQUENCE
    && (record.body.sequence == 1 <==> record.body.previous.None?)
    && ValidEvent(h, record.body.event)
    && record.digest == h.record(record.body)
  }

  function DecodeRecord(h: Hash, json: Option<AuditRecord>, digest: string): Option<AuditRecord> {
    if json.Some? && ValidRecord(h, json.value) && json.value.digest == digest then json else None
  }

  function DecodeEvent(h: Hash, json: Option<AuditEvent>, digest: string): Option<AuditEvent> {
    if json.Some? && ValidEvent(h, json.value) && json.value.digest == digest then json else None
  }

  // ---------------------------------------------------------------- queries

  predicate BySequence(a: Row, b: Row) {
    a.sequence <= b.sequence
  }

  function Of(rows: seq<Row>, tenantId: string): seq<Row> {
    Sorting.Filter((row: Row) => row.tenantId == tenantId, rows)
  }

  /** `WHERE tenant_id=? ORDER BY sequence ASC`. */
  function Ordered(rows: seq<Row>, tenantId: string): seq<Row> {
    Sorting.Sort(BySequence, Of(rows, tenantId))
  }

  /** `WHERE tenant_id=? AND event_id=?`, unique by the table's constraint. */
  function FindEvent(rows: seq<Row>, tenantId: string, eventId: string): (r: Option<Row>)
    ensures r.Some? ==> r.value in rows && r.value.tenantId == tenantId && r.value.eventId == eventId
    ensures r.None? ==> forall row | row in rows :: row.tenantId != tenantId || row.eventId != eventId
  {
    if rows == [] then None
    else if rows[0].tenantId == tenantId && rows[0].eventId == eventId then Some(rows[0])
    else FindEvent(rows[1..], tenantId, eventId)
  }

  // ---------------------------------------------------------------- append

  function NewRow(h: Hash, event: AuditEvent, sequence: int, previous: Option<string>): Row {
    var body := RecordBody(sequence, event, previous);
    Row(event.body.tenantId, sequence, event.body.eventId, event.digest, previous, h.record(body),
        Some(event), Some(AuditRecord(body, h.record(body))))
  }

  function NextSequence(chain: seq<Row>): int {
    if chain == [] then 1 else chain[|chain| - 1].sequence + 1
  }

  function LastDigest(chain: seq<Row>): Option<string> {
    if chain == [] then None else Some(chain[|chain| - 1].recordDigest)
  }

  ghost function AppendStep(h: Hash, rows: seq<Row>, event: AuditEvent): (seq<Row>, Result<AuditRecord, Error>) {
    if !ValidEvent(h, event) then (rows, Failure(InvalidEvent))
    else
      match FindEvent(rows, event.body.tenantId, event.body.eventId)
      case Some(row) =>
        var oldRecord := DecodeRecord(h, row.recordJson, row.recordDigest);
        var oldEvent := DecodeEvent(h, row.eventJson, row.eventDigest);
        if oldRecord.None? || oldEvent.None? then (rows, Failure(IntegrityError))
        else if oldRecord.value.body.event.body.eventId != event.body.eventId
             || oldRecord.value.body.event.digest != oldEvent.value.digest
             || oldRecord.value.body.event.digest != event.digest
        then (rows, Failure(Conflict))
        else (rows, Success(oldRecord.value))
      case None =>
        var chain := Ordered(rows, event.body.tenantId);
        var row := NewRow(h, event, NextSequence(chain), LastDigest(chain));
        if !ValidRecord(h, row.recordJson.value) then (rows, Failure(InvalidEvent))
        else (rows + [row], Success(row.recordJson.value))
  }

  // ---------------------------------------------------------------- verification

  /** The first thing wrong with a row, in the order the checks are made. */
  function Fault(h: Hash, row: Row, tenantId: string, expected: int, previous: Option<string>): Option<Reason> {
    if row.sequence != expected then Some(SequenceGap)
    else
      var record := DecodeRecord(h, row.recordJson, row.recordDigest);
      var event := DecodeEvent(h, row.eventJson, row.eventDigest);
      if record.None? || event.None? then Some(AuditIntegrityError)
      else if record.value.body.sequence != row.sequence
           || record.value.body.event.digest != row.eventDigest
           || row.eventId != record.value.body.event.body.eventId
           || event.value != record.value.body.event
           || row.previous != record.value.body.previous
      then Some(StoredFieldsMismatch)
      else if record.value.body.previous != previous then Some(PreviousDigestMismatch)
      else if record.value.body.event.body.tenantId != tenantId then Some(TenantMismatch)
      else None
  }

  /** Every row follows from the one before it. */
  ghost predicate Chained(h: Hash, chain: seq<Row>, tenantId: string) {
    forall i | 0 <= i < |chain| :: Fault(h, chain[i], tenantId, i + 1, LastDigest(chain[..i])).None?
  }

  // ---------------------------------------------------------------- the store itself

  class SQLiteAuditStore {
    const hash: Hash
    var rows: seq<Row>

    constructor (hash: Hash)
      ensures this.hash == hash && rows == []
    {
      this.hash := hash;
      rows := [];
    }

    method Append(event: AuditEvent) returns (r: Result<AuditRecord, Error>)
      modifies this
      ensures (rows, r) == AppendStep(hash, old(rows), event)
    {
      if event.digest != hash.event(event.body) {
        return Failure(InvalidEvent);
      }
      var existing := FindEvent(rows, event.body.tenantId, event.body.eventId);
      if existing.Some? {
        var oldRecord := DecodeRecord(hash, existing.value.recordJson, existing.value.recordDigest);
        if oldRecord.None? {
          return Failure(IntegrityError);
        }
        var oldEvent := DecodeEvent(hash, existing.value.eventJson, existing.value.eventDigest);
        if oldEvent.None? {
          return Failure(IntegrityError);
        }
        var stored := oldRecord.value.body.event;
        if stored.body.eventId != event.body.eventId || stored.digest != oldEvent.value.digest
           || stored.digest != event.digest {
          return Failure(Conflict);
        }
        return Success(oldRecord.value);
      }
      var chain := Ordered(rows, event.body.tenantId);
      var sequence, previous := 1, None;
      if chain != [] {
        sequence := chain[|chain| - 1].sequence + 1;
        previous := Some(chain[|chain| - 1].recordDigest);
      }
      var row := NewRow(hash, event, sequence, previous);
      if !ValidRecord(hash, row.recordJson.value) {
        return Failure(InvalidEvent);
      }
      rows := rows + [row];
      return Success(row.recordJson.value);
    }

    /**
     Valid exactly when every row follows from the one before it; otherwise the count is the length of
     the longest prefix that does, and the first row beyond it is named with what is wrong there.
     */
    method VerifyChain(tenantId: string) returns (r: Verification)
      ensures var chain := Ordered(rows, tenantId);
              && r.valid == Chained(hash, chain, tenantId)
              && r.checkedCount <= |chain|
              && (forall n | 0 <= n <= |chain| :: Chained(hash, chain[..n], tenantId) <==> n <= r.checkedCount)
              && (r.valid ==> r.checkedCount == |chain| && r.firstBroken.None? && r.reason.None?)
              && (!r.valid ==>
                    && r.checkedCount < |chain| && r.firstBroken == Some(chain[r.checkedCount].sequence)
                    && r.reason.Some?
                    && r.reason == Fault(hash, chain[r.checkedCount], tenantId, r.checkedCount + 1,
                                         LastDigest(chain[..r.checkedCount])))
    {
      var chain := Ordered(rows, tenantId);
      var previous: Option<string> := None;
      var expected := 1;
      for index := 0 to |chain|
        invariant expected == index + 1 && previous == LastDigest(chain[..index])
        invariant Chained(hash, chain[..index], tenantId)
      {
        var row := chain[index];
        ghost var fault := Fault(hash, row, tenantId, expected, previous);
        if fault.Some? {
          BrokenAt(hash, chain, tenantId, index);
        } else {
          ChainedSnoc(hash, chain, tenantId, index);
        }
        var sequence := row.sequence;
        if sequence != expected {
          return Verification(false, index, Some(sequence), Some(SequenceGap));
        }
        var record := DecodeRecord(hash, row.recordJson, row.recordDigest);
        if record.None? {
          return Verification(false, index, Some(sequence), Some(AuditIntegrityError));
        }
        var event := DecodeEvent(hash, row.eventJson, row.eventDigest);
        if event.None? {
          return Verification(false, index, Some(sequence), Some(AuditIntegrityError));
        }
        var body := record.value.body;
        if body.sequence != sequence || body.event.digest != row.eventDigest
           || row.eventId != body.event.body.eventId || event.value != body.event
           || row.previous != body.previous {
          return Verification(false, index, Some(sequence), Some(StoredFieldsMismatch));
        }
        if body.previous != previous {
          return Verification(false, index, Some(sequence), Some(PreviousDigestMismatch));
        }
        if body.event.body.tenantId != tenantId {
          return Verification(false, index, Some(sequence), Some(TenantMismatch));
        }
        previous := Some(record.value.digest);
        expected := expected + 1;
      }
      assert chain[..|chain|] == chain;
      PrefixesChained(hash, chain, tenantId);
      return Verification(true, |chain|, None, None);
    }
  }

  // ---------------------------------------------------------------- facts about prefixes

  lemma ChainedSnoc(h: Hash, chain: seq<Row>, tenantId: string, n: nat)
    requires n < |chain| && Chained(h, chain[..n], tenantId)
    requires Fault(h, chain[n], tenantId, n + 1, LastDigest(chain[..n])).None?
    ensures Chained(h, chain[..n + 1], tenantId)
  {
    var longer := chain[..n + 1];
    forall i | 0 <= i < |longer| ensures Fault(h, longer[i], tenantId, i + 1, LastDigest(longer[..i])).None? {
      assert longer[..i] == chain[..i];
      if i < n {
        assert chain[..n][..i] == chain[..i] && chain[..n][i] == longer[i];
      }
    }
  }

  /** Truncation at the end is invisible: every prefix of a chain is a chain. */
  lemma PrefixesChained(h: Hash, chain: seq<Row>, tenantId: string)
    requires Chained(h, chain, tenantId)
    ensures forall n | 0 <= n <= |chain| :: Chained(h, chain[..n], tenantId)
  {
    forall n | 0 <= n <= |chain| ensures Chained(h, chain[..n], tenantId) {
      forall i | 0 <= i < n ensures Fault(h, chain[..n][i], tenantId, i + 1, LastDigest(chain[..n][..i])).None? {
        assert chain[..n][..i] == chain[..i];
      }
    }
  }

  lemma BrokenAt(h: Hash, chain: seq<Row>, tenantId: string, index: nat)
    requires index < |chain| && Chained(h, chain[..index], tenantId)
    requires Fault(h, chain[index], tenantId, index + 1, LastDigest(chain[..index])).Some?
    ensures forall n | 0 <= n <= |chain| :: Chained(h, chain[..n], tenantId) <==> n <= index
    ensures !Chained(h, chain, tenantId)
  {
    PrefixesChained(h, chain[..index], tenantId);
    forall n | 0 <= n <= |chain| ensures Chained(h, chain[..n], tenantId) <==> n <= index {
      if n <= index {
        assert chain[..index][..n] == chain[..n];
      } else {
        assert chain[..n][index] == chain[index] && chain[..n][..index] == chain[..index];
      }
    }
    assert chain[..|chain|] == chain;
  }
}

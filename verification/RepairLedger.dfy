/**
 The reserve-before-use ledger of repair budgets. Rows are kept in insertion order; a usage has seven
 dimensions, and a row is charged its actual usage once finalized and its reservation before that.
 */
module RepairLedger {
  import opened Wrappers
  import Text

  datatype Usage = Usage(
    modelCalls: int, inputTokens: int, outputTokens: int, costUnits: int,
    files: int, candidateBytes: int, validationSeconds: int)

  const ZERO := Usage(0, 0, 0, 0, 0, 0, 0)

  /** The upper bounds the usage and budget models accept. */
  const CAPS := Usage(10_000, 100_000_000, 100_000_000, 0x7fff_ffff_ffff_ffff, 10_000, 0x7fff_ffff, 86_400)

  predicate Leq(a: Usage, b: Usage) {
    && a.modelCalls <= b.modelCalls && a.inputTokens <= b.inputTokens && a.outputTokens <= b.outputTokens
    && a.costUnits <= b.costUnits && a.files <= b.files && a.candidateBytes <= b.candidateBytes
    && a.validationSeconds <= b.validationSeconds
  }

  function Plus(a: Usage, b: Usage): Usage {
    Usage(a.modelCalls + b.modelCalls, a.inputTokens + b.inputTokens, a.outputTokens + b.outputTokens,
          a.costUnits + b.costUnits, a.files + b.files, a.candidateBytes + b.candidateBytes,
          a.validationSeconds + b.validationSeconds)
  }

  function Minus(a: Usage, b: Usage): Usage {
    Usage(a.modelCalls - b.modelCalls, a.inputTokens - b.inputTokens, a.outputTokens - b.outputTokens,
          a.costUnits - b.costUnits, a.files - b.files, a.candidateBytes - b.candidateBytes,
          a.validationSeconds - b.validationSeconds)
  }

  predicate ValidUsage(u: Usage) {
    Leq(ZERO, u) && Leq(u, CAPS)
  }

  datatype Scope = Scope(tenantId: string, environmentId: string, jobId: string)

  datatype Request = Request(scope: Scope, basePackage: string, allowedPaths: seq<string>, digest: string)

  /** A budget is its limits; `digest` is their digest. */
  datatype Budget = Budget(limits: Usage, digest: string)

  datatype Row = Row(
    reservationId: string, scope: Scope, requestDigest: string, budgetDigest: string,
    limits: Usage, reserved: Usage, actual: Option<Usage>)
  {
    predicate Finalized() {
      actual.Some?
    }

    function Charge(): Usage {
      if actual.Some? then actual.value else reserved
    }
  }

  datatype Error =
    | InvalidInput | ReservationInvalid
    | BudgetExceeded | BudgetConflict | BudgetNotFound | RecordInvalid | StoreUnavailable

  predicate ValidRequest(request: Request) {
    request.digest != ""
  }

  predicate ValidBudget(hash: Usage -> string, budget: Budget) {
    && Leq(Usage(1, 1, 1, 1, 1, 1, 1), budget.limits) && Leq(budget.limits, CAPS)
    && budget.digest == hash(budget.limits)
  }

  predicate ValidKey(key: string) {
    1 <= |key| <= 256 && Text.Trimmed(key)
  }

  /** `reservation_id or request.request_digest`: an empty identifier falls back to the request's digest. */
  function KeyOf(request: Request, reservationId: string): string {
    if reservationId == "" then request.digest else reservationId
  }

  // ---------------------------------------------------------------- queries

  function Position(rows: seq<Row>, key: string): (r: Option<nat>)
    ensures r.Some? ==> r.value < |rows| && rows[r.value].reservationId == key
    ensures r.None? ==> forall i | 0 <= i < |rows| :: rows[i].reservationId != key
  {
    if rows == [] then None
    else if rows[0].reservationId == key then Some(0)
    else
      var rest := Position(rows[1..], key);
      if rest.None? then None else Some(rest.value + 1)
  }

  /** Any one row of the scope, the first here. */
  function ScopeRow(rows: seq<Row>, scope: Scope): (r: Option<Row>)
    ensures r.Some? ==> r.value in rows && r.value.scope == scope
    ensures r.None? ==> forall x | x in rows :: x.scope != scope
  {
    if rows == [] then None
    else if rows[0].scope == scope then Some(rows[0])
    else ScopeRow(rows[1..], scope)
  }

  function ScopeUsage(rows: seq<Row>, scope: Scope): Usage {
    if rows == [] then ZERO
    else
      var init, last := rows[..|rows| - 1], rows[|rows| - 1];
      if last.scope == scope then Plus(ScopeUsage(init, scope), last.Charge()) else ScopeUsage(init, scope)
  }

  // ---------------------------------------------------------------- what each operation does

  ghost function ReserveStep(hash: Usage -> string, rows: seq<Row>, request: Request, budget: Budget, usage: Usage,
                             reservationId: string): (seq<Row>, Result<Row, Error>)
  {
    if !ValidRequest(request) || !ValidBudget(hash, budget) || !ValidUsage(usage) then (rows, Failure(InvalidInput))
    else if !Leq(usage, budget.limits) then (rows, Failure(BudgetExceeded))
    else
      var key := KeyOf(request, reservationId);
      match Position(rows, key)
      case Some(i) =>
        var existing := rows[i];
        if existing.scope != request.scope || existing.requestDigest != request.digest
           || existing.budgetDigest != budget.digest || existing.reserved != usage
        then (rows, Failure(BudgetConflict))
        else (rows, Success(existing))
      case None =>
        var other := ScopeRow(rows, request.scope);
        if other.Some? && (other.value.budgetDigest != budget.digest || other.value.requestDigest != request.digest)
        then (rows, Failure(BudgetConflict))
        else if !Leq(Plus(ScopeUsage(rows, request.scope), usage), budget.limits)
        then (rows, Failure(BudgetExceeded))
        else if !ValidKey(key) then (rows, Failure(ReservationInvalid))
        else
          var row := Row(key, request.scope, request.digest, budget.digest, budget.limits, usage, None);
          (rows + [row], Success(row))
  }

  ghost function FinalizeStep(hash: Usage -> string, rows: seq<Row>, reservation: Row, actual: Usage)
    : (seq<Row>, Result<Row, Error>)
  {
    if !ValidUsage(actual) then (rows, Failure(InvalidInput))
    else
      match Position(rows, reservation.reservationId)
      case None => (rows, Failure(BudgetNotFound))
      case Some(i) =>
        var existing := rows[i];
        if existing.scope != reservation.scope || existing.requestDigest != reservation.requestDigest
        then (rows, Failure(BudgetConflict))
        else if existing.Finalized() then
          if existing.actual.value != actual then (rows, Failure(BudgetConflict)) else (rows, Success(existing))
        else if hash(existing.limits) != existing.budgetDigest then (rows, Failure(RecordInvalid))
        else if !Leq(actual, existing.reserved) || !Leq(actual, existing.limits) then (rows, Failure(BudgetExceeded))
        else
          var finalized := existing.(actual := Some(actual));
          (rows[i := finalized], Success(finalized))
  }

  /**
   The table, and whether a transaction was left open. A key that the reservation model refuses is refused
   inside the transaction by an error that no handler rolls back.
   */
  datatype Ledger = Ledger(rows: seq<Row>, open: bool)

  /** A call that finds a transaction open cannot begin its own: it fails, and its handler rolls the old one back. */
  ghost function ReserveCall(hash: Usage -> string, l: Ledger, request: Request, budget: Budget, usage: Usage,
                             reservationId: string): (Ledger, Result<Row, Error>)
  {
    if !ValidRequest(request) || !ValidBudget(hash, budget) || !ValidUsage(usage) then (l, Failure(InvalidInput))
    else if !Leq(usage, budget.limits) then (l, Failure(BudgetExceeded))
    else if l.open then (l.(open := false), Failure(StoreUnavailable))
    else
      var (rows, r) := ReserveStep(hash, l.rows, request, budget, usage, reservationId);
      (Ledger(rows, r == Failure(ReservationInvalid)), r)
  }

  ghost function FinalizeCall(hash: Usage -> string, l: Ledger, reservation: Row, actual: Usage)
    : (Ledger, Result<Row, Error>)
  {
    if !ValidUsage(actual) then (l, Failure(InvalidInput))
    else if l.open then (l.(open := false), Failure(StoreUnavailable))
    else
      var (rows, r) := FinalizeStep(hash, l.rows, reservation, actual);
      (Ledger(rows, false), r)
  }

  /** A scoped read of one reservation. */
  function Get(rows: seq<Row>, reservationId: string, scope: Scope): Option<Row> {
    var i := Position(rows, reservationId);
    if i.Some? && rows[i.value].scope == scope then Some(rows[i.value]) else None
  }

  // ---------------------------------------------------------------- the store itself

  class SQLiteRepairBudgetLedger {
    const hash: Usage -> string
    var rows: seq<Row>
    /** A transaction that a refused key has left open. */
    var open: bool

    ghost function Contents(): Ledger
      reads this
    {
      Ledger(rows, open)
    }

    constructor (hash: Usage -> string)
      ensures this.hash == hash && Contents() == Ledger([], false)
    {
      this.hash := hash;
      rows := [];
      open := false;
    }

    method SumScope(scope: Scope) returns (totals: Usage)
      ensures totals == ScopeUsage(rows, scope)
    {
      totals := ZERO;
      for i := 0 to |rows|
        invariant totals == ScopeUsage(rows[..i], scope)
      {
        assert rows[..i + 1][..i] == rows[..i];
        if rows[i].scope == scope {
          var value := if rows[i].Finalized() then rows[i].actual.value else rows[i].reserved;
          totals := Plus(totals, value);
        }
      }
      assert rows[..|rows|] == rows;
    }

    method Reserve(request: Request, budget: Budget, usage: Usage, reservationId: string)
      returns (r: Result<Row, Error>)
      modifies this
      ensures (Contents(), r) == ReserveCall(hash, old(Contents()), request, budget, usage, reservationId)
    {
      if !ValidRequest(request) || !ValidBudget(hash, budget) || !ValidUsage(usage) {
        return Failure(InvalidInput);
      }
      if !Leq(usage, budget.limits) {
        return Failure(BudgetExceeded);
      }
      if open {
        open := false;
        return Failure(StoreUnavailable);
      }
      var key := if reservationId == "" then request.digest else reservationId;
      var position := Position(rows, key);
      if position.Some? {
        var existing := rows[position.value];
        if existing.scope != request.scope || existing.requestDigest != request.digest
           || existing.budgetDigest != budget.digest || existing.reserved != usage {
          return Failure(BudgetConflict);
        }
        return Success(existing);
      }
      var other := ScopeRow(rows, request.scope);
      if other.Some? {
        if other.value.budgetDigest != budget.digest || other.value.requestDigest != request.digest {
          return Failure(BudgetConflict);
        }
      }
      var current := SumScope(request.scope);
      if !Leq(Plus(current, usage), budget.limits) {
        return Failure(BudgetExceeded);
      }
      if !ValidKey(key) {
        open := true;
        return Failure(ReservationInvalid);
      }
      var row := Row(key, request.scope, request.digest, budget.digest, budget.limits, usage, None);
      rows := rows + [row];
      return Success(row);
    }

    method Finalize(reservation: Row, actual: Usage) returns (r: Result<Row, Error>)
      modifies this
      ensures (Contents(), r) == FinalizeCall(hash, old(Contents()), reservation, actual)
    {
      if !ValidUsage(actual) {
        return Failure(InvalidInput);
      }
      if open {
        open := false;
        return Failure(StoreUnavailable);
      }
      var position := Position(rows, reservation.reservationId);
      if position.None? {
        return Failure(BudgetNotFound);
      }
      var existing := rows[position.value];
      if existing.scope != reservation.scope || existing.requestDigest != reservation.requestDigest {
        return Failure(BudgetConflict);
      }
      if existing.Finalized() {
        if existing.actual.value != actual {
          return Failure(BudgetConflict);
        }
        return Success(existing);
      }
      if hash(existing.limits) != existing.budgetDigest {
        return Failure(RecordInvalid);
      }
      if !Leq(actual, existing.reserved) || !Leq(actual, existing.limits) {
        return Failure(BudgetExceeded);
      }
      var finalized := existing.(actual := Some(actual));
      rows := rows[position.value := finalized];
      return Success(finalized);
    }

    method Fetch(reservationId: string, scope: Scope) returns (r: Option<Row>)
      ensures r == Get(rows, reservationId, scope)
    {
      var position := Position(rows, reservationId);
      if position.Some? && rows[position.value].scope == scope {
        return Some(rows[position.value]);
      }
      return None;
    }
  }

  // ---------------------------------------------------------------- the invariant of every run

  datatype Op =
    | ReserveOp(request: Request, budget: Budget, usage: Usage, reservationId: string)
    | FinalizeOp(reservation: Row, actual: Usage)

  ghost function Step(hash: Usage -> string, l: Ledger, op: Op): Ledger {
    match op
    case ReserveOp(request, budget, usage, reservationId) =>
      ReserveCall(hash, l, request, budget, usage, reservationId).0
    case FinalizeOp(reservation, actual) => FinalizeCall(hash, l, reservation, actual).0
  }

  datatype Run = Begin | Do(prev: Run, op: Op)

  ghost function After(hash: Usage -> string, run: Run): Ledger {
    match run
    case Begin => Ledger([], false)
    case Do(prev, op) => Step(hash, After(hash, prev), op)
  }

  ghost predicate CollisionFree(hash: Usage -> string) {
    forall a, b :: hash(a) == hash(b) ==> a == b
  }

  ghost predicate RowOk(hash: Usage -> string, row: Row) {
    && ValidKey(row.reservationId) && ValidUsage(row.reserved) && Leq(row.reserved, row.limits)
    && row.budgetDigest == hash(row.limits)
    && (row.actual.Some? ==> ValidUsage(row.actual.value) && Leq(row.actual.value, row.reserved))
  }

  /** Rows of one scope share their budget and their request. */
  ghost predicate SameTerms(a: Row, b: Row) {
    a.scope == b.scope ==>
      a.budgetDigest == b.budgetDigest && a.limits == b.limits && a.requestDigest == b.requestDigest
  }

  ghost predicate Inv(hash: Usage -> string, rows: seq<Row>) {
    && (forall i | 0 <= i < |rows| :: RowOk(hash, rows[i]))
    && (forall i, j | 0 <= i < |rows| && 0 <= j < |rows| :: SameTerms(rows[i], rows[j]))
    && (forall i, j | 0 <= i < j < |rows| :: rows[i].reservationId != rows[j].reservationId)
    && forall i | 0 <= i < |rows| :: Leq(ScopeUsage(rows, rows[i].scope), rows[i].limits)
  }

  lemma ScopeUsageAppend(rows: seq<Row>, row: Row, scope: Scope)
    ensures ScopeUsage(rows + [row], scope) ==
            if row.scope == scope then Plus(ScopeUsage(rows, scope), row.Charge()) else ScopeUsage(rows, scope)
  {
    assert (rows + [row])[..|rows|] == rows;
  }

  /** Replacing a row changes its scope's usage by exactly the difference of the two charges. */
  lemma {:induction false} ScopeUsageUpdate(rows: seq<Row>, i: nat, row: Row, scope: Scope)
    requires i < |rows| && row.scope == rows[i].scope
    ensures ScopeUsage(rows[i := row], scope) ==
            if row.scope == scope then Plus(ScopeUsage(rows, scope), Minus(row.Charge(), rows[i].Charge()))
            else ScopeUsage(rows, scope)
  {
    var changed, n := rows[i := row], |rows| - 1;
    if i == n {
      assert changed[..n] == rows[..n];
    } else {
      ScopeUsageUpdate(rows[..n], i, row, scope);
      assert changed[..n] == rows[..n][i := row] && changed[n] == rows[n];
    }
  }

  /** A reservation adds nothing, or one row on the scope's terms that still fits the budget. */
  lemma ReserveAdds(hash: Usage -> string, rows: seq<Row>, request: Request, budget: Budget, usage: Usage, id: string)
    requires CollisionFree(hash) && Inv(hash, rows)
    ensures var next := ReserveStep(hash, rows, request, budget, usage, id).0;
            var row := Row(KeyOf(request, id), request.scope, request.digest, budget.digest, budget.limits, usage, None);
            next != rows ==>
              && next == rows + [row] && RowOk(hash, row)
              && Leq(Plus(ScopeUsage(rows, row.scope), usage), row.limits)
              && (forall j | 0 <= j < |rows| :: rows[j].reservationId != row.reservationId && SameTerms(rows[j], row))
  {
    hide SameTerms, ScopeUsage;
    var (next, r) := ReserveStep(hash, rows, request, budget, usage, id);
    if next != rows {
      MatchingRowSharesTerms(hash, rows, r.value);
    }
  }

  /** A row that agrees with whichever row of its scope was looked at agrees with all of them. */
  lemma MatchingRowSharesTerms(hash: Usage -> string, rows: seq<Row>, row: Row)
    requires CollisionFree(hash) && Inv(hash, rows) && row.budgetDigest == hash(row.limits)
    requires var other := ScopeRow(rows, row.scope);
             other.Some? ==> other.value.budgetDigest == row.budgetDigest && other.value.requestDigest == row.requestDigest
    ensures forall j | 0 <= j < |rows| :: SameTerms(rows[j], row)
  {
    forall j | 0 <= j < |rows| && rows[j].scope == row.scope ensures SameTerms(rows[j], row) {
      var other := ScopeRow(rows, row.scope).value;
      var k :| 0 <= k < |rows| && rows[k] == other;
      assert SameTerms(rows[j], rows[k]) && RowOk(hash, rows[j]);
    }
  }

  lemma InvAppend(hash: Usage -> string, rows: seq<Row>, row: Row)
    requires Inv(hash, rows) && RowOk(hash, row) && row.actual.None?
    requires Leq(Plus(ScopeUsage(rows, row.scope), row.reserved), row.limits)
    requires forall j | 0 <= j < |rows| :: rows[j].reservationId != row.reservationId && SameTerms(rows[j], row)
    ensures Inv(hash, rows + [row])
  {
    hide RowOk, ScopeUsage, SameTerms, Leq, Plus;
    var next := rows + [row];
    forall j, k | 0 <= j < |next| && 0 <= k < |next| ensures SameTerms(next[j], next[k]) {
      assert j < |rows| ==> next[j] == rows[j];
      assert k < |rows| ==> next[k] == rows[k];
      SameTermsSymmetric(next[j], next[k]);
    }
    forall j | 0 <= j < |next| ensures Leq(ScopeUsage(next, next[j].scope), next[j].limits) {
      if j < |rows| {
        assert next[j] == rows[j];
        StillWithinLimits(rows, row, rows[j]);
      } else {
        ScopeUsageAppend(rows, row, row.scope);
      }
    }
  }

  lemma SameTermsSymmetric(a: Row, b: Row)
    ensures SameTerms(a, b) <==> SameTerms(b, a)
    ensures SameTerms(a, a)
  {
  }

  lemma StillWithinLimits(rows: seq<Row>, row: Row, other: Row)
    requires SameTerms(other, row) && Leq(ScopeUsage(rows, other.scope), other.limits)
    requires row.actual.None? && Leq(Plus(ScopeUsage(rows, row.scope), row.reserved), row.limits)
    ensures Leq(ScopeUsage(rows + [row], other.scope), other.limits)
  {
    ScopeUsageAppend(rows, row, other.scope);
  }

  lemma ReserveInv(hash: Usage -> string, rows: seq<Row>, request: Request, budget: Budget, usage: Usage, id: string)
    requires CollisionFree(hash) && Inv(hash, rows)
    ensures Inv(hash, ReserveStep(hash, rows, request, budget, usage, id).0)
  {
    hide Inv, ReserveStep, RowOk, ScopeUsage;
    ReserveAdds(hash, rows, request, budget, usage, id);
    if ReserveStep(hash, rows, request, budget, usage, id).0 != rows {
      InvAppend(hash, rows, Row(KeyOf(request, id), request.scope, request.digest, budget.digest, budget.limits, usage, None));
    }
  }

  lemma FinalizeInv(hash: Usage -> string, rows: seq<Row>, reservation: Row, actual: Usage)
    requires Inv(hash, rows)
    ensures Inv(hash, FinalizeStep(hash, rows, reservation, actual).0)
  {
    var next := FinalizeStep(hash, rows, reservation, actual).0;
    if next != rows {
      var i := Position(rows, reservation.reservationId).value;
      var finalized := rows[i].(actual := Some(actual));
      assert next == rows[i := finalized] && RowOk(hash, rows[i]);
      forall j, k | 0 <= j < |next| && 0 <= k < |next| ensures SameTerms(next[j], next[k]) {
        assert SameTerms(rows[j], rows[k]);
      }
      forall j | 0 <= j < |next| ensures Leq(ScopeUsage(next, next[j].scope), next[j].limits) {
        ScopeUsageUpdate(rows, i, finalized, next[j].scope);
        assert Leq(ScopeUsage(rows, rows[j].scope), rows[j].limits);
      }
    }
  }

  /** In every reachable state and dimension, each scope's charges fit the one budget its rows share. */
  lemma {:induction false} LedgerWithinBudget(hash: Usage -> string, run: Run)
    requires CollisionFree(hash)
    ensures Inv(hash, After(hash, run).rows)
  {
    hide Inv, ReserveStep, FinalizeStep;
    match run
    case Begin => EmptyInv(hash);
    case Do(prev, op) =>
      LedgerWithinBudget(hash, prev);
      var rows := After(hash, prev).rows;
      match op
      case ReserveOp(request, budget, usage, id) => ReserveInv(hash, rows, request, budget, usage, id);
      case FinalizeOp(reservation, actual) => FinalizeInv(hash, rows, reservation, actual);
  }

  lemma EmptyInv(hash: Usage -> string)
    ensures Inv(hash, [])
  {
  }

  /** Every key the run reserves under is one the reservation model accepts. */
  ghost predicate KeysAccepted(run: Run) {
    run.Do? ==>
      KeysAccepted(run.prev) && (run.op.ReserveOp? ==> ValidKey(KeyOf(run.op.request, run.op.reservationId)))
  }

  /** Only a refused key leaves a transaction open. */
  lemma {:induction false} NothingLeftOpen(hash: Usage -> string, run: Run)
    requires KeysAccepted(run)
    ensures !After(hash, run).open
  {
    if run.Do? {
      NothingLeftOpen(hash, run.prev);
    }
  }

  /** The check against one row of the scope is a check against all of them. */
  lemma OneRowCheckSuffices(hash: Usage -> string, run: Run, scope: Scope, row: Row)
    requires CollisionFree(hash) && row in After(hash, run).rows && row.scope == scope
    ensures var other := ScopeRow(After(hash, run).rows, scope);
            && other.Some? && other.value.budgetDigest == row.budgetDigest && other.value.requestDigest == row.requestDigest
            && other.value.limits == row.limits
  {
    LedgerWithinBudget(hash, run);
    var rows := After(hash, run).rows;
    var other := ScopeRow(rows, scope).value;
    var i :| 0 <= i < |rows| && rows[i] == row;
    var j :| 0 <= j < |rows| && rows[j] == other;
    assert SameTerms(rows[j], rows[i]);
  }

  /** Finalizing frees exactly what was reserved and not used, in its own scope only. */
  lemma FinalizeFreesDifference(hash: Usage -> string, rows: seq<Row>, reservation: Row, actual: Usage, scope: Scope)
    requires var (next, r) := FinalizeStep(hash, rows, reservation, actual); r.Success? && next != rows
    ensures var (next, r) := FinalizeStep(hash, rows, reservation, actual);
            && r.value.actual == Some(actual) && Leq(actual, r.value.reserved)
            && ScopeUsage(next, scope) ==
               if scope == r.value.scope then Minus(ScopeUsage(rows, scope), Minus(r.value.reserved, actual))
               else ScopeUsage(rows, scope)
  {
    var i := Position(rows, reservation.reservationId).value;
    ScopeUsageUpdate(rows, i, rows[i].(actual := Some(actual)), scope);
  }

  /** Reserving again with the same terms returns the stored row and adds no charge, even once finalized. */
  lemma ReserveIsIdempotent(hash: Usage -> string, rows: seq<Row>, request: Request, budget: Budget, usage: Usage, id: string)
    requires Inv(hash, rows)
    requires ReserveStep(hash, rows, request, budget, usage, id).1.Success?
    ensures var (next, r) := ReserveStep(hash, rows, request, budget, usage, id);
            ReserveStep(hash, next, request, budget, usage, id) == (next, r)
  {
    var (next, r) := ReserveStep(hash, rows, request, budget, usage, id);
    if next != rows {
      PositionAppend(rows, r.value);
    }
  }

  lemma {:induction false} PositionAppend(rows: seq<Row>, row: Row)
    requires Position(rows, row.reservationId).None?
    ensures Position(rows + [row], row.reservationId) == Some(|rows|)
  {
    if rows == [] {
      assert [row][1..] == [];
    } else {
      assert (rows + [row])[0] == rows[0] && (rows + [row])[1..] == rows[1..] + [row];
      PositionAppend(rows[1..], row);
    }
  }
}

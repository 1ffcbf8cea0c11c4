/** What the budget ledger answers and keeps, dimension by dimension, over whole runs. */
module RepairLedgerAnswers {
  import opened Wrappers
  import Text
  import opened RepairLedger

  datatype Dimension = ModelCalls | InputTokens | OutputTokens | CostUnits | Files | CandidateBytes | ValidationSeconds

  function Of(u: Usage, d: Dimension): int {
    match d
    case ModelCalls => u.modelCalls
    case InputTokens => u.inputTokens
    case OutputTokens => u.outputTokens
    case CostUnits => u.costUnits
    case Files => u.files
    case CandidateBytes => u.candidateBytes
    case ValidationSeconds => u.validationSeconds
  }

  function Cap(d: Dimension): int {
    match d
    case ModelCalls => 10_000
    case InputTokens => 100_000_000
    case OutputTokens => 100_000_000
    case CostUnits => 0x7fff_ffff_ffff_ffff
    case Files => 10_000
    case CandidateBytes => 0x7fff_ffff
    case ValidationSeconds => 86_400
  }

  /** What a row costs its scope: what was used once it is known, and until then all that was reserved. */
  function Cost(row: Row, d: Dimension): int {
    match row.actual
    case None => Of(row.reserved, d)
    case Some(used) => Of(used, d)
  }

  function Spent(rows: seq<Row>, scope: Scope, d: Dimension): int {
    if rows == [] then 0
    else
      Spent(rows[..|rows| - 1], scope, d) + if rows[|rows| - 1].scope == scope then Cost(rows[|rows| - 1], d) else 0
  }

  lemma {:induction false} UsageIsSpent(rows: seq<Row>, scope: Scope, d: Dimension)
    ensures Of(ScopeUsage(rows, scope), d) == Spent(rows, scope, d)
  {
    if rows != [] {
      UsageIsSpent(rows[..|rows| - 1], scope, d);
    }
  }

  ghost predicate Under(a: Usage, b: Usage) {
    forall d :: Of(a, d) <= Of(b, d)
  }

  lemma LeqIsUnder(a: Usage, b: Usage)
    ensures Leq(a, b) <==> Under(a, b)
  {
    if Under(a, b) {
      assert Of(a, ModelCalls) <= Of(b, ModelCalls) && Of(a, InputTokens) <= Of(b, InputTokens);
      assert Of(a, OutputTokens) <= Of(b, OutputTokens) && Of(a, CostUnits) <= Of(b, CostUnits);
      assert Of(a, Files) <= Of(b, Files) && Of(a, CandidateBytes) <= Of(b, CandidateBytes);
      assert Of(a, ValidationSeconds) <= Of(b, ValidationSeconds);
    }
  }

  /** In every run, each dimension of what a scope has spent is within the limits of the one budget its rows share. */
  lemma WithinBudgetEverywhere(hash: Usage -> string, run: Run, a: Row, b: Row, d: Dimension)
    requires CollisionFree(hash) && a in After(hash, run).rows && b in After(hash, run).rows && a.scope == b.scope
    ensures a.limits == b.limits && a.requestDigest == b.requestDigest && a.budgetDigest == b.budgetDigest
    ensures Spent(After(hash, run).rows, a.scope, d) <= Of(a.limits, d)
    ensures 0 <= Cost(a, d) <= Of(a.reserved, d) <= Of(a.limits, d)
  {
    var rows := After(hash, run).rows;
    LedgerWithinBudget(hash, run);
    var i :| 0 <= i < |rows| && rows[i] == a;
    var j :| 0 <= j < |rows| && rows[j] == b;
    assert SameTerms(rows[i], rows[j]) && RowOk(hash, rows[i]) && Leq(ScopeUsage(rows, rows[i].scope), rows[i].limits);
    UsageIsSpent(rows, a.scope, d);
    LeqIsUnder(ScopeUsage(rows, a.scope), a.limits);
    LeqIsUnder(a.reserved, a.limits);
    LeqIsUnder(ZERO, a.Charge());
    LeqIsUnder(a.Charge(), a.reserved);
    assert Of(ZERO, d) == 0 && Of(a.Charge(), d) == Cost(a, d);
    LeqIsUnder(ZERO, a.reserved);
    assert Leq(a.reserved, a.reserved);
  }

  predicate Keyable(key: string) {
    1 <= |key| <= 256 && Text.Trimmed(key)
  }

  ghost predicate Measured(u: Usage) {
    forall d :: 0 <= Of(u, d) <= Cap(d)
  }

  /** The request, its budget and the usage asked for are sound, and the budget could carry it on its own. */
  ghost predicate Asked(hash: Usage -> string, request: Request, budget: Budget, usage: Usage) {
    && request.digest != "" && Measured(usage) && Under(usage, budget.limits)
    && (forall d :: 1 <= Of(budget.limits, d) <= Cap(d)) && budget.digest == hash(budget.limits)
  }

  lemma MeasuredIsValid(u: Usage)
    ensures ValidUsage(u) <==> Measured(u)
  {
    LeqIsUnder(ZERO, u);
    LeqIsUnder(u, CAPS);
    assert forall d :: Of(ZERO, d) == 0 && Of(CAPS, d) == Cap(d);
  }

  lemma AskedIsValid(hash: Usage -> string, request: Request, budget: Budget, usage: Usage)
    ensures ValidRequest(request) && ValidBudget(hash, budget) && ValidUsage(usage) && Leq(usage, budget.limits)
            <==> Asked(hash, request, budget, usage)
  {
    var ones := Usage(1, 1, 1, 1, 1, 1, 1);
    MeasuredIsValid(usage);
    LeqIsUnder(usage, budget.limits);
    LeqIsUnder(ones, budget.limits);
    LeqIsUnder(budget.limits, CAPS);
    assert forall d :: Of(ones, d) == 1 && Of(CAPS, d) == Cap(d);
  }

  /**
   Under a new key a reservation succeeds exactly if it is sound, every row of its scope is for the same
   request and budget, what the scope has spent and this fit the budget in every dimension, the key can be
   filed and no transaction is open; and then its row is added, open.
   */
  lemma ReservedIff(hash: Usage -> string, run: Run, request: Request, budget: Budget, usage: Usage, id: string)
    requires CollisionFree(hash)
    requires var key := if id == "" then request.digest else id;
             forall row | row in After(hash, run).rows :: row.reservationId != key
    ensures var l := After(hash, run); var key := if id == "" then request.digest else id;
            var (next, r) := ReserveCall(hash, l, request, budget, usage, id);
            && (r.Success? <==>
                && Asked(hash, request, budget, usage) && !l.open && Keyable(key)
                && (forall row | row in l.rows && row.scope == request.scope ::
                      row.requestDigest == request.digest && row.budgetDigest == budget.digest)
                && forall d :: Spent(l.rows, request.scope, d) + Of(usage, d) <= Of(budget.limits, d))
            && (r.Success? ==>
                  && r.value == Row(key, request.scope, request.digest, budget.digest, budget.limits, usage, None)
                  && next == Ledger(l.rows + [r.value], false))
            && (r.Failure? ==> next.rows == l.rows)
  {
    hide Asked, Leq, Inv;
    var l := After(hash, run);
    AskedIsValid(hash, request, budget, usage);
    LedgerWithinBudget(hash, run);
    ScopeAgrees(hash, l.rows, request, budget);
    SpentAndMore(l.rows, request.scope, usage, budget.limits);
  }

  lemma ScopeAgrees(hash: Usage -> string, rows: seq<Row>, request: Request, budget: Budget)
    requires Inv(hash, rows)
    ensures var other := ScopeRow(rows, request.scope);
            (other.Some? ==> other.value.budgetDigest == budget.digest && other.value.requestDigest == request.digest)
            <==> forall row | row in rows && row.scope == request.scope ::
                   row.requestDigest == request.digest && row.budgetDigest == budget.digest
  {
    var other := ScopeRow(rows, request.scope);
    if other.Some? {
      var i :| 0 <= i < |rows| && rows[i] == other.value;
      forall row | row in rows && row.scope == request.scope ensures SameTerms(row, other.value) {
        var j :| 0 <= j < |rows| && rows[j] == row;
        assert SameTerms(rows[j], rows[i]);
      }
    }
  }

  lemma SpentAndMore(rows: seq<Row>, scope: Scope, usage: Usage, limits: Usage)
    ensures Leq(Plus(ScopeUsage(rows, scope), usage), limits)
            <==> forall d :: Spent(rows, scope, d) + Of(usage, d) <= Of(limits, d)
  {
    var sum := Plus(ScopeUsage(rows, scope), usage);
    LeqIsUnder(sum, limits);
    forall d ensures Of(sum, d) == Spent(rows, scope, d) + Of(usage, d) {
      UsageIsSpent(rows, scope, d);
    }
  }

  /** Under a known key it succeeds exactly on the terms that key was filed with; either way no row changes. */
  lemma ReservedAgainIff(hash: Usage -> string, run: Run, request: Request, budget: Budget, usage: Usage, id: string, row: Row)
    requires CollisionFree(hash)
    requires row in After(hash, run).rows && row.reservationId == if id == "" then request.digest else id
    ensures var l := After(hash, run);
            var (next, r) := ReserveCall(hash, l, request, budget, usage, id);
            && (r.Success? <==>
                && Asked(hash, request, budget, usage) && !l.open
                && row.scope == request.scope && row.requestDigest == request.digest
                && row.budgetDigest == budget.digest && row.reserved == usage)
            && (r.Success? ==> r.value == row)
            && next == Ledger(l.rows, l.open && r.Failure? && !Asked(hash, request, budget, usage))
  {
    hide Asked, Leq;
    AskedIsValid(hash, request, budget, usage);
    TheRow(hash, run, row);
  }

  lemma TheRow(hash: Usage -> string, run: Run, row: Row)
    requires CollisionFree(hash) && row in After(hash, run).rows
    ensures var rows := After(hash, run).rows; var p := Position(rows, row.reservationId); p.Some? && rows[p.value] == row
  {
    LedgerWithinBudget(hash, run);
    var rows := After(hash, run).rows;
    var i :| 0 <= i < |rows| && rows[i] == row;
  }

  /**
   A charge is taken exactly for a filed reservation, named with its scope and request, if it is within what was
   reserved in every dimension and no other charge was made; it fills in the row and changes nothing else.
   */
  lemma FinalizedIff(hash: Usage -> string, run: Run, reservation: Row, actual: Usage)
    requires CollisionFree(hash)
    ensures var l := After(hash, run); var (next, r) := FinalizeCall(hash, l, reservation, actual);
            && (r.Success? <==>
                && Measured(actual) && !l.open
                && exists i :: 0 <= i < |l.rows| && Chargeable(l.rows[i], reservation, actual))
            && (r.Failure? ==> next.rows == l.rows)
            && forall i | 0 <= i < |l.rows| && r.Success? && l.rows[i].reservationId == reservation.reservationId ::
                 r.value == l.rows[i].(actual := Some(actual)) && next == Ledger(l.rows[i := r.value], false)
  {
    hide Leq, ValidUsage, Measured;
    var l := After(hash, run);
    MeasuredIsValid(actual);
    LedgerWithinBudget(hash, run);
    var p := Position(l.rows, reservation.reservationId);
    if p.Some? {
      var row := l.rows[p.value];
      assert RowOk(hash, row);
      LeqIsUnder(actual, row.reserved);
      LeqIsUnder(actual, row.limits);
      LeqIsUnder(row.reserved, row.limits);
      UnderTransitive(actual, row.reserved, row.limits);
      assert row.actual.None? ==> row.(actual := Some(actual)) != row;
    }
  }

  lemma UnderTransitive(a: Usage, b: Usage, c: Usage)
    requires Under(b, c)
    ensures Under(a, b) ==> Under(a, c)
  {
    if Under(a, b) {
      forall d ensures Of(a, d) <= Of(c, d) {
        assert Of(a, d) <= Of(b, d) <= Of(c, d);
      }
    }
  }

  ghost predicate Chargeable(row: Row, reservation: Row, actual: Usage) {
    && row.reservationId == reservation.reservationId && row.scope == reservation.scope
    && row.requestDigest == reservation.requestDigest
    && if row.actual.Some? then row.actual == Some(actual) else Under(actual, row.reserved)
  }
}

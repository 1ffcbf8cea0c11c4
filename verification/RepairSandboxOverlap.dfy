/**
 Sandbox attempts that overlap. An attempt is four transactions, and those of different attempts may be
 interleaved in any order: the replay check, the reservation with the model call, the charge for the
 outcome, and on a failing exit the charge for everything reserved.
 */
module RepairSandboxOverlap {
  import opened Wrappers
  import L = RepairLedger
  import opened RepairSandbox
  import opened S = RepairSandboxSafety

  /**
   `Finished` has charged the reservation, or found it charged. `Dropped` could not: its charge met a
   transaction left open, and the failure is swallowed.
   */
  datatype Phase =
    | Checked(seen: nat)
    | Refused(error: Error)
    | Working(row: L.Row)
    | Failing(row: L.Row, error: Error)
    | Finished(row: L.Row, result: Result<Outcome, Error>)
    | Dropped(row: L.Row, error: Error)
  {
    function Answer(): Option<Result<Outcome, Error>> {
      match this
      case Refused(error) => Some(Failure(error))
      case Finished(_, result) => Some(result)
      case Dropped(_, error) => Some(Failure(error))
      case _ => None
    }

    predicate HasRow() {
      Working? || Failing? || Finished? || Dropped?
    }
  }

  /** `seen` is how many rows the ledger had when the attempt passed the replay check. */
  datatype Thread = Thread(attempt: Attempt, base: Files, phase: Phase)

  datatype Call = Call(id: string, key: string)

  datatype System = System(ledger: L.Ledger, calls: seq<Call>, threads: seq<Thread>)

  datatype Move = Check(attempt: Attempt) | Reserve(i: nat) | Settle(i: nat) | Charge(i: nat)

  function Key(a: Attempt): string {
    L.KeyOf(a.request, a.id)
  }

  function CheckMove(s: System, a: Attempt): System {
    var prepared := Prepare(a.request, a.diagnostics, a.world);
    if prepared.Failure? || L.Get(s.ledger.rows, a.id, a.request.scope).Some? then s
    else s.(threads := s.threads + [Thread(a, prepared.value, Checked(|s.ledger.rows|))])
  }

  ghost function ReserveMove(hash: L.Usage -> string, s: System, i: nat): System
    requires i < |s.threads| && s.threads[i].phase.Checked?
  {
    var t := s.threads[i];
    var (ledger, r) := L.ReserveCall(hash, s.ledger, t.attempt.request, t.attempt.budget, t.attempt.reserved, t.attempt.id);
    if r.Failure? then s.(ledger := ledger, threads := s.threads[i := t.(phase := Refused(ReserveError(r.error)))])
    else System(ledger, s.calls + [Call(t.attempt.id, Key(t.attempt))], s.threads[i := t.(phase := Working(r.value))])
  }

  ghost function SettleMove(hash: L.Usage -> string, s: System, i: nat): System
    requires i < |s.threads| && s.threads[i].phase.Working?
  {
    var t := s.threads[i];
    match Work(t.attempt.request, t.attempt.reserved, t.base, t.attempt.world)
    case Failure(error) => s.(threads := s.threads[i := t.(phase := Failing(t.phase.row, error))])
    case Success(outcome) =>
      var (ledger, r) := L.FinalizeCall(hash, s.ledger, t.phase.row, outcome.actual);
      var phase := if r.Failure? then Failing(t.phase.row, BudgetFailed) else Finished(t.phase.row, Success(outcome));
      s.(ledger := ledger, threads := s.threads[i := t.(phase := phase)])
  }

  ghost function ChargeMove(hash: L.Usage -> string, s: System, i: nat): System
    requires i < |s.threads| && s.threads[i].phase.Failing?
  {
    var t := s.threads[i];
    var (ledger, r) := L.FinalizeCall(hash, s.ledger, t.phase.row, t.phase.row.reserved);
    var phase := if r == Failure(L.StoreUnavailable) then Dropped(t.phase.row, t.phase.error)
                 else Finished(t.phase.row, Failure(t.phase.error));
    s.(ledger := ledger, threads := s.threads[i := t.(phase := phase)])
  }

  /** A move out of turn is none. */
  ghost function Next(hash: L.Usage -> string, s: System, m: Move): System {
    match m
    case Check(a) => CheckMove(s, a)
    case Reserve(i) => if i < |s.threads| && s.threads[i].phase.Checked? then ReserveMove(hash, s, i) else s
    case Settle(i) => if i < |s.threads| && s.threads[i].phase.Working? then SettleMove(hash, s, i) else s
    case Charge(i) => if i < |s.threads| && s.threads[i].phase.Failing? then ChargeMove(hash, s, i) else s
  }

  datatype Interleaving = Start | Then(prev: Interleaving, move: Move)

  ghost function Reached(hash: L.Usage -> string, run: Interleaving): System {
    match run
    case Start => System(L.Ledger([], false), [], [])
    case Then(prev, m) => Next(hash, Reached(hash, prev), m)
  }

  // ---------------------------------------------------------------- without overlap it is the sandbox's own attempt

  function Ids(calls: seq<Call>): seq<string> {
    seq(|calls|, i requires 0 <= i < |calls| => calls[i].id)
  }

  /** The moves of one attempt in a row are one whole attempt, with its answer in the last thread. */
  lemma MovesInARowAreOneAttempt(hash: L.Usage -> string, s: System, a: Attempt)
    ensures var n := |s.threads|;
            var after := Next(hash, Next(hash, Next(hash, Next(hash, s, Check(a)), Reserve(n)), Settle(n)), Charge(n));
            var (whole, answer) := S.Step(hash, State(s.ledger, Ids(s.calls)), a);
            && after.ledger == whole.ledger && Ids(after.calls) == whole.calls
            && if after.threads == s.threads then
                 answer.Failure? && (Prepare(a.request, a.diagnostics, a.world).Failure? || answer.error.AttemptReplayed?)
               else
                 && |after.threads| == n + 1 && after.threads[..n] == s.threads
                 && after.threads[n].phase.Answer() == Some(answer)
  {
    hide Prepare, Work, L.ReserveCall, L.FinalizeCall, L.Get;
    var n := |s.threads|;
    var checked := Next(hash, s, Check(a));
    if checked != s {
      var reserved := Next(hash, checked, Reserve(n));
      var settled := Next(hash, reserved, Settle(n));
      var charged := Next(hash, settled, Charge(n));
      assert checked.threads[..n] == s.threads;
      assert reserved.threads[..n] == s.threads;
      assert settled.threads[..n] == s.threads;
      assert charged.threads[..n] == s.threads;
      assert Ids(s.calls + [Call(a.id, Key(a))]) == Ids(s.calls) + [a.id];
    }
  }

  // ---------------------------------------------------------------- the invariant of every interleaving

  /** The stored row at `p` is the reservation `row`, charged or not. */
  predicate SameReservation(stored: L.Row, row: L.Row) {
    stored.(actual := None) == row.(actual := None)
  }

  /** Everything a reservation has to share with a stored row to be handed it. */
  predicate Agrees(stored: L.Row, a: Attempt) {
    && stored.scope == a.request.scope && stored.requestDigest == a.request.digest
    && stored.budgetDigest == a.budget.digest && stored.reserved == a.reserved
  }

  predicate InUse(t: Thread) {
    t.phase.Working? || t.phase.Failing?
  }

  ghost predicate Filed(rows: seq<L.Row>, row: L.Row) {
    var p := L.Position(rows, row.reservationId);
    p.Some? && SameReservation(rows[p.value], row)
  }

  predicate Charged(rows: seq<L.Row>, id: string) {
    var p := L.Position(rows, id);
    p.Some? && rows[p.value].Finalized()
  }

  ghost predicate ThreadInv(rows: seq<L.Row>, t: Thread) {
    && (t.phase.HasRow() ==>
          Filed(rows, t.phase.row) && t.phase.row.reservationId == Key(t.attempt) && Agrees(t.phase.row, t.attempt))
    && (t.phase.Finished? ==> Charged(rows, t.phase.row.reservationId))
    && (t.phase.Checked? ==>
          && t.phase.seen <= |rows|
          && forall p | 0 <= p < t.phase.seen ::
               rows[p].reservationId != t.attempt.id || rows[p].scope != t.attempt.request.scope)
  }

  /** Some attempt was handed the reservation. */
  ghost predicate Taken(threads: seq<Thread>, id: string) {
    exists i | 0 <= i < |threads| :: threads[i].phase.HasRow() && threads[i].phase.row.reservationId == id
  }

  /** Some attempt on the reservation ended with it charged. */
  ghost predicate FinishedOn(threads: seq<Thread>, id: string) {
    exists i | 0 <= i < |threads| :: threads[i].phase.Finished? && threads[i].phase.row.reservationId == id
  }

  ghost predicate Safe(hash: L.Usage -> string, s: System) {
    && L.Inv(hash, s.ledger.rows)
    && (forall i | 0 <= i < |s.threads| :: ThreadInv(s.ledger.rows, s.threads[i]))
    && forall p | 0 <= p < |s.ledger.rows| ::
         && Taken(s.threads, s.ledger.rows[p].reservationId)
         && (s.ledger.rows[p].Finalized() ==> FinishedOn(s.threads, s.ledger.rows[p].reservationId))
  }

  lemma FiledSurvivesAppend(rows: seq<L.Row>, row: L.Row, held: L.Row)
    requires Filed(rows, held)
    ensures Filed(rows + [row], held)
  {
    S.PositionStays(rows, row, held.reservationId);
  }

  lemma {:induction false} PositionSurvivesCharge(rows: seq<L.Row>, p: nat, actual: L.Usage, key: string)
    requires p < |rows|
    ensures L.Position(rows[p := rows[p].(actual := Some(actual))], key) == L.Position(rows, key)
  {
    var charged := rows[p := rows[p].(actual := Some(actual))];
    if rows[0].reservationId != key {
      if p == 0 {
        assert charged[1..] == rows[1..];
      } else {
        assert charged[1..] == rows[1..][p - 1 := rows[1..][p - 1].(actual := Some(actual))];
        PositionSurvivesCharge(rows[1..], p - 1, actual, key);
      }
    }
  }

  /** What a finalization of a filed reservation does: charge it once, or leave the charge it has. */
  lemma FinalizeFiled(hash: L.Usage -> string, rows: seq<L.Row>, row: L.Row, actual: L.Usage)
    requires L.Inv(hash, rows) && Filed(rows, row) && L.ValidUsage(actual)
    ensures var p := L.Position(rows, row.reservationId).value;
            var (next, r) := L.FinalizeStep(hash, rows, row, actual);
            if rows[p].Finalized() then next == rows && (r.Success? <==> rows[p].actual == Some(actual))
            else if L.Leq(actual, row.reserved) then
              r.Success? && next == rows[p := rows[p].(actual := Some(actual))]
            else next == rows && r.Failure?
  {
    var p := L.Position(rows, row.reservationId).value;
    assert L.RowOk(hash, rows[p]);
  }

  lemma ChargeKeepsThreads(rows: seq<L.Row>, p: nat, actual: L.Usage, t: Thread)
    requires p < |rows| && ThreadInv(rows, t)
    ensures ThreadInv(rows[p := rows[p].(actual := Some(actual))], t)
  {
    if t.phase.HasRow() {
      PositionSurvivesCharge(rows, p, actual, t.phase.row.reservationId);
    }
  }

  lemma AppendKeepsThread(rows: seq<L.Row>, row: L.Row, t: Thread)
    requires ThreadInv(rows, t)
    ensures ThreadInv(rows + [row], t)
  {
    if t.phase.HasRow() {
      FiledSurvivesAppend(rows, row, t.phase.row);
      S.PositionStays(rows, row, t.phase.row.reservationId);
    }
  }

  /** Replacing a thread by one that keeps its row, or its finish, loses neither. */
  lemma TakenStays(threads: seq<Thread>, i: nat, t: Thread, id: string)
    requires i < |threads|
    requires threads[i].phase.HasRow() ==> t.phase.HasRow() && t.phase.row == threads[i].phase.row
    requires threads[i].phase.Finished? ==> t.phase.Finished?
    ensures Taken(threads, id) ==> Taken(threads[i := t], id)
    ensures FinishedOn(threads, id) ==> FinishedOn(threads[i := t], id)
  {
    var next := threads[i := t];
    if j :| 0 <= j < |threads| && threads[j].phase.HasRow() && threads[j].phase.row.reservationId == id {
      assert next[j] == if j == i then t else threads[j];
    }
    if j :| 0 <= j < |threads| && threads[j].phase.Finished? && threads[j].phase.row.reservationId == id {
      assert next[j] == if j == i then t else threads[j];
    }
  }

  lemma CheckIsSafe(hash: L.Usage -> string, s: System, a: Attempt)
    requires Safe(hash, s)
    ensures Safe(hash, CheckMove(s, a))
  {
    hide L.Inv, Prepare, Filed, Agrees, Charged;
    var next := CheckMove(s, a);
    if next != s {
      UnseenByGet(hash, s.ledger.rows, a);
      assert next.threads[..|s.threads|] == s.threads;
      forall p | 0 <= p < |s.ledger.rows|
        ensures Taken(next.threads, s.ledger.rows[p].reservationId)
        ensures s.ledger.rows[p].Finalized() ==> FinishedOn(next.threads, s.ledger.rows[p].reservationId)
      {
        TakenByMore(s.threads, next.threads[|s.threads|], s.ledger.rows[p].reservationId);
        assert next.threads == s.threads + [next.threads[|s.threads|]];
      }
    }
  }

  lemma TakenByMore(threads: seq<Thread>, t: Thread, id: string)
    ensures Taken(threads, id) ==> Taken(threads + [t], id)
    ensures FinishedOn(threads, id) ==> FinishedOn(threads + [t], id)
  {
    var next := threads + [t];
    if j :| 0 <= j < |threads| && threads[j].phase.HasRow() && threads[j].phase.row.reservationId == id {
      assert next[j] == threads[j];
    }
    if j :| 0 <= j < |threads| && threads[j].phase.Finished? && threads[j].phase.row.reservationId == id {
      assert next[j] == threads[j];
    }
  }

  lemma UnseenByGet(hash: L.Usage -> string, rows: seq<L.Row>, a: Attempt)
    requires L.Inv(hash, rows) && L.Get(rows, a.id, a.request.scope).None?
    ensures forall p | 0 <= p < |rows| :: rows[p].reservationId != a.id || rows[p].scope != a.request.scope
  {
    forall p | 0 <= p < |rows| && rows[p].reservationId == a.id ensures rows[p].scope != a.request.scope {
      var q := L.Position(rows, a.id).value;
      assert p == q;
    }
  }

  /** A reservation is handed the row filed under its key, or files a new one, or fails. */
  lemma ReserveFiles(hash: L.Usage -> string, l: L.Ledger, a: Attempt)
    requires L.CollisionFree(hash) && L.Inv(hash, l.rows)
    ensures var (next, r) := L.ReserveCall(hash, l, a.request, a.budget, a.reserved, a.id);
            && L.Inv(hash, next.rows)
            && (r.Failure? ==> next.rows == l.rows)
            && (r.Success? ==> !l.open && !next.open && r.value.reservationId == Key(a) && Agrees(r.value, a) && Filed(next.rows, r.value))
            && (r.Success? && L.Position(l.rows, Key(a)).Some? ==>
                  next.rows == l.rows && r.value == l.rows[L.Position(l.rows, Key(a)).value])
            && (L.Position(l.rows, Key(a)).Some? ==> next.rows == l.rows)
            && (r.Success? && L.Position(l.rows, Key(a)).None? ==> next.rows == l.rows + [r.value] && r.value.actual.None?)
            && (next.rows == l.rows || (r.Success? && next.rows == l.rows + [r.value]))
  {
    hide L.Inv;
    L.ReserveInv(hash, l.rows, a.request, a.budget, a.reserved, a.id);
    var (next, r) := L.ReserveCall(hash, l, a.request, a.budget, a.reserved, a.id);
    if r.Success? && L.Position(l.rows, Key(a)).None? {
      L.PositionAppend(l.rows, r.value);
    }
  }

  lemma ReserveIsSafe(hash: L.Usage -> string, s: System, i: nat)
    requires L.CollisionFree(hash) && Safe(hash, s) && i < |s.threads| && s.threads[i].phase.Checked?
    ensures Safe(hash, ReserveMove(hash, s, i))
  {
    hide L.Inv, L.ReserveCall, Filed, Agrees, Charged;
    var t := s.threads[i];
    var next := ReserveMove(hash, s, i);
    var rows := next.ledger.rows;
    ReserveFiles(hash, s.ledger, t.attempt);
    var (ledger, r) := L.ReserveCall(hash, s.ledger, t.attempt.request, t.attempt.budget, t.attempt.reserved, t.attempt.id);
    assert next.ledger == ledger && (r.Success? ==> next.threads[i].phase == Working(r.value));
    forall j | 0 <= j < |next.threads| ensures ThreadInv(rows, next.threads[j]) {
      if j != i {
        assert next.threads[j] == s.threads[j] && ThreadInv(s.ledger.rows, s.threads[j]);
        if rows != s.ledger.rows {
          AppendKeepsThread(s.ledger.rows, r.value, s.threads[j]);
        }
      }
    }
    forall p | 0 <= p < |rows|
      ensures Taken(next.threads, rows[p].reservationId)
      ensures rows[p].Finalized() ==> FinishedOn(next.threads, rows[p].reservationId)
    {
      if p < |s.ledger.rows| {
        assert rows[p] == s.ledger.rows[p];
        TakenStays(s.threads, i, next.threads[i], rows[p].reservationId);
      } else {
        assert next.threads[i].phase.HasRow();
      }
    }
  }

  /** Ending thread `i` with a finalization that went through, or was not begun, keeps the invariant. */
  lemma FinalizedIsSafe(hash: L.Usage -> string, s: System, i: nat, actual: L.Usage, t: Thread, open: bool)
    requires Safe(hash, s) && i < |s.threads| && InUse(s.threads[i]) && L.ValidUsage(actual)
    requires t.attempt == s.threads[i].attempt && t.phase.HasRow() && t.phase.row == s.threads[i].phase.row
    requires var (rows, r) := L.FinalizeStep(hash, s.ledger.rows, s.threads[i].phase.row, actual);
             && (t.phase.Finished? ==> Charged(rows, s.threads[i].phase.row.reservationId))
             && (rows != s.ledger.rows ==> t.phase.Finished?)
    ensures Safe(hash, s.(ledger := L.Ledger(L.FinalizeStep(hash, s.ledger.rows, s.threads[i].phase.row, actual).0, open),
                          threads := s.threads[i := t]))
  {
    hide L.Inv, L.FinalizeStep, Agrees, Filed, Charged;
    var row := s.threads[i].phase.row;
    var rows := L.FinalizeStep(hash, s.ledger.rows, row, actual).0;
    var threads := s.threads[i := t];
    assert ThreadInv(s.ledger.rows, s.threads[i]);
    FiledHasPosition(s.ledger.rows, row);
    L.FinalizeInv(hash, s.ledger.rows, row, actual);
    FinalizeFiled(hash, s.ledger.rows, row, actual);
    var p := L.Position(s.ledger.rows, row.reservationId).value;
    forall j | 0 <= j < |threads| ensures ThreadInv(rows, threads[j]) {
      assert ThreadInv(s.ledger.rows, s.threads[j]);
      if rows != s.ledger.rows {
        ChargeKeepsThreads(s.ledger.rows, p, actual, s.threads[j]);
      }
    }
    forall q | 0 <= q < |rows|
      ensures Taken(threads, rows[q].reservationId)
      ensures rows[q].Finalized() ==> FinishedOn(threads, rows[q].reservationId)
    {
      assert rows[q].reservationId == s.ledger.rows[q].reservationId;
      TakenStays(s.threads, i, t, rows[q].reservationId);
      if rows != s.ledger.rows && q == p {
        NowCharged(s.ledger.rows, p, actual);
        assert t.phase.Finished? && threads[i] == t;
      }
    }
  }

  lemma NowCharged(rows: seq<L.Row>, p: nat, actual: L.Usage)
    requires p < |rows| && L.Position(rows, rows[p].reservationId) == Some(p)
    ensures Charged(rows[p := rows[p].(actual := Some(actual))], rows[p].reservationId)
  {
    PositionSurvivesCharge(rows, p, actual, rows[p].reservationId);
  }

  lemma FiledHasPosition(rows: seq<L.Row>, row: L.Row)
    requires Filed(rows, row)
    ensures L.Position(rows, row.reservationId).Some?
  {
  }

  lemma UniqueRow(hash: L.Usage -> string, rows: seq<L.Row>, p: nat, q: nat)
    requires L.Inv(hash, rows) && p < |rows| && q < |rows| && rows[p].reservationId == rows[q].reservationId
    ensures p == q
  {
  }

  lemma UnfinishedIsSafe(hash: L.Usage -> string, s: System, i: nat, t: Thread, open: bool)
    requires Safe(hash, s) && i < |s.threads| && InUse(s.threads[i])
    requires t.attempt == s.threads[i].attempt && (t.phase.Failing? || t.phase.Dropped?) && t.phase.row == s.threads[i].phase.row
    ensures Safe(hash, s.(ledger := L.Ledger(s.ledger.rows, open), threads := s.threads[i := t]))
  {
    hide L.Inv, Filed, Agrees, Charged;
    var rows, threads := s.ledger.rows, s.threads[i := t];
    forall j | 0 <= j < |threads| ensures ThreadInv(rows, threads[j]) {
      assert ThreadInv(rows, s.threads[j]) && ThreadInv(rows, s.threads[i]);
    }
    forall p | 0 <= p < |rows|
      ensures Taken(threads, rows[p].reservationId)
      ensures rows[p].Finalized() ==> FinishedOn(threads, rows[p].reservationId)
    {
      TakenStays(s.threads, i, t, rows[p].reservationId);
    }
  }

  /** What a holder knows of its reservation. */
  lemma UseFacts(hash: L.Usage -> string, s: System, i: nat)
    requires Safe(hash, s) && i < |s.threads| && InUse(s.threads[i])
    ensures var row := s.threads[i].phase.row;
            && L.Inv(hash, s.ledger.rows) && Filed(s.ledger.rows, row) && L.Position(s.ledger.rows, row.reservationId).Some?
            && row.reservationId == Key(s.threads[i].attempt) && Agrees(row, s.threads[i].attempt)
            && L.ValidUsage(row.reserved) && L.Leq(row.reserved, row.reserved)
  {
    hide L.Inv, Agrees;
    assert ThreadInv(s.ledger.rows, s.threads[i]);
    HeldIsValid(hash, s.ledger.rows, s.threads[i].phase.row);
  }

  lemma HeldIsValid(hash: L.Usage -> string, rows: seq<L.Row>, row: L.Row)
    requires L.Inv(hash, rows) && Filed(rows, row)
    ensures L.ValidUsage(row.reserved) && L.Leq(row.reserved, row.reserved)
  {
    assert L.RowOk(hash, rows[L.Position(rows, row.reservationId).value]);
  }

  /** A finalization of a filed reservation that is begun and succeeds, or tries to charge all of it, leaves it charged. */
  lemma FinalizeCharges(hash: L.Usage -> string, rows: seq<L.Row>, row: L.Row, actual: L.Usage)
    requires L.Inv(hash, rows) && Filed(rows, row) && L.ValidUsage(actual)
    ensures var (next, r) := L.FinalizeStep(hash, rows, row, actual);
            && (r.Success? || actual == row.reserved ==> Charged(next, row.reservationId))
            && (next != rows ==> r.Success?)
  {
    hide L.FinalizeStep, L.Inv;
    HeldIsValid(hash, rows, row);
    FinalizeFiled(hash, rows, row, actual);
    var p := L.Position(rows, row.reservationId).value;
    PositionSurvivesCharge(rows, p, actual, row.reservationId);
  }

  lemma SettleIsSafe(hash: L.Usage -> string, s: System, i: nat)
    requires Safe(hash, s) && i < |s.threads| && s.threads[i].phase.Working?
    ensures Safe(hash, SettleMove(hash, s, i))
  {
    hide Safe, Work, L.FinalizeStep, L.Inv, Charged, Agrees, Filed;
    var t := s.threads[i];
    UseFacts(hash, s, i);
    S.SuccessfulWorkIsChargeable(t.attempt, t.base);
    match Work(t.attempt.request, t.attempt.reserved, t.base, t.attempt.world)
    case Failure(error) => UnfinishedIsSafe(hash, s, i, t.(phase := Failing(t.phase.row, error)), s.ledger.open);
    case Success(outcome) =>
      if s.ledger.open {
        UnfinishedIsSafe(hash, s, i, t.(phase := Failing(t.phase.row, BudgetFailed)), false);
      } else {
        var r := L.FinalizeStep(hash, s.ledger.rows, t.phase.row, outcome.actual).1;
        var phase := if r.Failure? then Failing(t.phase.row, BudgetFailed) else Finished(t.phase.row, Success(outcome));
        FinalizeCharges(hash, s.ledger.rows, t.phase.row, outcome.actual);
        FinalizedIsSafe(hash, s, i, outcome.actual, t.(phase := phase), false);
      }
  }

  lemma FinalizeNeverUnavailable(hash: L.Usage -> string, rows: seq<L.Row>, row: L.Row, actual: L.Usage)
    ensures L.FinalizeStep(hash, rows, row, actual).1 != Failure(L.StoreUnavailable)
  {
  }

  lemma ChargeIsSafe(hash: L.Usage -> string, s: System, i: nat)
    requires Safe(hash, s) && i < |s.threads| && s.threads[i].phase.Failing?
    ensures Safe(hash, ChargeMove(hash, s, i))
  {
    hide Safe, L.FinalizeStep, L.Inv, Charged, Agrees, Filed;
    var t := s.threads[i];
    UseFacts(hash, s, i);
    if s.ledger.open {
      UnfinishedIsSafe(hash, s, i, t.(phase := Dropped(t.phase.row, t.phase.error)), false);
    } else {
      FinalizeNeverUnavailable(hash, s.ledger.rows, t.phase.row, t.phase.row.reserved);
      FinalizeCharges(hash, s.ledger.rows, t.phase.row, t.phase.row.reserved);
      FinalizedIsSafe(hash, s, i, t.phase.row.reserved, t.(phase := Finished(t.phase.row, Failure(t.phase.error))), false);
    }
  }

  lemma NextIsSafe(hash: L.Usage -> string, s: System, m: Move)
    requires L.CollisionFree(hash) && Safe(hash, s)
    ensures Safe(hash, Next(hash, s, m))
  {
    hide Safe, CheckMove, ReserveMove, SettleMove, ChargeMove;
    match m
    case Check(a) => CheckIsSafe(hash, s, a);
    case Reserve(i) => if i < |s.threads| && s.threads[i].phase.Checked? { ReserveIsSafe(hash, s, i); }
    case Settle(i) => if i < |s.threads| && s.threads[i].phase.Working? { SettleIsSafe(hash, s, i); }
    case Charge(i) => if i < |s.threads| && s.threads[i].phase.Failing? { ChargeIsSafe(hash, s, i); }
  }

  /**
   However attempts interleave, every scope is within its budget; every reservation was handed to an attempt,
   and it is charged exactly if some attempt on it has finished.
   */
  lemma {:induction false} EveryInterleavingIsSafe(hash: L.Usage -> string, run: Interleaving)
    requires L.CollisionFree(hash)
    ensures Safe(hash, Reached(hash, run))
  {
    match run
    case Start =>
    case Then(prev, m) =>
      EveryInterleavingIsSafe(hash, prev);
      NextIsSafe(hash, Reached(hash, prev), m);
  }

  lemma ThreadFacts(hash: L.Usage -> string, s: System, i: nat)
    requires Safe(hash, s) && i < |s.threads|
    ensures L.Inv(hash, s.ledger.rows) && ThreadInv(s.ledger.rows, s.threads[i])
  {
  }

  // ---------------------------------------------------------------- which reservations stay open

  predicate AtRest(s: System) {
    forall i | 0 <= i < |s.threads| :: !InUse(s.threads[i])
  }

  /** Every attempt on the reservation ended with its charge dropped. */
  ghost predicate AllDropped(threads: seq<Thread>, id: string) {
    forall i | 0 <= i < |threads| && threads[i].phase.HasRow() && threads[i].phase.row.reservationId == id ::
      threads[i].phase.Dropped?
  }

  /**
   Once no attempt is under way, a reservation stays open if and only if the charge of every attempt that
   was handed it met a transaction left open.
   */
  lemma StaysReservedIff(hash: L.Usage -> string, run: Interleaving, p: nat)
    requires L.CollisionFree(hash) && AtRest(Reached(hash, run)) && p < |Reached(hash, run).ledger.rows|
    ensures var s := Reached(hash, run); var row := s.ledger.rows[p];
            !row.Finalized() <==> AllDropped(s.threads, row.reservationId)
  {
    hide L.Inv;
    EveryInterleavingIsSafe(hash, run);
    var s := Reached(hash, run);
    var id := s.ledger.rows[p].reservationId;
    assert Taken(s.threads, id);
    if !s.ledger.rows[p].Finalized() {
      forall i | 0 <= i < |s.threads| && s.threads[i].phase.HasRow() && s.threads[i].phase.row.reservationId == id
        ensures s.threads[i].phase.Dropped?
      {
        assert ThreadInv(s.ledger.rows, s.threads[i]);
        PositionIs(hash, s.ledger.rows, p);
      }
    }
  }

  lemma PositionIs(hash: L.Usage -> string, rows: seq<L.Row>, p: nat)
    requires L.Inv(hash, rows) && p < |rows|
    ensures L.Position(rows, rows[p].reservationId) == Some(p)
  {
    var q := L.Position(rows, rows[p].reservationId).value;
    UniqueRow(hash, rows, p, q);
  }

  /** At rest every reservation is finalized exactly if each one some attempt dropped was charged by another. */
  lemma AllFinalizedIff(hash: L.Usage -> string, run: Interleaving)
    requires L.CollisionFree(hash) && AtRest(Reached(hash, run))
    ensures var s := Reached(hash, run);
            S.AllFinalized(s.ledger.rows) <==>
              forall i | 0 <= i < |s.threads| && s.threads[i].phase.Dropped? :: FinishedOn(s.threads, s.threads[i].phase.row.reservationId)
  {
    hide L.Inv;
    EveryInterleavingIsSafe(hash, run);
    var s := Reached(hash, run);
    forall p | 0 <= p < |s.ledger.rows|
      ensures !s.ledger.rows[p].Finalized() <==> AllDropped(s.threads, s.ledger.rows[p].reservationId)
    {
      StaysReservedIff(hash, run, p);
    }
    forall i | 0 <= i < |s.threads| && s.threads[i].phase.Dropped?
      ensures var p := L.Position(s.ledger.rows, s.threads[i].phase.row.reservationId); p.Some?
    {
      assert ThreadInv(s.ledger.rows, s.threads[i]);
    }
  }

  /** Every attempt of the run brings a key that the reservation model accepts. */
  ghost predicate KeysAccepted(run: Interleaving) {
    run.Then? ==> KeysAccepted(run.prev) && (run.move.Check? ==> L.ValidKey(Key(run.move.attempt)))
  }

  ghost predicate NothingOpen(s: System) {
    && !s.ledger.open
    && forall i | 0 <= i < |s.threads| :: L.ValidKey(Key(s.threads[i].attempt)) && !s.threads[i].phase.Dropped?
  }

  lemma {:induction false} NothingLeftOpen(hash: L.Usage -> string, run: Interleaving)
    requires KeysAccepted(run)
    ensures NothingOpen(Reached(hash, run))
  {
    hide Prepare, Work, L.FinalizeStep, L.Get, L.ValidKey;
    if run.Then? {
      NothingLeftOpen(hash, run.prev);
      var s := Reached(hash, run.prev);
      match run.move
      case Check(a) =>
      case Reserve(i) =>
        if i < |s.threads| && s.threads[i].phase.Checked? {
          AcceptedKeyClosesTransaction(hash, s.ledger, s.threads[i].attempt);
        }
      case Settle(i) =>
      case Charge(i) =>
        if i < |s.threads| && s.threads[i].phase.Failing? {
          FinalizeNeverUnavailable(hash, s.ledger.rows, s.threads[i].phase.row, s.threads[i].phase.row.reserved);
        }
    }
  }

  lemma AcceptedKeyClosesTransaction(hash: L.Usage -> string, l: L.Ledger, a: Attempt)
    requires !l.open && L.ValidKey(Key(a))
    ensures !L.ReserveCall(hash, l, a.request, a.budget, a.reserved, a.id).0.open
  {
  }

  /** With acceptable keys every reservation is finalized once no attempt is under way. */
  lemma SettledMeansFinalized(hash: L.Usage -> string, run: Interleaving)
    requires L.CollisionFree(hash) && KeysAccepted(run) && AtRest(Reached(hash, run))
    ensures S.AllFinalized(Reached(hash, run).ledger.rows) && L.Inv(hash, Reached(hash, run).ledger.rows)
  {
    EveryInterleavingIsSafe(hash, run);
    NothingLeftOpen(hash, run);
    AllFinalizedIff(hash, run);
  }

  /**
   A failing run. Attempt `a` is at the gateway when `b` comes with a key the reservation model refuses;
   `a` then fails, its charge meets the transaction `b` left open, and its reservation stays open for good.
   */
  lemma RefusedKeyDropsCharge(hash: L.Usage -> string, a: Attempt, b: Attempt)
    requires Prepare(a.request, a.diagnostics, a.world).Success? && Accepted(hash, a) && L.ValidKey(Key(a))
    requires L.Leq(a.reserved, a.budget.limits)
    requires Work(a.request, a.reserved, Prepare(a.request, a.diagnostics, a.world).value, a.world).Failure?
    requires Prepare(b.request, b.diagnostics, b.world).Success? && Accepted(hash, b) && !L.ValidKey(Key(b))
    requires L.Leq(b.reserved, b.budget.limits) && b.request.scope != a.request.scope
    ensures var run := Then(Then(Then(Then(Then(Then(Start, Check(a)), Check(b)), Reserve(0)), Settle(0)), Reserve(1)), Charge(0));
            var s := Reached(hash, run);
            && AtRest(s) && |s.threads| == 2 && s.threads[0].phase.Dropped? && s.threads[1].phase == Refused(InputInvalid)
            && |s.ledger.rows| == 1 && s.ledger.rows[0].reservationId == Key(a) && !s.ledger.rows[0].Finalized()
  {
    hide Prepare, Work, L.ReserveCall, L.ValidKey, Accepted;
    var one := Then(Start, Check(a));
    var two := Then(one, Check(b));
    var three := Then(two, Reserve(0));
    var four := Then(three, Settle(0));
    var five := Then(four, Reserve(1));
    var baseA, baseB := Prepare(a.request, a.diagnostics, a.world).value, Prepare(b.request, b.diagnostics, b.world).value;
    var row := L.Row(Key(a), a.request.scope, a.request.digest, a.budget.digest, a.budget.limits, a.reserved, None);
    FirstReservation(hash, a, row);
    RefusedReservation(hash, row, b);
    var waiting := Thread(b, baseB, Checked(0));
    assert Reached(hash, one) == System(L.Ledger([], false), [], [Thread(a, baseA, Checked(0))]);
    assert Reached(hash, two) == System(L.Ledger([], false), [], [Thread(a, baseA, Checked(0)), waiting]);
    assert Reached(hash, three).threads == [Thread(a, baseA, Working(row)), waiting];
    assert Reached(hash, three).ledger == L.Ledger([row], false);
    var error := Work(a.request, a.reserved, baseA, a.world).error;
    assert Reached(hash, four).threads == [Thread(a, baseA, Failing(row, error)), waiting];
    assert Reached(hash, five).threads == [Thread(a, baseA, Failing(row, error)), Thread(b, baseB, Refused(InputInvalid))];
    assert Reached(hash, five).ledger == L.Ledger([row], true);
    AcceptedUsage(hash, a);
  }

  /** Two attempts that do it: `x` reserves and gets no answer from the model, ` x` comes from another tenant. */
  function Unanswered(hash: L.Usage -> string, tenant: string, id: string): Attempt {
    var limits := L.Usage(1, 1, 1, 1, 1, 1, 1);
    Attempt(
      L.Request(L.Scope(tenant, "e", "j"), "base", ["a.json"], "request"), L.Budget(limits, hash(limits)), limits, id, [],
      World(Some([File("a.json", Content(1, true, "1"))]), (_) => Some("base"), None, None, None, true))
  }

  lemma UnansweredIsPrepared(hash: L.Usage -> string, tenant: string, id: string)
    ensures var a := Unanswered(hash, tenant, id);
            && Prepare(a.request, a.diagnostics, a.world).Success? && Accepted(hash, a) && L.Leq(a.reserved, a.budget.limits)
            && Work(a.request, a.reserved, Prepare(a.request, a.diagnostics, a.world).value, a.world).Failure?
  {
    hide BaseFileError, Overlay, ValidPath;
    var a := Unanswered(hash, tenant, id);
    OneFile(File("a.json", Content(1, true, "1")));
    JsonName();
    var base: Files := map["a.json" := Content(1, true, "1")];
    assert "a.json" in base && base != map[] && Allowed(a.request) <= base.Keys;
    assert a.world.load(base) == Some("base");
  }

  lemma OneFile(file: File)
    ensures ValidPath(file.path) && file.content.length <= MAX_CONTENT && file.content.json ==> BaseFileError([file]).None?
    ensures Overlay(map[], [file]) == map[file.path := file.content]
  {
    hide ValidPath;
    assert [file][1..] == [] && [file][..0] == [];
  }

  lemma JsonName()
    ensures ValidPath("a.json")
  {
    assert "a.json"[1..] == ".json" && ".json"[1..] == "json" && "json"[1..] == "son" && "son"[1..] == "on"
           && "on"[1..] == "n" && "n"[1..] == "";
  }

  lemma RefusedKeyExample(hash: L.Usage -> string)
    ensures var a, b := Unanswered(hash, "t", "x"), Unanswered(hash, "u", " x");
            var run := Then(Then(Then(Then(Then(Then(Start, Check(a)), Check(b)), Reserve(0)), Settle(0)), Reserve(1)), Charge(0));
            var s := Reached(hash, run);
            AtRest(s) && |s.ledger.rows| == 1 && !s.ledger.rows[0].Finalized()
  {
    hide Prepare, Work, Accepted, Reached;
    UnansweredIsPrepared(hash, "t", "x");
    UnansweredIsPrepared(hash, "u", " x");
    assert "t"[0] != "u"[0];
    RefusedKeyDropsCharge(hash, Unanswered(hash, "t", "x"), Unanswered(hash, "u", " x"));
  }

  lemma AcceptedUsage(hash: L.Usage -> string, a: Attempt)
    requires Accepted(hash, a)
    ensures L.ValidUsage(a.reserved)
  {
  }

  lemma FirstReservation(hash: L.Usage -> string, a: Attempt, row: L.Row)
    requires Accepted(hash, a) && L.ValidKey(Key(a)) && L.Leq(a.reserved, a.budget.limits)
    requires row == L.Row(Key(a), a.request.scope, a.request.digest, a.budget.digest, a.budget.limits, a.reserved, None)
    ensures L.ReserveCall(hash, L.Ledger([], false), a.request, a.budget, a.reserved, a.id) == (L.Ledger([row], false), Success(row))
  {
    var empty: seq<L.Row> := [];
    assert L.ScopeUsage(empty, a.request.scope) == L.ZERO && L.Plus(L.ZERO, a.reserved) == a.reserved;
    assert empty + [row] == [row];
  }

  lemma RefusedReservation(hash: L.Usage -> string, row: L.Row, b: Attempt)
    requires Accepted(hash, b) && !L.ValidKey(Key(b)) && L.Leq(b.reserved, b.budget.limits)
    requires L.ValidKey(row.reservationId) && row.scope != b.request.scope
    ensures L.ReserveCall(hash, L.Ledger([row], false), b.request, b.budget, b.reserved, b.id)
            == (L.Ledger([row], true), Failure(L.ReservationInvalid))
  {
    assert [row][1..] == [] && [row][..0] == [];
    assert L.ScopeUsage([row], b.request.scope) == L.ZERO && L.Plus(L.ZERO, b.reserved) == b.reserved;
  }

  // ---------------------------------------------------------------- who is charged, and what is answered

  /**
   An attempt that settles charges an open reservation what it used; on a charged one it is a replay or fails.
   Over a transaction left open it charges nothing and goes on as a failing attempt.
   */
  lemma SettleAnswers(hash: L.Usage -> string, run: Interleaving, i: nat)
    requires L.CollisionFree(hash)
    requires i < |Reached(hash, run).threads| && Reached(hash, run).threads[i].phase.Working?
    ensures var s := Reached(hash, run); var t := s.threads[i]; var row := t.phase.row; var rows := s.ledger.rows;
            var next := Next(hash, s, Settle(i)); var p := L.Position(rows, row.reservationId);
            var work := Work(t.attempt.request, t.attempt.reserved, t.base, t.attempt.world);
            && p.Some? && next.calls == s.calls
            && if work.Failure? then next.ledger == s.ledger && next.threads[i].phase == Failing(row, work.error)
               else if s.ledger.open then
                 next.ledger == L.Ledger(rows, false) && next.threads[i].phase == Failing(row, BudgetFailed)
               else if rows[p.value].Finalized() then
                 && next.ledger == s.ledger
                 && next.threads[i].phase ==
                    if rows[p.value].actual == Some(work.value.actual) then Finished(row, Success(work.value))
                    else Failing(row, BudgetFailed)
               else if L.Leq(work.value.actual, t.attempt.reserved) then
                 && next.ledger == L.Ledger(rows[p.value := rows[p.value].(actual := Some(work.value.actual))], false)
                 && next.threads[i].phase == Finished(row, Success(work.value))
               else next.ledger == s.ledger && next.threads[i].phase == Failing(row, BudgetFailed)
  {
    hide Safe, Work, L.Inv, L.FinalizeStep, Reached, ThreadInv, Filed;
    EveryInterleavingIsSafe(hash, run);
    var s := Reached(hash, run);
    var t := s.threads[i];
    UseFacts(hash, s, i);
    S.SuccessfulWorkIsChargeable(t.attempt, t.base);
    var work := Work(t.attempt.request, t.attempt.reserved, t.base, t.attempt.world);
    if work.Success? {
      FinalizeFiled(hash, s.ledger.rows, t.phase.row, work.value.actual);
      var r := L.FinalizeCall(hash, s.ledger, t.phase.row, work.value.actual).1;
      assert SettleMove(hash, s, i).threads[i].phase ==
             if r.Failure? then Failing(t.phase.row, BudgetFailed) else Finished(t.phase.row, Success(work.value));
    }
  }

  /**
   A failing attempt charges everything reserved, unless another attempt has charged the reservation already.
   Over a transaction left open the charge is dropped; either way the attempt is answered its error.
   */
  lemma ChargeAnswers(hash: L.Usage -> string, run: Interleaving, i: nat)
    requires L.CollisionFree(hash)
    requires i < |Reached(hash, run).threads| && Reached(hash, run).threads[i].phase.Failing?
    ensures var s := Reached(hash, run); var t := s.threads[i]; var row := t.phase.row; var rows := s.ledger.rows;
            var next := Next(hash, s, Charge(i)); var p := L.Position(rows, row.reservationId);
            && p.Some? && next.calls == s.calls && next.threads[i].phase.Answer() == Some(Failure(t.phase.error))
            && (next.threads[i].phase.Dropped? <==> s.ledger.open)
            && next.ledger ==
               L.Ledger(if s.ledger.open || rows[p.value].Finalized() then rows
                        else rows[p.value := rows[p.value].(actual := Some(t.attempt.reserved))], false)
  {
    hide Safe, L.Inv, L.FinalizeStep, Reached, ThreadInv, Filed;
    EveryInterleavingIsSafe(hash, run);
    var s := Reached(hash, run);
    UseFacts(hash, s, i);
    FinalizeFiled(hash, s.ledger.rows, s.threads[i].phase.row, s.threads[i].phase.row.reserved);
    FinalizeNeverUnavailable(hash, s.ledger.rows, s.threads[i].phase.row, s.threads[i].phase.row.reserved);
  }

  /** Rows are only added and, once, charged. */
  ghost predicate Grows(rows: seq<L.Row>, next: seq<L.Row>) {
    && |rows| <= |next|
    && forall p | 0 <= p < |rows| ::
         SameReservation(next[p], rows[p]) && (rows[p].Finalized() ==> next[p] == rows[p])
  }

  lemma NextGrows(hash: L.Usage -> string, s: System, m: Move)
    requires L.CollisionFree(hash) && Safe(hash, s)
    ensures Grows(s.ledger.rows, Next(hash, s, m).ledger.rows)
  {
    hide Safe, Work, L.Inv, L.FinalizeStep, L.ReserveCall, Filed, Agrees;
    match m
    case Check(a) =>
    case Reserve(i) =>
      if i < |s.threads| && s.threads[i].phase.Checked? {
        ThreadFacts(hash, s, i);
        ReserveFiles(hash, s.ledger, s.threads[i].attempt);
      }
    case Settle(i) =>
      if i < |s.threads| && s.threads[i].phase.Working? {
        var t := s.threads[i];
        UseFacts(hash, s, i);
        S.SuccessfulWorkIsChargeable(t.attempt, t.base);
        var work := Work(t.attempt.request, t.attempt.reserved, t.base, t.attempt.world);
        if work.Success? {
          FinalizeFiled(hash, s.ledger.rows, t.phase.row, work.value.actual);
        }
      }
    case Charge(i) =>
      if i < |s.threads| && s.threads[i].phase.Failing? {
        UseFacts(hash, s, i);
        FinalizeFiled(hash, s.ledger.rows, s.threads[i].phase.row, s.threads[i].phase.row.reserved);
      }
  }

  ghost predicate Before(early: Interleaving, late: Interleaving) {
    early == late || (late.Then? && Before(early, late.prev))
  }

  /** Over any interleaving a reservation keeps its place and terms, and is charged once and for all. */
  lemma {:induction false} ChargedOnceForAll(hash: L.Usage -> string, early: Interleaving, late: Interleaving)
    requires L.CollisionFree(hash) && Before(early, late)
    ensures Grows(Reached(hash, early).ledger.rows, Reached(hash, late).ledger.rows)
  {
    if early != late {
      ChargedOnceForAll(hash, early, late.prev);
      EveryInterleavingIsSafe(hash, late.prev);
      NextGrows(hash, Reached(hash, late.prev), late.move);
    }
  }

  // ---------------------------------------------------------------- how often the gateway is called

  function CallsUnder(calls: seq<Call>, key: string): nat {
    if calls == [] then 0
    else
      var n := |calls| - 1;
      CallsUnder(calls[..n], key) + if calls[n].key == key then 1 else 0
  }

  lemma CallsAppend(calls: seq<Call>, c: Call, key: string)
    ensures CallsUnder(calls + [c], key) == CallsUnder(calls, key) + if c.key == key then 1 else 0
  {
    assert (calls + [c])[..|calls|] == calls;
  }

  /** What the ledger checks of the request, budget and usage themselves. */
  ghost predicate Accepted(hash: L.Usage -> string, a: Attempt) {
    L.ValidRequest(a.request) && L.ValidBudget(hash, a.budget) && L.ValidUsage(a.reserved)
  }

  /**
   The attempt has passed the replay check, and yet a reservation stands under its key that it agrees
   with: filed since the check, or at any time if the attempt has no identifier of its own. No refused
   key has left a transaction open just before.
   */
  ghost predicate Joins(hash: L.Usage -> string, s: System, m: Move) {
    && m.Reserve? && m.i < |s.threads| && s.threads[m.i].phase.Checked? && !s.ledger.open
    && var t := s.threads[m.i];
    && var p := L.Position(s.ledger.rows, Key(t.attempt));
    && p.Some? && Accepted(hash, t.attempt) && Agrees(s.ledger.rows[p.value], t.attempt)
    && (t.attempt.id == "" || t.phase.seen <= p.value)
  }

  /** Agreeing with the stored row in scope, request, budget and usage is all that joining it takes. */
  lemma ReachesGatewayOnStoredRowIff(hash: L.Usage -> string, run: Interleaving, i: nat)
    requires L.CollisionFree(hash)
    requires i < |Reached(hash, run).threads| && Reached(hash, run).threads[i].phase.Checked?
    requires L.Position(Reached(hash, run).ledger.rows, Key(Reached(hash, run).threads[i].attempt)).Some?
    ensures var s := Reached(hash, run); var a := s.threads[i].attempt; var next := Next(hash, s, Reserve(i));
            && (next.calls != s.calls <==> Joins(hash, s, Reserve(i)))
            && (next.calls != s.calls <==>
                !s.ledger.open && Accepted(hash, a) && Agrees(s.ledger.rows[L.Position(s.ledger.rows, Key(a)).value], a))
            && (next.calls == s.calls || next.calls == s.calls + [Call(a.id, Key(a))])
            && next.ledger.rows == s.ledger.rows
  {
    hide Safe, L.Inv;
    EveryInterleavingIsSafe(hash, run);
    var s := Reached(hash, run);
    ThreadFacts(hash, s, i);
    var a := s.threads[i].attempt;
    var p := L.Position(s.ledger.rows, Key(a)).value;
    AgreedUsageFits(hash, s.ledger.rows, p, a);
  }

  lemma AgreedUsageFits(hash: L.Usage -> string, rows: seq<L.Row>, p: nat, a: Attempt)
    requires L.CollisionFree(hash) && L.Inv(hash, rows) && p < |rows|
    ensures L.ValidBudget(hash, a.budget) && Agrees(rows[p], a) ==> L.Leq(a.reserved, a.budget.limits)
  {
    assert L.RowOk(hash, rows[p]);
  }

  ghost predicate NeverJoined(hash: L.Usage -> string, run: Interleaving, key: string) {
    run.Then? ==>
      && NeverJoined(hash, run.prev, key)
      && !(Joins(hash, Reached(hash, run.prev), run.move) && Key(Reached(hash, run.prev).threads[run.move.i].attempt) == key)
  }

  ghost function JoinCount(hash: L.Usage -> string, run: Interleaving, key: string): nat {
    if run.Start? then 0
    else
      var s := Reached(hash, run.prev);
      JoinCount(hash, run.prev, key)
      + if Joins(hash, s, run.move) && Key(s.threads[run.move.i].attempt) == key then 1 else 0
  }

  ghost predicate OnFile(rows: seq<L.Row>, key: string) {
    L.Position(rows, key).Some?
  }

  /** The gateway is called once for the row under a key, and once more for every attempt that joins it. */
  lemma {:induction false} CallsAreOneAndJoins(hash: L.Usage -> string, run: Interleaving, key: string)
    requires L.CollisionFree(hash)
    ensures var s := Reached(hash, run);
            && CallsUnder(s.calls, key) == (if OnFile(s.ledger.rows, key) then 1 else 0) + JoinCount(hash, run, key)
            && (0 < JoinCount(hash, run, key) ==> OnFile(s.ledger.rows, key))
    ensures NeverJoined(hash, run, key) <==> JoinCount(hash, run, key) == 0
  {
    match run
    case Start =>
    case Then(prev, m) =>
      CallsAreOneAndJoins(hash, prev, key);
      MoveCalls(hash, prev, m, key);
  }

  lemma MoveCalls(hash: L.Usage -> string, run: Interleaving, m: Move, key: string)
    requires L.CollisionFree(hash)
    ensures var s := Reached(hash, run); var next := Next(hash, s, m);
            var joins := Joins(hash, s, m) && Key(s.threads[m.i].attempt) == key;
            && (OnFile(s.ledger.rows, key) ==> OnFile(next.ledger.rows, key))
            && CallsUnder(next.calls, key) ==
               CallsUnder(s.calls, key) + (if joins then 1 else 0)
               + (if OnFile(next.ledger.rows, key) && !OnFile(s.ledger.rows, key) then 1 else 0)
            && (joins ==> OnFile(s.ledger.rows, key))
  {
    hide Safe, Joins, L.Inv, Agrees, Filed, Work;
    EveryInterleavingIsSafe(hash, run);
    var s := Reached(hash, run);
    match m
    case Check(a) => NoJoin(hash, s, m);
    case Reserve(i) => ReserveCalls(hash, run, i, key);
    case Settle(i) =>
      NoJoin(hash, s, m);
      if i < |s.threads| && s.threads[i].phase.Working? {
        SettleAnswers(hash, run, i);
        ChargedKeysStay(hash, s, Next(hash, s, m).ledger.rows, s.threads[i].phase.row.reservationId, key);
      }
    case Charge(i) =>
      NoJoin(hash, s, m);
      if i < |s.threads| && s.threads[i].phase.Failing? {
        ChargeAnswers(hash, run, i);
        ChargedKeysStay(hash, s, Next(hash, s, m).ledger.rows, s.threads[i].phase.row.reservationId, key);
      }
  }

  lemma NoJoin(hash: L.Usage -> string, s: System, m: Move)
    requires !m.Reserve?
    ensures !Joins(hash, s, m)
  {
  }

  lemma ChargedKeysStay(hash: L.Usage -> string, s: System, next: seq<L.Row>, id: string, key: string)
    requires L.Position(s.ledger.rows, id).Some?
    requires var p := L.Position(s.ledger.rows, id).value;
             next == s.ledger.rows || exists u :: next == s.ledger.rows[p := s.ledger.rows[p].(actual := Some(u))]
    ensures L.Position(next, key) == L.Position(s.ledger.rows, key)
  {
    var p := L.Position(s.ledger.rows, id).value;
    if next != s.ledger.rows {
      var u :| next == s.ledger.rows[p := s.ledger.rows[p].(actual := Some(u))];
      PositionSurvivesCharge(s.ledger.rows, p, u, key);
    }
  }

  lemma ReserveCalls(hash: L.Usage -> string, run: Interleaving, i: nat, key: string)
    requires L.CollisionFree(hash)
    ensures var s := Reached(hash, run); var next := Next(hash, s, Reserve(i));
            var joins := Joins(hash, s, Reserve(i)) && Key(s.threads[i].attempt) == key;
            && (OnFile(s.ledger.rows, key) ==> OnFile(next.ledger.rows, key))
            && CallsUnder(next.calls, key) ==
               CallsUnder(s.calls, key) + (if joins then 1 else 0)
               + (if OnFile(next.ledger.rows, key) && !OnFile(s.ledger.rows, key) then 1 else 0)
            && (joins ==> OnFile(s.ledger.rows, key))
  {
    hide Safe, L.Inv, Agrees, Filed, L.ReserveCall, Accepted;
    EveryInterleavingIsSafe(hash, run);
    var s := Reached(hash, run);
    if i < |s.threads| && s.threads[i].phase.Checked? {
      var a := s.threads[i].attempt;
      CallsAppend(s.calls, Call(a.id, Key(a)), key);
      ThreadFacts(hash, s, i);
      ReserveFiles(hash, s.ledger, a);
      if L.Position(s.ledger.rows, Key(a)).Some? {
        ReachesGatewayOnStoredRowIff(hash, run, i);
      } else {
        var r := L.ReserveCall(hash, s.ledger, a.request, a.budget, a.reserved, a.id).1;
        if r.Success? {
          NewKeyOnly(s.ledger.rows, r.value, key);
        }
      }
    }
  }

  lemma NewKeyOnly(rows: seq<L.Row>, row: L.Row, key: string)
    requires L.Position(rows, row.reservationId).None?
    ensures L.Position(rows + [row], key).Some? <==> L.Position(rows, key).Some? || row.reservationId == key
  {
    if L.Position(rows, key).Some? {
      S.PositionStays(rows, row, key);
    } else if row.reservationId == key {
      L.PositionAppend(rows, row);
    }
  }

  /**
   Over any interleaving the gateway is called at most once under a ledger key if and only if no attempt
   ever joins the key's row, that is, none agrees with a row filed since its own replay check, and none
   comes without an identifier.
   */
  lemma CalledAtMostOnceIff(hash: L.Usage -> string, run: Interleaving, key: string)
    requires L.CollisionFree(hash)
    ensures CallsUnder(Reached(hash, run).calls, key) <= 1 <==> NeverJoined(hash, run, key)
  {
    CallsAreOneAndJoins(hash, run, key);
  }

  function CallsWith(calls: seq<Call>, id: string): nat {
    if calls == [] then 0
    else
      var n := |calls| - 1;
      CallsWith(calls[..n], id) + if calls[n].id == id then 1 else 0
  }

  /** Every attempt brings an identifier of its own. */
  ghost predicate AllNamed(run: Interleaving) {
    run.Then? ==> AllNamed(run.prev) && (run.move.Check? ==> run.move.attempt.id != "")
  }

  ghost predicate NamedSystem(s: System) {
    && (forall i | 0 <= i < |s.threads| :: s.threads[i].attempt.id != "")
    && forall i | 0 <= i < |s.calls| :: s.calls[i].key == s.calls[i].id
  }

  lemma {:induction false} NamedRun(hash: L.Usage -> string, run: Interleaving)
    requires AllNamed(run)
    ensures NamedSystem(Reached(hash, run))
  {
    hide Prepare, Work, L.ReserveCall, L.FinalizeCall, L.Get;
    if run.Then? {
      NamedRun(hash, run.prev);
    }
  }

  lemma {:induction false} SameCount(calls: seq<Call>, id: string)
    requires forall i | 0 <= i < |calls| :: calls[i].key == calls[i].id
    ensures CallsWith(calls, id) == CallsUnder(calls, id)
  {
    if calls != [] {
      SameCount(calls[..|calls| - 1], id);
    }
  }

  /** Among attempts that bring identifiers, the gateway is called at most once under one exactly when nobody joins. */
  lemma CalledAtMostOncePerIdentifierIff(hash: L.Usage -> string, run: Interleaving, id: string)
    requires L.CollisionFree(hash) && AllNamed(run)
    ensures CallsWith(Reached(hash, run).calls, id) <= 1 <==> NeverJoined(hash, run, id)
  {
    NamedRun(hash, run);
    SameCount(Reached(hash, run).calls, id);
    CalledAtMostOnceIff(hash, run, id);
  }

  /** Any attempt that reaches the gateway from an empty ledger reaches it twice if submitted twice at once. */
  lemma TwoChecksTwoCalls(hash: L.Usage -> string, a: Attempt)
    requires Prepare(a.request, a.diagnostics, a.world).Success? && Accepted(hash, a)
    requires L.Leq(a.reserved, a.budget.limits) && L.ValidKey(Key(a))
    ensures var run := Then(Then(Then(Then(Start, Check(a)), Check(a)), Reserve(0)), Reserve(1));
            Reached(hash, run).calls == [Call(a.id, Key(a)), Call(a.id, Key(a))]
  {
    hide Prepare, Work, L.ReserveCall, Accepted;
    var one := Then(Start, Check(a));
    var two := Then(one, Check(a));
    var three := Then(two, Reserve(0));
    var base := Prepare(a.request, a.diagnostics, a.world).value;
    var row := L.Row(Key(a), a.request.scope, a.request.digest, a.budget.digest, a.budget.limits, a.reserved, None);
    var ready := Thread(a, base, Checked(0));
    FirstReservation(hash, a, row);
    SameReservationAgain(hash, a, row);
    assert Reached(hash, one) == System(L.Ledger([], false), [], [ready]);
    assert Reached(hash, two) == System(L.Ledger([], false), [], [ready, ready]);
    assert Reached(hash, three) == System(L.Ledger([row], false), [Call(a.id, Key(a))], [Thread(a, base, Working(row)), ready]);
  }

  lemma SameReservationAgain(hash: L.Usage -> string, a: Attempt, row: L.Row)
    requires Accepted(hash, a) && L.Leq(a.reserved, a.budget.limits)
    requires row == L.Row(Key(a), a.request.scope, a.request.digest, a.budget.digest, a.budget.limits, a.reserved, None)
    ensures L.ReserveCall(hash, L.Ledger([row], false), a.request, a.budget, a.reserved, a.id)
            == (L.Ledger([row], false), Success(row))
  {
  }

  // ---------------------------------------------------------------- what a returned outcome vouches for

  ghost predicate Paid(rows: seq<L.Row>, t: Thread) {
    t.phase.Finished? && t.phase.result.Success? ==>
      var p := L.Position(rows, Key(t.attempt));
      p.Some? && rows[p.value].actual == Some(t.phase.result.value.actual) && Agrees(rows[p.value], t.attempt)
  }

  lemma PositionGrows(hash: L.Usage -> string, rows: seq<L.Row>, next: seq<L.Row>, key: string)
    requires L.Inv(hash, next) && Grows(rows, next) && L.Position(rows, key).Some?
    ensures L.Position(next, key) == L.Position(rows, key)
  {
    var p := L.Position(rows, key).value;
    assert SameReservation(next[p], rows[p]);
    var q := L.Position(next, key).value;
    UniqueRow(hash, next, p, q);
  }

  lemma PaidStays(hash: L.Usage -> string, rows: seq<L.Row>, next: seq<L.Row>, t: Thread)
    requires L.Inv(hash, next) && Grows(rows, next) && Paid(rows, t)
    ensures Paid(next, t)
  {
    if t.phase.Finished? && t.phase.result.Success? {
      PositionGrows(hash, rows, next, Key(t.attempt));
    }
  }

  lemma SettledIsPaid(hash: L.Usage -> string, run: Interleaving, i: nat)
    requires L.CollisionFree(hash)
    requires i < |Reached(hash, run).threads| && Reached(hash, run).threads[i].phase.Working?
    ensures Paid(Next(hash, Reached(hash, run), Settle(i)).ledger.rows, Next(hash, Reached(hash, run), Settle(i)).threads[i])
  {
    hide Work, L.Inv, L.FinalizeStep, Safe;
    SettleAnswers(hash, run, i);
    EveryInterleavingIsSafe(hash, run);
    var s := Reached(hash, run);
    var t := s.threads[i];
    ThreadFacts(hash, s, i);
    var next := Next(hash, s, Settle(i));
    if next.threads[i].phase.Finished? {
      ChargedKeysStay(hash, s, next.ledger.rows, t.phase.row.reservationId, t.phase.row.reservationId);
    }
  }

  /** In every interleaving a returned outcome's usage is what its reservation was charged. */
  lemma {:induction false} ReturnedIsCharged(hash: L.Usage -> string, run: Interleaving)
    requires L.CollisionFree(hash)
    ensures forall i | 0 <= i < |Reached(hash, run).threads| :: Paid(Reached(hash, run).ledger.rows, Reached(hash, run).threads[i])
  {
    hide Safe, L.Inv, Paid, L.ReserveCall, L.FinalizeCall, Work, Prepare;
    match run
    case Start =>
    case Then(prev, m) =>
      ReturnedIsCharged(hash, prev);
      EveryInterleavingIsSafe(hash, prev);
      EveryInterleavingIsSafe(hash, run);
      var s, next := Reached(hash, prev), Reached(hash, run);
      NextGrows(hash, s, m);
      LedgerOf(hash, next);
      forall i | 0 <= i < |next.threads| ensures Paid(next.ledger.rows, next.threads[i]) {
        if i < |s.threads| && next.threads[i] == s.threads[i] {
          PaidStays(hash, s.ledger.rows, next.ledger.rows, s.threads[i]);
        } else if m.Settle? {
          SettledIsPaid(hash, prev, m.i);
        } else {
          NotReturned(next.ledger.rows, next.threads[i]);
        }
      }
  }

  lemma LedgerOf(hash: L.Usage -> string, s: System)
    requires Safe(hash, s)
    ensures L.Inv(hash, s.ledger.rows)
  {
  }

  lemma NotReturned(rows: seq<L.Row>, t: Thread)
    requires !(t.phase.Finished? && t.phase.result.Success?)
    ensures Paid(rows, t)
  {
  }
}

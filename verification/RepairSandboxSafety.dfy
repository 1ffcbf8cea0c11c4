/** What every run of the repair sandbox keeps, one attempt after another. */
module RepairSandboxSafety {
  import opened Wrappers
  import L = RepairLedger
  import opened RepairSandbox

  datatype Attempt = Attempt(
    request: L.Request, budget: L.Budget, reserved: L.Usage, id: string, diagnostics: seq<string>, world: World)

  ghost function Step(hash: L.Usage -> string, s: State, a: Attempt): (State, Result<Outcome, Error>) {
    AttemptStep(hash, s, a.request, a.budget, a.reserved, a.id, a.diagnostics, a.world)
  }

  datatype Run = Begin | Do(prev: Run, attempt: Attempt)

  ghost function After(hash: L.Usage -> string, run: Run): State {
    match run
    case Begin => State(L.Ledger([], false), [])
    case Do(prev, a) => Step(hash, After(hash, prev), a).0
  }

  // ---------------------------------------------------------------- one attempt and the ledger

  ghost predicate AllFinalized(rows: seq<L.Row>) {
    forall i | 0 <= i < |rows| :: rows[i].Finalized()
  }

  /** The row an attempt adds, charged with `charge`. */
  function ChargedRow(a: Attempt, charge: L.Usage): L.Row {
    L.Row(L.KeyOf(a.request, a.id), a.request.scope, a.request.digest, a.budget.digest, a.budget.limits, a.reserved,
          Some(charge))
  }

  /**
   What one attempt does to the ledger. Without a model call nothing changes. With one, a fresh
   reservation is charged exactly: the returned outcome's usage, or all of it on a failing exit.
   */
  ghost predicate ChargedExactly(s: State, a: Attempt, next: State, r: Result<Outcome, Error>) {
    if next.calls == s.calls then next.ledger.rows == s.ledger.rows && r.Failure?
    else
      && next.calls == s.calls + [a.id]
      && match L.Position(s.ledger.rows, L.KeyOf(a.request, a.id))
         case None =>
           && next.ledger.rows == s.ledger.rows + [ChargedRow(a, if r.Success? then r.value.actual else a.reserved)]
           && (r.Success? ==> L.Leq(r.value.actual, a.reserved))
         case Some(i) =>
           && a.id == "" && next.ledger.rows == s.ledger.rows
           && (r.Success? ==> s.ledger.rows[i].actual == Some(r.value.actual))
  }

  lemma SuccessfulWorkIsChargeable(a: Attempt, base: Files)
    ensures var w := Work(a.request, a.reserved, base, a.world); w.Success? ==> L.ValidUsage(w.value.actual)
  {
  }

  /** Finalizing a fresh reservation fails only over budget; charging all of it cannot fail. */
  lemma FinalizeFresh(hash: L.Usage -> string, rows: seq<L.Row>, row: L.Row, actual: L.Usage)
    requires L.Position(rows, row.reservationId).None? && row.actual.None?
    requires hash(row.limits) == row.budgetDigest && L.ValidUsage(row.reserved) && L.Leq(row.reserved, row.limits)
    requires L.ValidUsage(actual)
    ensures var (next, r) := L.FinalizeStep(hash, rows + [row], row, actual);
            if L.Leq(actual, row.reserved) then r.Success? && next == rows + [row.(actual := Some(actual))]
            else r.Failure? && next == rows + [row]
  {
    L.PositionAppend(rows, row);
  }

  lemma FinalizeKnown(hash: L.Usage -> string, rows: seq<L.Row>, row: L.Row, actual: L.Usage)
    requires row in rows && row.Finalized() && L.Position(rows, row.reservationId).Some?
    requires rows[L.Position(rows, row.reservationId).value] == row
    ensures var (next, r) := L.FinalizeStep(hash, rows, row, actual);
            next == rows && (r.Success? ==> row.actual == Some(actual))
  {
  }

  lemma AttemptIsChargedExactly(hash: L.Usage -> string, s: State, a: Attempt)
    requires AllFinalized(s.ledger.rows)
    ensures var (next, r) := Step(hash, s, a); ChargedExactly(s, a, next, r)
  {
    hide Prepare, Work;
    var prepared := Prepare(a.request, a.diagnostics, a.world);
    if prepared.Success? && L.Get(s.ledger.rows, a.id, a.request.scope).None? {
      var reservation := L.ReserveCall(hash, s.ledger, a.request, a.budget, a.reserved, a.id).1;
      if reservation.Success? {
        var row := reservation.value;
        SuccessfulWorkIsChargeable(a, prepared.value);
        var work := Work(a.request, a.reserved, prepared.value, a.world);
        var actual := if work.Success? then work.value.actual else a.reserved;
        if L.Position(s.ledger.rows, L.KeyOf(a.request, a.id)).None? {
          FinalizeFresh(hash, s.ledger.rows, row, row.reserved);
          FinalizeFresh(hash, s.ledger.rows, row, actual);
        } else {
          FinalizeKnown(hash, s.ledger.rows, row, row.reserved);
          FinalizeKnown(hash, s.ledger.rows, row, actual);
        }
      }
    }
  }

  // ---------------------------------------------------------------- every run

  function Count(calls: seq<string>, id: string): nat {
    multiset(calls)[id]
  }

  ghost predicate Safe(hash: L.Usage -> string, s: State) {
    && L.Inv(hash, s.ledger.rows) && AllFinalized(s.ledger.rows)
    && forall id | id in s.calls && id != "" :: Count(s.calls, id) == 1 && L.Position(s.ledger.rows, id).Some?
  }

  lemma {:induction false} PositionStays(rows: seq<L.Row>, row: L.Row, key: string)
    requires L.Position(rows, key).Some?
    ensures L.Position(rows + [row], key) == L.Position(rows, key)
  {
    assert (rows + [row])[0] == rows[0] && (rows + [row])[1..] == rows[1..] + [row];
    if rows[0].reservationId != key {
      PositionStays(rows[1..], row, key);
    }
  }

  /** Charging part of a reservation that fits keeps the ledger inside its budgets. */
  lemma AttemptKeepsLedgerInv(hash: L.Usage -> string, s: State, a: Attempt)
    requires L.CollisionFree(hash) && L.Inv(hash, s.ledger.rows)
    ensures L.Inv(hash, Step(hash, s, a).0.ledger.rows)
  {
    hide L.Inv, L.ReserveStep, L.FinalizeStep, Prepare, Work;
    L.ReserveInv(hash, s.ledger.rows, a.request, a.budget, a.reserved, a.id);
    var (rows, reservation) := L.ReserveStep(hash, s.ledger.rows, a.request, a.budget, a.reserved, a.id);
    if reservation.Success? {
      var row := reservation.value;
      L.FinalizeInv(hash, rows, row, row.reserved);
      var prepared := Prepare(a.request, a.diagnostics, a.world);
      if prepared.Success? {
        var work := Work(a.request, a.reserved, prepared.value, a.world);
        if work.Success? {
          L.FinalizeInv(hash, rows, row, work.value.actual);
          L.FinalizeInv(hash, L.FinalizeStep(hash, rows, row, work.value.actual).0, row, row.reserved);
        }
      }
    }
  }

  lemma StepSafe(hash: L.Usage -> string, s: State, a: Attempt)
    requires L.CollisionFree(hash) && Safe(hash, s)
    ensures Safe(hash, Step(hash, s, a).0)
  {
    hide L.Inv, Step;
    AttemptKeepsLedgerInv(hash, s, a);
    AttemptIsChargedExactly(hash, s, a);
    var (next, r) := Step(hash, s, a);
    forall id | id in next.calls && id != "" ensures Count(next.calls, id) == 1 && L.Position(next.ledger.rows, id).Some? {
      if next.ledger.rows != s.ledger.rows {
        var row := next.ledger.rows[|s.ledger.rows|];
        assert next.ledger.rows == s.ledger.rows + [row];
        if id == a.id {
          L.PositionAppend(s.ledger.rows, row);
        } else {
          PositionStays(s.ledger.rows, row, id);
        }
      }
    }
  }

  lemma {:induction false} EveryRunIsSafe(hash: L.Usage -> string, run: Run)
    requires L.CollisionFree(hash)
    ensures Safe(hash, After(hash, run))
  {
    match run
    case Begin =>
    case Do(prev, a) =>
      EveryRunIsSafe(hash, prev);
      StepSafe(hash, After(hash, prev), a);
  }

  /**
   Over any run every reservation is finalized after every exit, every scope is within its budget, and
   the gateway was called at most once under each nonempty attempt identifier.
   */
  lemma GatewayAtMostOncePerAttempt(hash: L.Usage -> string, run: Run, id: string)
    requires L.CollisionFree(hash) && id != ""
    ensures var s := After(hash, run);
            AllFinalized(s.ledger.rows) && L.Inv(hash, s.ledger.rows) && Count(s.calls, id) <= 1
  {
    EveryRunIsSafe(hash, run);
  }

  // ---------------------------------------------------------------- repeating an attempt

  ghost predicate Later(early: Run, late: Run) {
    early == late || (late.Do? && Later(early, late.prev))
  }

  /** Rows are only ever appended once they are finalized. */
  lemma {:induction false} RowsStay(hash: L.Usage -> string, early: Run, late: Run, key: string)
    requires L.CollisionFree(hash) && Later(early, late)
    requires L.Position(After(hash, early).ledger.rows, key).Some?
    ensures var rows, before := After(hash, late).ledger.rows, After(hash, early).ledger.rows;
            && L.Position(rows, key) == L.Position(before, key)
            && |before| <= |rows| && rows[L.Position(before, key).value] == before[L.Position(before, key).value]
  {
    if early != late {
      RowsStay(hash, early, late.prev, key);
      EveryRunIsSafe(hash, late.prev);
      var s := After(hash, late.prev);
      AttemptIsChargedExactly(hash, s, late.attempt);
      var next := After(hash, late);
      if next.ledger.rows != s.ledger.rows {
        PositionStays(s.ledger.rows, next.ledger.rows[|s.ledger.rows|], key);
      }
    }
  }

  /** Whether an attempt calls the gateway depends on its inputs and the ledger only. */
  lemma CallsGatewayIff(hash: L.Usage -> string, s: State, a: Attempt)
    ensures Step(hash, s, a).0.calls != s.calls <==>
            && Prepare(a.request, a.diagnostics, a.world).Success?
            && L.Get(s.ledger.rows, a.id, a.request.scope).None?
            && L.ReserveCall(hash, s.ledger, a.request, a.budget, a.reserved, a.id).1.Success?
    ensures var called := Step(hash, s, a).0.calls; called == s.calls || called == s.calls + [a.id]
  {
    hide Prepare, Work, L.ReserveCall, L.FinalizeCall, L.Get;
  }

  /**
   An attempt that reached the gateway and is submitted again, at any later time, reaches it again if
   and only if its identifier is empty and no transaction was left open just before: the ledger files the
   row of an empty identifier under the request's digest, and the replay check looks for the empty key,
   which no row has.
   */
  lemma RepeatReachesGatewayIff(hash: L.Usage -> string, early: Run, a: Attempt, late: Run)
    requires L.CollisionFree(hash) && Later(Do(early, a), late)
    requires After(hash, Do(early, a)).calls != After(hash, early).calls
    ensures After(hash, Do(late, a)).calls != After(hash, late).calls <==> a.id == "" && !After(hash, late).ledger.open
  {
    var s, t := After(hash, early), After(hash, late);
    var key := L.KeyOf(a.request, a.id);
    EveryRunIsSafe(hash, early);
    EveryRunIsSafe(hash, Do(early, a));
    EveryRunIsSafe(hash, late);
    CallsGatewayIff(hash, s, a);
    CallsGatewayIff(hash, t, a);
    RowOfAttempt(hash, s, a);
    RowsStay(hash, Do(early, a), late, key);
    if a.id == "" {
      NoEmptyKey(hash, t.ledger.rows);
    }
  }

  /** After a model call the ledger holds a row under the attempt's key and on its terms. */
  lemma RowOfAttempt(hash: L.Usage -> string, s: State, a: Attempt)
    requires L.CollisionFree(hash) && Safe(hash, s) && Step(hash, s, a).0.calls != s.calls
    ensures var rows := Step(hash, s, a).0.ledger.rows; var i := L.Position(rows, L.KeyOf(a.request, a.id));
            && i.Some? && rows[i.value].(actual := None) == ChargedRow(a, L.ZERO).(actual := None)
  {
    CallsGatewayIff(hash, s, a);
    AttemptIsChargedExactly(hash, s, a);
    var next := Step(hash, s, a).0;
    if next.ledger.rows != s.ledger.rows {
      L.PositionAppend(s.ledger.rows, next.ledger.rows[|s.ledger.rows|]);
    }
  }

  lemma NoEmptyKey(hash: L.Usage -> string, rows: seq<L.Row>)
    requires L.Inv(hash, rows)
    ensures L.Position(rows, "").None?
  {
    assert forall i | 0 <= i < |rows| :: L.RowOk(hash, rows[i]);
  }

  // ---------------------------------------------------------------- the candidate

  predicate JsonFile(path: string, content: Content) {
    ValidPath(path) && content.json && content.length <= MAX_CONTENT
  }

  predicate JsonFiles(files: Files) {
    forall path | path in files :: JsonFile(path, files[path])
  }

  lemma PathsSplit(files: seq<File>)
    requires files != []
    ensures Paths(files) == Paths(files[..|files| - 1]) + {files[|files| - 1].path}
  {
    var n := |files| - 1;
    forall path ensures path in Paths(files) <==> path in Paths(files[..n]) + {files[n].path} {
      if i :| 0 <= i < n && files[..n][i].path == path {
        assert files[i].path == path;
      }
      if i :| 0 <= i < |files| && files[i].path == path {
        assert i < n ==> files[..n][i].path == path;
      }
    }
  }

  lemma {:induction false} OverlayKeeps(base: Files, files: seq<File>, path: string)
    requires path !in Paths(files)
    ensures path in Overlay(base, files) <==> path in base
    ensures path in base ==> Overlay(base, files)[path] == base[path]
  {
    if files != [] {
      PathsSplit(files);
      OverlayKeeps(base, files[..|files| - 1], path);
    }
  }

  lemma {:induction false} OverlaySets(base: Files, files: seq<File>)
    requires forall i | 0 <= i < |files| :: JsonFile(files[i].path, files[i].content)
    requires JsonFiles(base)
    ensures JsonFiles(Overlay(base, files)) && Overlay(base, files).Keys == base.Keys + Paths(files)
  {
    hide JsonFile;
    if files == [] {
      assert Paths(files) == {};
    } else {
      PathsSplit(files);
      OverlaySets(base, files[..|files| - 1]);
    }
  }

  lemma {:induction false} NoBaseFileError(files: seq<File>)
    requires BaseFileError(files).None?
    ensures forall i | 0 <= i < |files| :: JsonFile(files[i].path, files[i].content)
  {
    if files != [] {
      NoBaseFileError(files[1..]);
      forall i | 0 <= i < |files| ensures JsonFile(files[i].path, files[i].content) {
        assert 0 < i ==> files[i] == files[1..][i - 1];
      }
    }
  }

  lemma {:induction false} NoReplacementError(base: Files, files: seq<File>)
    requires ReplacementError(base, files).None?
    ensures forall i | 0 <= i < |files| :: files[i].path in base && JsonFile(files[i].path, files[i].content)
  {
    if files != [] {
      NoReplacementError(base, files[1..]);
      forall i | 0 <= i < |files| ensures files[i].path in base && JsonFile(files[i].path, files[i].content) {
        assert 0 < i ==> files[i] == files[1..][i - 1];
      }
    }
  }

  /**
   The package handed to the gates has the base package's files, differs from it, differs only at paths
   the request allows, and still holds nothing but strict JSON documents of bounded size.
   */
  lemma CandidateStaysInScope(request: L.Request, diagnostics: seq<string>, world: World, response: Response)
    requires Prepare(request, diagnostics, world).Success?
    requires ApplyReplacements(request, Prepare(request, diagnostics, world).value, response).Success?
    ensures var base := Prepare(request, diagnostics, world).value;
            var candidate := ApplyReplacements(request, base, response).value;
            && candidate.Keys == base.Keys && candidate != base && JsonFiles(base) && JsonFiles(candidate)
            && forall path | path in base && path !in Allowed(request) :: candidate[path] == base[path]
  {
    var base := Prepare(request, diagnostics, world).value;
    NoBaseFileError(world.package.value);
    OverlaySets(map[], world.package.value);
    NoReplacementError(base, response.replacements);
    OverlaySets(base, response.replacements);
    assert Paths(response.replacements) <= base.Keys;
    forall path | path in base && path !in Allowed(request)
      ensures ApplyReplacements(request, base, response).value[path] == base[path]
    {
      OverlayKeeps(base, response.replacements, path);
    }
  }

  /** What a returned outcome vouches for: the gates' verdict and the usage the ledger was charged. */
  lemma OutcomeMeansGatesPassed(hash: L.Usage -> string, s: State, a: Attempt)
    requires Safe(hash, s)
    requires Step(hash, s, a).1.Success?
    ensures var (next, r) := Step(hash, s, a); var out := r.value;
            && a.world.response.Some? && a.world.tck.Some? && a.world.security.Some?
            && Sha256Digest(out.candidatePackage)
            && out.changedPaths != {} && out.changedPaths <= Allowed(a.request)
            && out.proposed == (a.world.tck.value.passed && a.world.security.value.passed
                 && a.world.tck.value.violations == [] && a.world.security.value.violations == [])
            && L.ValidUsage(out.actual) && L.Leq(out.actual, a.reserved)
            && out.actual.validationSeconds == a.world.tck.value.duration + a.world.security.value.duration
            && (exists i | 0 <= i < |next.ledger.rows| :: next.ledger.rows[i].actual == Some(out.actual)
                  && next.ledger.rows[i].reservationId == L.KeyOf(a.request, a.id))
  {
    var (next, r) := Step(hash, s, a);
    AttemptIsChargedExactly(hash, s, a);
    var key := L.KeyOf(a.request, a.id);
    if L.Position(s.ledger.rows, key).None? {
      assert next.ledger.rows[|s.ledger.rows|].actual == Some(r.value.actual);
    } else {
      var i := L.Position(s.ledger.rows, key).value;
      assert next.ledger.rows[i].actual == Some(r.value.actual) && L.RowOk(hash, s.ledger.rows[i]);
    }
    var replacements := a.world.response.value.replacements;
    assert replacements[0].path in Paths(replacements);
  }
}

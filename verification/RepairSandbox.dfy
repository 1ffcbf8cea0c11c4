/**
 The isolated repair sandbox: one model call inside a budget reservation that every exit finalizes.
 What the injected collaborators answer is a parameter; `None` stands for an exception they raise.
 */
module RepairSandbox {
  import opened Wrappers
  import L = RepairLedger

  const MAX_CONTENT := 1_048_576

  /** A validation report names at most this many violations. */
  const MAX_VIOLATIONS := 64

  /** A file's bytes: how many, whether they are one strict JSON document, and which they are. */
  datatype Content = Content(length: nat, json: bool, text: string)

  datatype File = File(path: string, content: Content)

  type Files = map<string, Content>

  datatype Response = Response(basePackage: string, replacements: seq<File>, usage: L.Usage)

  datatype Gate = Gate(passed: bool, codes: seq<string>, violations: seq<string>, duration: int)

  /** Everything the collaborators answer during one attempt. */
  datatype World = World(
    package: Option<seq<File>>,
    load: Files -> Option<string>,
    response: Option<Response>,
    tck: Option<Gate>,
    security: Option<Gate>,
    metadataAccepted: bool)

  datatype Outcome = Outcome(
    candidatePackage: string, changedPaths: set<string>, actual: L.Usage, passed: bool, proposed: bool)

  datatype Error =
    | DiagnosticInvalid | BasePackageInvalid | BaseDigestMismatch
    | AttemptReplayed | BudgetFailed | InputInvalid
    | ModelUsageInvalid | CandidateEmpty | CandidatePathForbidden | CandidateContentInvalid
    | CandidateUnchanged | CandidatePackageInvalid | SandboxFailed

  // ---------------------------------------------------------------- paths, files and codes

  predicate Contains(s: string, part: string) {
    part <= s || (s != "" && Contains(s[1..], part))
  }

  predicate ValidPath(path: string) {
    && 5 < |path| && path[|path| - 5..] == ".json"
    && path[0] != '/' && path[0] != '.' && '\\' !in path
    && !Contains(path, "//") && !Contains(path, "/./") && !Contains(path, "/../")
  }

  predicate ValidCodes(codes: seq<string>) {
    |codes| <= 128 && forall i | 0 <= i < |codes| :: codes[i] != ""
  }

  predicate Hex(c: char) {
    '0' <= c <= '9' || 'a' <= c <= 'f' || 'A' <= c <= 'F'
  }

  predicate Blank(c: char) {
    '\t' <= c <= '\r' || '\U{1C}' <= c <= ' '
  }

  function Stripped(s: string): string {
    if s != [] && Blank(s[0]) then Stripped(s[1..])
    else if s != [] && Blank(s[|s| - 1]) then Stripped(s[..|s| - 1])
    else s
  }

  /** Hexadecimal digits with single underscores between them. */
  predicate HexDigits(s: string) {
    && s != [] && Hex(s[0]) && Hex(s[|s| - 1])
    && forall i | 0 < i < |s| :: Hex(s[i]) || (s[i] == '_' && s[i - 1] != '_')
  }

  function Unsigned(s: string): string {
    if s != [] && (s[0] == '+' || s[0] == '-') then s[1..] else s
  }

  /** What the original's number parser takes for a number in base 16. */
  predicate HexNumeral(s: string) {
    var n := Unsigned(Stripped(s));
    if 2 <= |n| && n[0] == '0' && (n[1] == 'x' || n[1] == 'X') then
      HexDigits(if 3 <= |n| && n[2] == '_' then n[3..] else n[2..])
    else HexDigits(n)
  }

  predicate DigestFormat(digest: string) {
    |digest| == 71 && "sha256:" <= digest && HexNumeral(digest[7..])
  }

  /** The stricter form the candidate's own model asks for. */
  predicate Sha256Digest(digest: string) {
    |digest| == 71 && "sha256:" <= digest && forall i | 7 <= i < 71 :: '0' <= digest[i] <= '9' || 'a' <= digest[i] <= 'f'
  }

  function Paths(files: seq<File>): set<string> {
    set i | 0 <= i < |files| :: files[i].path
  }

  function TotalLength(files: seq<File>): nat {
    if files == [] then 0 else TotalLength(files[..|files| - 1]) + files[|files| - 1].content.length
  }

  function Overlay(base: Files, files: seq<File>): Files {
    if files == [] then base
    else Overlay(base, files[..|files| - 1])[files[|files| - 1].path := files[|files| - 1].content]
  }

  /** The first file that may not stand in a base package decides the error. */
  function BaseFileError(files: seq<File>): Option<Error> {
    if files == [] then None
    else if !ValidPath(files[0].path) then Some(CandidatePathForbidden)
    else if MAX_CONTENT < files[0].content.length then Some(BasePackageInvalid)
    else if !files[0].content.json then Some(CandidateContentInvalid)
    else BaseFileError(files[1..])
  }

  function ReplacementError(base: Files, files: seq<File>): Option<Error> {
    if files == [] then None
    else if !ValidPath(files[0].path) || files[0].path !in base then Some(CandidatePathForbidden)
    else if MAX_CONTENT < files[0].content.length || !files[0].content.json then Some(CandidateContentInvalid)
    else ReplacementError(base, files[1..])
  }

  // ---------------------------------------------------------------- before the reservation

  function Allowed(request: L.Request): set<string> {
    set path | path in request.allowedPaths
  }

  function Prepare(request: L.Request, diagnostics: seq<string>, world: World): Result<Files, Error> {
    if !ValidCodes(diagnostics) then Failure(DiagnosticInvalid)
    else if world.package.None? then Failure(BasePackageInvalid)
    else if BaseFileError(world.package.value).Some? then Failure(BaseFileError(world.package.value).value)
    else
      var base := Overlay(map[], world.package.value);
      if base == map[] || !(Allowed(request) <= base.Keys) then Failure(BasePackageInvalid)
      else if world.load(base).None? then Failure(BasePackageInvalid)
      else if world.load(base).value != request.basePackage then Failure(BaseDigestMismatch)
      else Success(base)
  }

  // ---------------------------------------------------------------- inside the reservation

  predicate UsageDeclared(response: Response, reserved: L.Usage) {
    && 1 <= response.usage.modelCalls && L.Leq(response.usage, reserved)
    && response.usage.files == |response.replacements|
    && response.usage.candidateBytes == TotalLength(response.replacements)
  }

  function ApplyReplacements(request: L.Request, base: Files, response: Response): Result<Files, Error> {
    if response.basePackage != request.basePackage then Failure(BaseDigestMismatch)
    else if response.replacements == [] then Failure(CandidateEmpty)
    else if !(Paths(response.replacements) <= Allowed(request)) then Failure(CandidatePathForbidden)
    else if ReplacementError(base, response.replacements).Some? then
      Failure(ReplacementError(base, response.replacements).value)
    else if Overlay(base, response.replacements) == base then Failure(CandidateUnchanged)
    else Success(Overlay(base, response.replacements))
  }

  function ActualUsage(response: Response, tck: Gate, security: Gate): L.Usage {
    response.usage.(
      files := |response.replacements|,
      candidateBytes := TotalLength(response.replacements),
      validationSeconds := tck.duration + security.duration)
  }

  /** From the model's answer to the outcome that is about to be charged. */
  function Work(request: L.Request, reserved: L.Usage, base: Files, world: World): Result<Outcome, Error> {
    if world.response.None? then Failure(SandboxFailed)
    else
      var response := world.response.value;
      if !UsageDeclared(response, reserved) then Failure(ModelUsageInvalid)
      else
        match ApplyReplacements(request, base, response)
        case Failure(error) => Failure(error)
        case Success(candidate) =>
          var digest := world.load(candidate);
          if digest.None? then Failure(SandboxFailed)
          else if !DigestFormat(digest.value) then Failure(CandidatePackageInvalid)
          else if world.tck.None? || world.security.None? then Failure(SandboxFailed)
          else
            var tck, security := world.tck.value, world.security.value;
            var actual := ActualUsage(response, tck, security);
            if !L.ValidUsage(actual) || !Sha256Digest(digest.value) then Failure(SandboxFailed)
            else if !ValidCodes(tck.codes + security.codes) || !ValidCodes(tck.violations + security.violations)
            then Failure(DiagnosticInvalid)
            else if MAX_VIOLATIONS < |tck.violations + security.violations| || !world.metadataAccepted then
              Failure(SandboxFailed)
            else
              var passed := tck.passed && security.passed && tck.violations + security.violations == [];
              Success(Outcome(digest.value, Paths(response.replacements), actual, passed, passed))
  }

  // ---------------------------------------------------------------- one attempt

  function ReserveError(error: L.Error): Error {
    if error.InvalidInput? || error.ReservationInvalid? then InputInvalid else BudgetFailed
  }

  /** The ledger, and for every model call made the attempt identifier it was made under. */
  datatype State = State(ledger: L.Ledger, calls: seq<string>)
  {
    function Rows(): seq<L.Row> {
      ledger.rows
    }
  }

  ghost function AttemptStep(hash: L.Usage -> string, s: State, request: L.Request, budget: L.Budget,
                             reserved: L.Usage, attemptId: string, diagnostics: seq<string>, world: World)
    : (State, Result<Outcome, Error>)
  {
    match Prepare(request, diagnostics, world)
    case Failure(error) => (s, Failure(error))
    case Success(base) =>
      if L.Get(s.Rows(), attemptId, request.scope).Some? then (s, Failure(AttemptReplayed))
      else
        var (ledger, reservation) := L.ReserveCall(hash, s.ledger, request, budget, reserved, attemptId);
        if reservation.Failure? then (State(ledger, s.calls), Failure(ReserveError(reservation.error)))
        else
          var row := reservation.value;
          var called := State(ledger, s.calls + [attemptId]);
          match Work(request, reserved, base, world)
          case Failure(error) => (called.(ledger := L.FinalizeCall(hash, ledger, row, row.reserved).0), Failure(error))
          case Success(outcome) =>
            var (charged, receipt) := L.FinalizeCall(hash, ledger, row, outcome.actual);
            if receipt.Failure? then
              (called.(ledger := L.FinalizeCall(hash, charged, row, row.reserved).0), Failure(BudgetFailed))
            else (called.(ledger := charged), Success(outcome))
  }

  // ---------------------------------------------------------------- the sandbox itself

  method ReplaceFiles(request: L.Request, base: Files, response: Response) returns (r: Result<Files, Error>)
    ensures r == ApplyReplacements(request, base, response)
  {
    if response.basePackage != request.basePackage {
      return Failure(BaseDigestMismatch);
    }
    if response.replacements == [] {
      return Failure(CandidateEmpty);
    }
    if !(Paths(response.replacements) <= Allowed(request)) {
      return Failure(CandidatePathForbidden);
    }
    var candidate := base;
    var files := response.replacements;
    assert files[0..] == files;
    for i := 0 to |files|
      invariant candidate == Overlay(base, files[..i])
      invariant ReplacementError(base, files) == ReplacementError(base, files[i..])
    {
      assert files[i..][0] == files[i] && files[i..][1..] == files[i + 1..];
      if !ValidPath(files[i].path) {
        return Failure(CandidatePathForbidden);
      }
      if files[i].path !in base {
        return Failure(CandidatePathForbidden);
      }
      if MAX_CONTENT < files[i].content.length || !files[i].content.json {
        return Failure(CandidateContentInvalid);
      }
      candidate := candidate[files[i].path := files[i].content];
      assert files[..i + 1][..i] == files[..i];
    }
    assert files[..|files|] == files;
    if candidate == base {
      return Failure(CandidateUnchanged);
    }
    return Success(candidate);
  }

  class IsolatedRepairSandbox {
    const ledger: L.SQLiteRepairBudgetLedger
    /** The attempts under which the model gateway has been called. */
    var calls: seq<string>

    constructor (ledger: L.SQLiteRepairBudgetLedger)
      ensures this.ledger == ledger && calls == []
    {
      this.ledger := ledger;
      calls := [];
    }

    method GenerateAndValidate(request: L.Request, budget: L.Budget, reserved: L.Usage, attemptId: string,
                               diagnostics: seq<string>, world: World) returns (r: Result<Outcome, Error>)
      modifies this, ledger
      ensures (State(ledger.Contents(), calls), r) ==
              AttemptStep(ledger.hash, old(State(ledger.Contents(), calls)), request, budget, reserved, attemptId,
                          diagnostics, world)
    {
      hide L.ReserveCall, L.FinalizeCall, L.Get, Prepare, Work;
      var prepared := Prepare(request, diagnostics, world);
      if prepared.Failure? {
        return Failure(prepared.error);
      }
      var known := ledger.Fetch(attemptId, request.scope);
      if known.Some? {
        return Failure(AttemptReplayed);
      }
      var reservation := ledger.Reserve(request, budget, reserved, attemptId);
      if reservation.Failure? {
        return Failure(ReserveError(reservation.error));
      }
      var row := reservation.value;
      calls := calls + [attemptId];
      var work := Validate(request, reserved, prepared.value, world);
      if work.Failure? {
        var _ := ledger.Finalize(row, row.reserved);
        return Failure(work.error);
      }
      var receipt := ledger.Finalize(row, work.value.actual);
      if receipt.Failure? {
        var _ := ledger.Finalize(row, row.reserved);
        return Failure(BudgetFailed);
      }
      return Success(work.value);
    }

    /** The body of the original's `try` block between the model call and the charge. */
    method Validate(request: L.Request, reserved: L.Usage, base: Files, world: World)
      returns (r: Result<Outcome, Error>)
      ensures r == Work(request, reserved, base, world)
    {
      if world.response.None? {
        return Failure(SandboxFailed);
      }
      var response := world.response.value;
      if !UsageDeclared(response, reserved) {
        return Failure(ModelUsageInvalid);
      }
      var candidate := ReplaceFiles(request, base, response);
      if candidate.Failure? {
        return Failure(candidate.error);
      }
      var digest := world.load(candidate.value);
      if digest.None? {
        return Failure(SandboxFailed);
      }
      if !DigestFormat(digest.value) {
        return Failure(CandidatePackageInvalid);
      }
      if world.tck.None? || world.security.None? {
        return Failure(SandboxFailed);
      }
      var tck, security := world.tck.value, world.security.value;
      var actual := ActualUsage(response, tck, security);
      if !L.ValidUsage(actual) || !Sha256Digest(digest.value) {
        return Failure(SandboxFailed);
      }
      if !ValidCodes(tck.codes + security.codes) || !ValidCodes(tck.violations + security.violations) {
        return Failure(DiagnosticInvalid);
      }
      if MAX_VIOLATIONS < |tck.violations + security.violations| || !world.metadataAccepted {
        return Failure(SandboxFailed);
      }
      var passed := tck.passed && security.passed && tck.violations + security.violations == [];
      return Success(Outcome(digest.value, Paths(response.replacements), actual, passed, passed));
    }
  }
}

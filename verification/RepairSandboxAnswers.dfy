/** What the sandbox accepts: which packages it prepares, and which answers of the collaborators make an outcome. */
module RepairSandboxAnswers {
  import opened Wrappers
  import L = RepairLedger
  import D = RepairLedgerAnswers
  import N = NavigationPath
  import opened RepairSandbox

  // ---------------------------------------------------------------- paths

  /** A relative path to a JSON file, none of whose segments is empty or points to itself or upwards. */
  ghost predicate GoodPath(path: string) {
    && 5 < |path| && path[|path| - 5..] == ".json" && path[0] != '/' && path[0] != '.'
    && (forall i | 0 <= i < |path| :: path[i] != '\\')
    && "" !in N.Segments(path) && "." !in N.Segments(path) && ".." !in N.Segments(path)
  }

  predicate PartAt(s: string, part: string, i: nat) {
    i + |part| <= |s| && s[i..i + |part|] == part
  }

  lemma PartShifted(s: string, part: string, i: nat)
    requires s != ""
    ensures PartAt(s[1..], part, i) <==> PartAt(s, part, i + 1)
  {
    if i + 1 + |part| <= |s| {
      assert s[1..][i..i + |part|] == s[i + 1..i + 1 + |part|];
    }
  }

  lemma {:induction false} ContainsMeans(s: string, part: string)
    ensures Contains(s, part) <==> exists i: nat :: PartAt(s, part, i)
  {
    assert part <= s <==> PartAt(s, part, 0);
    if !(part <= s) && s != "" {
      ContainsMeans(s[1..], part);
      if i: nat :| PartAt(s[1..], part, i) {
        PartShifted(s, part, i);
      }
      if i: nat :| PartAt(s, part, i) {
        assert i != 0;
        PartShifted(s, part, i - 1);
      }
    }
  }

  predicate InnerSegment(s: string, word: string, i: nat) {
    PartAt(s, "/" + word + "/", i)
  }

  /** In a path that starts and ends with a name, a bare segment stands between two slashes. */
  lemma BareSegmentIff(s: string, word: string)
    requires word == "" || word == "." || word == ".."
    requires 5 <= |s| && s[|s| - 5..] == ".json" && s[0] != '/' && s[0] != '.' && '\\' !in s
    ensures word in N.Segments(s) <==> Contains(s, "/" + word + "/")
  {
    N.SegmentIff(s, word);
    ContainsMeans(s, "/" + word + "/");
    assert s[|s| - 1] == s[|s| - 5..][4] == 'n';
    if i: nat :| N.StandsAt(s, word, i) {
      BareIsInner(s, word, i);
    }
    if i: nat :| PartAt(s, "/" + word + "/", i) {
      InnerIsBare(s, word, i);
    }
  }

  lemma BareIsInner(s: string, word: string, i: nat)
    requires word == "" || word == "." || word == ".."
    requires s != "" && s[|s| - 1] == 'n' && s[0] != '/' && s[0] != '.' && '\\' !in s
    requires N.StandsAt(s, word, i)
    ensures 0 < i && PartAt(s, "/" + word + "/", i - 1)
  {
    var n := |word|;
    assert n > 0 ==> s[i] == s[i..i + n][0] && s[i + n - 1] == s[i..i + n][n - 1];
    assert i + n < |s| && 0 < i;
    assert s[i - 1] == '/' && s[i + n] == '/';
    assert s[i - 1..i + n + 1] == [s[i - 1]] + s[i..i + n] + [s[i + n]];
  }

  lemma InnerIsBare(s: string, word: string, i: nat)
    requires PartAt(s, "/" + word + "/", i)
    ensures N.StandsAt(s, word, i + 1)
  {
    var n, part := |word|, "/" + word + "/";
    forall j | 0 <= j < n + 2 ensures s[i + j] == part[j] {
      assert s[i..i + n + 2][j] == s[i + j];
    }
    assert part[1..n + 1] == word;
    assert s[i + 1..i + 1 + n] == word;
  }

  lemma ValidPathIff(path: string)
    ensures ValidPath(path) <==> GoodPath(path)
  {
    if 5 < |path| && path[|path| - 5..] == ".json" && path[0] != '/' && path[0] != '.' && '\\' !in path {
      BareSegmentIff(path, "");
      BareSegmentIff(path, ".");
      BareSegmentIff(path, "..");
      assert "/" + "" + "/" == "//" && "/" + "." + "/" == "/./" && "/" + ".." + "/" == "/../";
    }
  }

  // ---------------------------------------------------------------- packages

  ghost predicate GoodFile(file: File) {
    GoodPath(file.path) && file.content.json && file.content.length <= 1_048_576
  }

  /** The content under a path is that of the last file there; where there is none, that of the base. */
  ghost predicate Overlaid(base: Files, files: seq<File>, next: Files) {
    && (forall path :: path in next <==> path in base || exists i :: 0 <= i < |files| && files[i].path == path)
    && (forall i | IsLast(files, i) :: files[i].path in next && next[files[i].path] == files[i].content)
    && forall path | path in base && (forall i | 0 <= i < |files| :: files[i].path != path) :: next[path] == base[path]
  }

  ghost predicate IsLast(files: seq<File>, i: int) {
    0 <= i < |files| && forall j | i < j < |files| :: files[j].path != files[i].path
  }

  lemma {:induction false} OverlayPaths(base: Files, files: seq<File>, path: string)
    ensures path in Overlay(base, files) <==> path in base || exists i :: 0 <= i < |files| && files[i].path == path
    ensures path in base && (forall i | 0 <= i < |files| :: files[i].path != path) ==> Overlay(base, files)[path] == base[path]
  {
    if files != [] {
      var n := |files| - 1;
      OverlayPaths(base, files[..n], path);
      assert forall i | 0 <= i < n :: files[..n][i] == files[i];
      if i :| 0 <= i < |files| && files[i].path == path {
        assert i < n ==> files[..n][i].path == path;
      }
    }
  }

  lemma {:induction false} OverlayLast(base: Files, files: seq<File>, i: int)
    requires IsLast(files, i)
    ensures files[i].path in Overlay(base, files) && Overlay(base, files)[files[i].path] == files[i].content
  {
    var n := |files| - 1;
    if i < n {
      assert forall j | 0 <= j < n :: files[..n][j] == files[j];
      OverlayLast(base, files[..n], i);
    }
  }

  lemma OverlayMeans(base: Files, files: seq<File>)
    ensures Overlaid(base, files, Overlay(base, files))
  {
    var next := Overlay(base, files);
    forall path ensures path in next <==> path in base || exists i :: 0 <= i < |files| && files[i].path == path {
      OverlayPaths(base, files, path);
    }
    forall i | IsLast(files, i) ensures files[i].path in next && next[files[i].path] == files[i].content {
      OverlayLast(base, files, i);
    }
    forall path | path in base && (forall i | 0 <= i < |files| :: files[i].path != path) ensures next[path] == base[path] {
      OverlayPaths(base, files, path);
    }
  }

  lemma {:induction false} BaseFilesIff(files: seq<File>)
    ensures BaseFileError(files).None? <==> forall i | 0 <= i < |files| :: GoodFile(files[i])
  {
    if files != [] {
      ValidPathIff(files[0].path);
      BaseFilesIff(files[1..]);
      assert forall i | 0 < i < |files| :: files[i] == files[1..][i - 1];
      assert forall i | 0 <= i < |files| - 1 :: files[1..][i] == files[i + 1];
    }
  }

  lemma {:induction false} ReplacementsIff(base: Files, files: seq<File>)
    ensures ReplacementError(base, files).None? <==> forall i | 0 <= i < |files| :: GoodFile(files[i]) && files[i].path in base
  {
    if files != [] {
      ValidPathIff(files[0].path);
      ReplacementsIff(base, files[1..]);
      assert forall i | 0 < i < |files| :: files[i] == files[1..][i - 1];
      assert forall i | 0 <= i < |files| - 1 :: files[1..][i] == files[i + 1];
    }
  }

  ghost predicate Named(codes: seq<string>) {
    |codes| <= 128 && forall code | code in codes :: code != ""
  }

  lemma AllowedIff(request: L.Request, files: Files)
    ensures Allowed(request) <= files.Keys <==> forall path | path in request.allowedPaths :: path in files
  {
    if Allowed(request) <= files.Keys {
      forall path | path in request.allowedPaths ensures path in files {
        assert path in Allowed(request);
      }
    }
  }

  /**
   An attempt is prepared exactly on a base package of good files that has every allowed path and that the
   loader identifies as the requested one; what it works on are those files.
   */
  lemma PreparedIff(request: L.Request, diagnostics: seq<string>, world: World, base: Files)
    ensures Prepare(request, diagnostics, world) == Success(base) <==>
              && Named(diagnostics) && world.package.Some?
              && (forall i | 0 <= i < |world.package.value| :: GoodFile(world.package.value[i]))
              && base == Overlay(map[], world.package.value) && base != map[]
              && (forall path | path in request.allowedPaths :: path in base)
              && world.load(base) == Some(request.basePackage)
    ensures Prepare(request, diagnostics, world) == Success(base) ==> Overlaid(map[], world.package.value, base)
  {
    hide BaseFileError, Overlay, Overlaid, ValidCodes, Named, GoodFile, Allowed;
    NamedIff(diagnostics);
    if world.package.Some? {
      BaseFilesIff(world.package.value);
      OverlayMeans(map[], world.package.value);
      AllowedIff(request, Overlay(map[], world.package.value));
    }
  }

  lemma NamedIff(codes: seq<string>)
    ensures ValidCodes(codes) <==> Named(codes)
  {
    if Named(codes) {
      forall i | 0 <= i < |codes| ensures codes[i] != "" {
        assert codes[i] in codes;
      }
    }
  }

  // ---------------------------------------------------------------- outcomes

  function Bytes(files: seq<File>): nat {
    if files == [] then 0 else files[0].content.length + Bytes(files[1..])
  }

  lemma {:induction false} LengthIsBytes(files: seq<File>)
    ensures TotalLength(files) == Bytes(files)
  {
    if |files| == 1 {
      assert files[..0] == files[1..] == [];
    } else if files != [] {
      var n := |files| - 1;
      LengthIsBytes(files[..n]);
      LengthIsBytes(files[1..]);
      LengthIsBytes(files[1..][..n - 1]);
      assert files[..n][1..] == files[1..][..n - 1];
    }
  }

  /** The model answered for the requested package with what it declares, within what was reserved. */
  ghost predicate Answered(request: L.Request, reserved: L.Usage, base: Files, response: Response) {
    && response.basePackage == request.basePackage && response.replacements != []
    && 1 <= response.usage.modelCalls && D.Under(response.usage, reserved)
    && response.usage.files == |response.replacements| && response.usage.candidateBytes == Bytes(response.replacements)
    && (forall i | 0 <= i < |response.replacements| ::
          && GoodFile(response.replacements[i]) && response.replacements[i].path in base
          && response.replacements[i].path in request.allowedPaths)
    && Overlay(base, response.replacements) != base
  }

  lemma AnsweredIff(request: L.Request, reserved: L.Usage, base: Files, response: Response)
    ensures UsageDeclared(response, reserved) && ApplyReplacements(request, base, response).Success?
            <==> Answered(request, reserved, base, response)
    ensures Answered(request, reserved, base, response) ==>
              && ApplyReplacements(request, base, response).value == Overlay(base, response.replacements)
              && Overlaid(base, response.replacements, Overlay(base, response.replacements))
  {
    var files := response.replacements;
    D.LeqIsUnder(response.usage, reserved);
    LengthIsBytes(files);
    ReplacementsIff(base, files);
    OverlayMeans(base, files);
    assert Paths(files) <= Allowed(request) <==> forall i | 0 <= i < |files| :: files[i].path in request.allowedPaths by {
      if Paths(files) <= Allowed(request) {
        forall i | 0 <= i < |files| ensures files[i].path in request.allowedPaths {
          assert files[i].path in Paths(files);
        }
      }
    }
  }

  /** A digest as the candidate's own model takes it: sixty-four lower-case hexadecimal digits after the prefix. */
  predicate Digest(text: string) {
    |text| == 71 && text[..7] == "sha256:" && forall i | 7 <= i < 71 :: text[i] in "0123456789abcdef"
  }

  lemma DigitIff(c: char)
    ensures '0' <= c <= '9' || 'a' <= c <= 'f' <==> c in "0123456789abcdef"
    ensures c in "0123456789abcdef" ==> Hex(c) && !Blank(c) && c != '+' && c != '-' && c != 'x' && c != 'X' && c != '_'
  {
    var digits := "0123456789abcdef";
    if '0' <= c <= '9' {
      assert digits[c as int - '0' as int] == c;
    } else if 'a' <= c <= 'f' {
      assert digits[c as int - 'a' as int + 10] == c;
    }
  }

  /** The stricter form implies the looser one, so only it counts. */
  lemma DigestIff(text: string)
    ensures Sha256Digest(text) <==> Digest(text)
    ensures Digest(text) ==> DigestFormat(text)
  {
    if |text| == 71 {
      forall i | 7 <= i < 71 ensures '0' <= text[i] <= '9' || 'a' <= text[i] <= 'f' <==> text[i] in "0123456789abcdef" {
        DigitIff(text[i]);
      }
      assert "sha256:" <= text <==> text[..7] == "sha256:";
      if Digest(text) {
        DigitsAreNumeral(text[7..]);
      }
    }
  }

  lemma DigitsAreNumeral(s: string)
    requires 2 <= |s| && forall i | 0 <= i < |s| :: s[i] in "0123456789abcdef"
    ensures HexNumeral(s)
  {
    forall i | 0 <= i < |s| ensures Hex(s[i]) && !Blank(s[i]) && s[i] != '+' && s[i] != '-' && s[i] != 'x' && s[i] != 'X' {
      DigitIff(s[i]);
    }
  }

  /** The two reports together: their codes and violations are named, and there are not too many. */
  ghost predicate Reported(tck: Gate, security: Gate) {
    && Named(tck.codes + security.codes) && Named(tck.violations + security.violations)
    && |tck.violations| + |security.violations| <= 64
  }

  /** The model's own figures, with the validation time the two gates took. */
  function UsedIn(response: Response, tck: Gate, security: Gate): L.Usage {
    var u := response.usage;
    L.Usage(u.modelCalls, u.inputTokens, u.outputTokens, u.costUnits, u.files, u.candidateBytes, tck.duration + security.duration)
  }

  lemma UsedIsActual(request: L.Request, reserved: L.Usage, base: Files, response: Response, tck: Gate, security: Gate)
    requires Answered(request, reserved, base, response)
    ensures ActualUsage(response, tck, security) == UsedIn(response, tck, security)
  {
    LengthIsBytes(response.replacements);
  }

  /**
   The model's answer becomes an outcome exactly if it is one for the request, its package loads under a
   proper digest, both gates report, and the usage is one the ledger can record; it is proposed exactly if
   both gates passed and named no violation.
   */
  lemma OutcomeIff(request: L.Request, reserved: L.Usage, base: Files, world: World)
    ensures var r := Work(request, reserved, base, world);
            && (r.Success? <==>
                && world.response.Some? && Answered(request, reserved, base, world.response.value)
                && world.load(Overlay(base, world.response.value.replacements)).Some?
                && Digest(world.load(Overlay(base, world.response.value.replacements)).value)
                && world.tck.Some? && world.security.Some? && Reported(world.tck.value, world.security.value)
                && D.Measured(UsedIn(world.response.value, world.tck.value, world.security.value))
                && world.metadataAccepted)
            && (r.Success? ==>
                  && world.load(Overlay(base, world.response.value.replacements)) == Some(r.value.candidatePackage)
                  && (forall path :: path in r.value.changedPaths <==>
                        exists i :: 0 <= i < |world.response.value.replacements| && world.response.value.replacements[i].path == path)
                  && r.value.actual == UsedIn(world.response.value, world.tck.value, world.security.value)
                  && r.value.passed == r.value.proposed
                  && (r.value.proposed <==>
                        && world.tck.value.passed && world.security.value.passed
                        && world.tck.value.violations == [] && world.security.value.violations == []))
  {
    hide Answered, UsageDeclared, ApplyReplacements, HexNumeral, D.Measured, L.ValidUsage, Overlay, ActualUsage, UsedIn;
    if world.response.Some? {
      var response := world.response.value;
      AnsweredIff(request, reserved, base, response);
      if Answered(request, reserved, base, response) && world.load(Overlay(base, response.replacements)).Some? {
        DigestIff(world.load(Overlay(base, response.replacements)).value);
        if world.tck.Some? && world.security.Some? {
          NamedIff(world.tck.value.codes + world.security.value.codes);
          NamedIff(world.tck.value.violations + world.security.value.violations);
          UsedIsActual(request, reserved, base, response, world.tck.value, world.security.value);
          D.MeasuredIsValid(UsedIn(response, world.tck.value, world.security.value));
        }
      }
    }
  }
}

/**
 The adapter factory: a captured demonstration and a reviewed operating procedure are compiled into
 parameter bindings, and a ready specification is built into a browser recipe.
 */
module AdapterFactory {
  import opened Wrappers
  import NavigationPath
  import Sorting
  import Text

  datatype Locator = Locator(kind: string, value: string, exact: bool)

  datatype Kind = FillKind | SelectKind

  datatype Action =
    | Click(locator: Locator)
    | Fill(locator: Locator, parameter: string)
    | Select(locator: Locator, parameter: string)
    | Assert(locator: Locator, expectation: string)
  {
    predicate Bindable() {
      Fill? || Select?
    }

    function Kind(): Kind
      requires Bindable()
    {
      if Fill? then FillKind else SelectKind
    }

    predicate For(parameter: string) {
      Bindable() && this.parameter == parameter
    }
  }

  datatype Sop = Sop(supported: seq<string>, steps: seq<Action>)

  datatype Evidence = Evidence(parameter: string, ids: seq<string>, value: string)

  datatype Reason = Duplicate | Unsupported | NoStep | NoEvidence | Conflicting | NeedsSelection

  /** Evidence references are kept as the set whose sorted listing the original stores. */
  datatype Ambiguity = Ambiguity(
    id: string, parameter: string, reason: Reason, candidates: seq<nat>, evidenceIds: set<string>, resolvable: bool)

  datatype Resolution = Resolution(id: string, selected: nat)

  datatype Binding = Binding(parameter: string, kind: Kind, locator: Locator, evidenceIds: set<string>)

  datatype Status = Ambiguous | Ready | Certified

  datatype Specification = Specification(
    parameters: seq<Binding>, ambiguities: seq<Ambiguity>, resolutions: seq<Resolution>,
    status: Status, certifiedBy: Option<string>)
  {
    predicate IsReady() {
      status.Ready? || status.Certified?
    }
  }

  datatype Input = Input(actions: seq<Action>, sop: Sop, evidence: seq<Evidence>, resolutions: seq<Resolution>)

  datatype Error =
    | EvidenceUnused | ResolutionDuplicate | ModelInvalid
    | NotReady | AmbiguityUnresolved | BindingMissing | NavigationInvalid | UnsupportedAction

  const MAX_REFERENCES := 16
  const MAX_BINDINGS := 64

  // ---------------------------------------------------------------- looking things up

  function Decimal(n: nat): string {
    if n < 10 then ["0123456789"[n]] else Decimal(n / 10) + ["0123456789"[n % 10]]
  }

  /** The ambiguity identifier of the action at an index. */
  function Id(index: nat): string {
    "a-" + Decimal(index + 1)
  }

  function Captured(actions: seq<Action>): set<string> {
    set i | 0 <= i < |actions| && actions[i].Bindable() :: actions[i].parameter
  }

  function Values(evidence: seq<Evidence>, parameter: string): set<string> {
    set i | 0 <= i < |evidence| && evidence[i].parameter == parameter :: evidence[i].value
  }

  function EvidenceIds(evidence: seq<Evidence>, parameter: string): set<string> {
    set i, id | 0 <= i < |evidence| && evidence[i].parameter == parameter && id in evidence[i].ids :: id
  }

  /** The reviewed steps that bind the parameter, in order. */
  function Candidates(steps: seq<Action>, parameter: string): (r: seq<nat>)
    ensures forall j | 0 <= j < |r| :: r[j] < |steps| && steps[r[j]].For(parameter)
    ensures forall k: nat | k < |steps| && steps[k].For(parameter) :: k in r
  {
    if steps == [] then []
    else
      var n := |steps| - 1;
      var before := Candidates(steps[..n], parameter);
      if steps[n].For(parameter) then before + [n] else before
  }

  function ResolutionOf(resolutions: seq<Resolution>, id: string): (r: Option<Resolution>)
    ensures r.Some? ==> r.value in resolutions && r.value.id == id
    ensures r.None? ==> forall x | x in resolutions :: x.id != id
  {
    if resolutions == [] then None
    else
      var n := |resolutions| - 1;
      if resolutions[n].id == id then Some(resolutions[n]) else ResolutionOf(resolutions[..n], id)
  }

  function AmbiguityOf(ambiguities: seq<Ambiguity>, id: string): (r: Option<Ambiguity>)
    ensures r.Some? ==> r.value in ambiguities && r.value.id == id
    ensures r.None? ==> forall x | x in ambiguities :: x.id != id
  {
    if ambiguities == [] then None
    else
      var n := |ambiguities| - 1;
      if ambiguities[n].id == id then Some(ambiguities[n]) else AmbiguityOf(ambiguities[..n], id)
  }

  predicate DistinctIds(resolutions: seq<Resolution>) {
    forall i, j | 0 <= i < j < |resolutions| :: resolutions[i].id != resolutions[j].id
  }

  predicate Resolved(ambiguities: seq<Ambiguity>, resolutions: seq<Resolution>) {
    forall a | a in ambiguities :: a.resolvable && ResolutionOf(resolutions, a.id).Some?
  }

  // ---------------------------------------------------------------- what the models accept

  predicate ValidAmbiguity(a: Ambiguity) {
    1 <= |a.candidates| <= MAX_REFERENCES && |a.evidenceIds| <= MAX_REFERENCES
  }

  predicate ValidBinding(b: Binding) {
    1 <= |b.evidenceIds| <= MAX_REFERENCES
  }

  predicate ValidResolution(ambiguities: seq<Ambiguity>, r: Resolution) {
    var a := AmbiguityOf(ambiguities, r.id);
    a.Some? && a.value.resolvable && r.selected in a.value.candidates
  }

  predicate ValidSpecification(s: Specification) {
    && |s.parameters| <= MAX_BINDINGS && |s.ambiguities| <= MAX_BINDINGS && |s.resolutions| <= MAX_BINDINGS
    && (s.IsReady() ==> s.parameters != [] && Resolved(s.ambiguities, s.resolutions))
    && (forall i, j | 0 <= i < j < |s.parameters| :: s.parameters[i].parameter != s.parameters[j].parameter)
    && DistinctIds(s.resolutions)
    && (forall r | r in s.resolutions :: ValidResolution(s.ambiguities, r))
    && (s.status.Certified? <==> s.certifiedBy.Some?)
  }

  // ---------------------------------------------------------------- what compilation does

  /** What one captured action contributes. */
  datatype Judgement = Judgement(ambiguity: Option<Ambiguity>, binding: Option<Binding>)
  {
    predicate Accepted() {
      (ambiguity.Some? ==> ValidAmbiguity(ambiguity.value)) && (binding.Some? ==> ValidBinding(binding.value))
    }
  }

  function Blocker(input: Input, parameter: string): Option<Reason> {
    if parameter !in input.sop.supported then Some(Unsupported)
    else if Candidates(input.sop.steps, parameter) == [] then Some(NoStep)
    else if Values(input.evidence, parameter) == {} then Some(NoEvidence)
    else if |Values(input.evidence, parameter)| > 1 then Some(Conflicting)
    else None
  }

  /** The procedure has one step for the action's parameter, and it is the action that was captured. */
  predicate Direct(steps: seq<Action>, action: Action)
    requires action.Bindable()
  {
    var candidates := Candidates(steps, action.parameter);
    |candidates| == 1 && steps[candidates[0]].Kind() == action.Kind() && steps[candidates[0]].locator == action.locator
  }

  function Bind(input: Input, parameter: string, step: Action): Binding
    requires step.Bindable()
  {
    Binding(parameter, step.Kind(), step.locator, EvidenceIds(input.evidence, parameter))
  }

  function Judge(input: Input, i: nat): Judgement
    requires i < |input.actions|
  {
    var action := input.actions[i];
    if !action.Bindable() then Judgement(None, None)
    else
      var parameter := action.parameter;
      if parameter in Captured(input.actions[..i]) then
        Judgement(Some(Ambiguity(Id(i), parameter, Duplicate, [i], {}, false)), None)
      else
        var candidates := Candidates(input.sop.steps, parameter);
        var ids := EvidenceIds(input.evidence, parameter);
        var blocker := Blocker(input, parameter);
        if blocker.Some? then
          Judgement(Some(Ambiguity(Id(i), parameter, blocker.value, if candidates == [] then [i] else candidates, ids, false)), None)
        else if Direct(input.sop.steps, action) then
          Judgement(None, Some(Bind(input, parameter, input.sop.steps[candidates[0]])))
        else
          var ambiguity := Ambiguity(Id(i), parameter, NeedsSelection, candidates, ids, true);
          var resolution := ResolutionOf(input.resolutions, Id(i));
          if resolution.None? || resolution.value.selected !in candidates then Judgement(Some(ambiguity), None)
          else Judgement(Some(ambiguity), Some(Bind(input, parameter, input.sop.steps[resolution.value.selected])))
  }

  function Ambiguities(input: Input, n: nat): seq<Ambiguity>
    requires n <= |input.actions|
  {
    if n == 0 then []
    else
      var j := Judge(input, n - 1);
      if j.ambiguity.Some? then Ambiguities(input, n - 1) + [j.ambiguity.value] else Ambiguities(input, n - 1)
  }

  function Bindings(input: Input, n: nat): seq<Binding>
    requires n <= |input.actions|
  {
    if n == 0 then []
    else
      var j := Judge(input, n - 1);
      if j.binding.Some? then Bindings(input, n - 1) + [j.binding.value] else Bindings(input, n - 1)
  }

  predicate EvidenceUsed(input: Input) {
    forall e | e in input.evidence :: e.parameter in Captured(input.actions)
  }

  function Compiled(input: Input): Specification {
    var bindings, ambiguities := Bindings(input, |input.actions|), Ambiguities(input, |input.actions|);
    Specification(bindings, ambiguities, input.resolutions,
                  if bindings == [] || !Resolved(ambiguities, input.resolutions) then Ambiguous else Ready, None)
  }

  function CompileResult(input: Input): Result<Specification, Error> {
    if !EvidenceUsed(input) then Failure(EvidenceUnused)
    else if !DistinctIds(input.resolutions) then Failure(ResolutionDuplicate)
    else if exists i | 0 <= i < |input.actions| :: !Judge(input, i).Accepted() then Failure(ModelInvalid)
    else if !ValidSpecification(Compiled(input)) then Failure(ModelInvalid)
    else Success(Compiled(input))
  }

  method Compile(input: Input) returns (r: Result<Specification, Error>)
    ensures r == CompileResult(input)
  {
    hide Judge, Captured, EvidenceUsed, DistinctIds, ValidSpecification, Resolved, ValidAmbiguity, ValidBinding;
    if !EvidenceUsed(input) {
      return Failure(EvidenceUnused);
    }
    if !DistinctIds(input.resolutions) {
      return Failure(ResolutionDuplicate);
    }
    var ambiguities: seq<Ambiguity>, bindings: seq<Binding> := [], [];
    var processed: set<string> := {};
    NothingCaptured();
    for i := 0 to |input.actions|
      invariant ambiguities == Ambiguities(input, i) && bindings == Bindings(input, i)
      invariant processed == Captured(input.actions[..i])
      invariant forall k | 0 <= k < i :: Judge(input, k).Accepted()
    {
      CapturedStep(input.actions, i);
      var action := input.actions[i];
      if action.Bindable() {
        var ambiguity, binding := JudgeAction(input, i, processed);
        if (ambiguity.Some? && !ValidAmbiguity(ambiguity.value)) || (binding.Some? && !ValidBinding(binding.value)) {
          assert !Judge(input, i).Accepted();
          return Failure(ModelInvalid);
        }
        if ambiguity.Some? {
          ambiguities := ambiguities + [ambiguity.value];
        }
        if binding.Some? {
          bindings := bindings + [binding.value];
        }
        processed := processed + {action.parameter};
      } else {
        JudgeOther(input, i);
      }
    }
    assert input.actions[..|input.actions|] == input.actions;
    var unresolved := bindings == [] || !Resolved(ambiguities, input.resolutions);
    var specification :=
      Specification(bindings, ambiguities, input.resolutions, if unresolved then Ambiguous else Ready, None);
    if !ValidSpecification(specification) {
      return Failure(ModelInvalid);
    }
    return Success(specification);
  }

  lemma JudgeOther(input: Input, i: nat)
    requires i < |input.actions| && !input.actions[i].Bindable()
    ensures Judge(input, i) == Judgement(None, None)
  {
  }

  /** The body of the original's loop, with its early `continue`s. */
  method JudgeAction(input: Input, i: nat, processed: set<string>)
    returns (ambiguity: Option<Ambiguity>, binding: Option<Binding>)
    requires i < |input.actions| && input.actions[i].Bindable() && processed == Captured(input.actions[..i])
    ensures Judgement(ambiguity, binding) == Judge(input, i)
  {
    hide Captured, Id, EvidenceIds;
    var action := input.actions[i];
    var parameter := action.parameter;
    if parameter in processed {
      return Some(Ambiguity(Id(i), parameter, Duplicate, [i], {}, false)), None;
    }
    var candidates := Candidates(input.sop.steps, parameter);
    var ids := EvidenceIds(input.evidence, parameter);
    var reason := Blocker(input, parameter);
    if reason.Some? {
      var listed := if candidates == [] then [i] else candidates;
      return Some(Ambiguity(Id(i), parameter, reason.value, listed, ids, false)), None;
    }
    var selected := candidates[0];
    ambiguity := None;
    if |candidates| != 1 || input.sop.steps[selected].Kind() != action.Kind() || input.sop.steps[selected].locator != action.locator {
      ambiguity := Some(Ambiguity(Id(i), parameter, NeedsSelection, candidates, ids, true));
      var resolution := ResolutionOf(input.resolutions, Id(i));
      if resolution.None? {
        return ambiguity, None;
      }
      if resolution.value.selected !in candidates {
        return ambiguity, None;
      }
      selected := resolution.value.selected;
    }
    binding := Some(Bind(input, parameter, input.sop.steps[selected]));
  }

  lemma NothingCaptured()
    ensures Captured([]) == {}
  {
  }

  lemma CapturedStep(actions: seq<Action>, i: nat)
    requires i < |actions|
    ensures Captured(actions[..i + 1]) ==
            Captured(actions[..i]) + if actions[i].Bindable() then {actions[i].parameter} else {}
  {
    var before, after := actions[..i], actions[..i + 1];
    assert after == before + [actions[i]];
    forall p ensures p in Captured(after) <==>
                     p in Captured(before) || (actions[i].Bindable() && p == actions[i].parameter) {
      if k :| 0 <= k < |before| && before[k].Bindable() && before[k].parameter == p {
        assert after[k] == before[k];
      }
      if k :| 0 <= k < |after| && after[k].Bindable() && after[k].parameter == p {
        assert k < i ==> before[k] == after[k];
      }
      if actions[i].Bindable() && p == actions[i].parameter {
        assert after[i] == actions[i];
      }
    }
  }

  predicate ValidReviewer(reviewer: string) {
    1 <= |reviewer| <= 512 && Text.Trimmed(reviewer)
  }

  function Certify(s: Specification, reviewer: string): Result<Specification, Error> {
    if !s.IsReady() then Failure(NotReady)
    else
      var certified := s.(status := Certified, certifiedBy := Some(reviewer));
      if !ValidReviewer(reviewer) || !ValidSpecification(certified) then Failure(ModelInvalid) else Success(certified)
  }

  // ---------------------------------------------------------------- building the recipe

  datatype LocatorSpec =
    | RoleLocator(role: string, name: string, exact: bool)
    | ValueLocator(kind: string, value: string, exact: bool)

  datatype BrowserAction =
    | Navigate(path: string)
    | FillInput(locator: LocatorSpec, pointer: string)
    | ExtractText(locator: LocatorSpec, outputKey: string)

  datatype Options = Options(navigationPath: string, resultLocator: LocatorSpec, outputKey: string)

  /** All the options' own model demands of the navigation path. */
  predicate ValidOptions(options: Options) {
    1 <= |options.navigationPath| <= 1024 && Text.Trimmed(options.navigationPath)
  }

  function ToBrowserLocator(locator: Locator): LocatorSpec {
    if locator.kind == "role" then RoleLocator("textbox", locator.value, locator.exact)
    else ValueLocator(locator.kind, locator.value, locator.exact)
  }

  function FillFor(b: Binding): BrowserAction {
    FillInput(ToBrowserLocator(b.locator), "/transaction/subject/" + b.parameter)
  }

  function ByParameter(): (Binding, Binding) -> bool {
    (a: Binding, b: Binding) => Text.Leq(a.parameter, b.parameter)
  }

  function SpecificationError(s: Specification): Option<Error> {
    if !s.IsReady() then Some(NotReady)
    else if exists a | a in s.ambiguities :: ResolutionOf(s.resolutions, a.id).None? then Some(AmbiguityUnresolved)
    else if s.parameters == [] then Some(BindingMissing)
    else None
  }

  method BuildRecipe(s: Specification, options: Options) returns (r: Result<seq<BrowserAction>, Error>)
    ensures r == Recipe(s, options)
  {
    var error := SpecificationError(s);
    if error.Some? {
      return Failure(error.value);
    }
    if !NavigationPath.Acceptable(options.navigationPath) {
      return Failure(NavigationInvalid);
    }
    var actions := [Navigate(options.navigationPath)];
    var sorted := Sorting.Sort(ByParameter(), s.parameters);
    for i := 0 to |sorted|
      invariant |actions| == i + 1 && actions[0] == Navigate(options.navigationPath)
      invariant forall k | 0 <= k < i :: sorted[k].kind.FillKind? && actions[k + 1] == FillFor(sorted[k])
    {
      if !sorted[i].kind.FillKind? {
        return Failure(UnsupportedAction);
      }
      actions := actions + [FillFor(sorted[i])];
    }
    actions := actions + [ExtractText(options.resultLocator, options.outputKey)];
    assert actions == [Navigate(options.navigationPath)] + Fills(sorted) + [ExtractText(options.resultLocator, options.outputKey)];
    return Success(actions);
  }

  function Fills(bindings: seq<Binding>): seq<BrowserAction> {
    seq(|bindings|, i requires 0 <= i < |bindings| => FillFor(bindings[i]))
  }

  function Recipe(s: Specification, options: Options): Result<seq<BrowserAction>, Error> {
    if SpecificationError(s).Some? then Failure(SpecificationError(s).value)
    else if !NavigationPath.Acceptable(options.navigationPath) then Failure(NavigationInvalid)
    else
      var sorted := Sorting.Sort(ByParameter(), s.parameters);
      if exists i | 0 <= i < |sorted| :: !sorted[i].kind.FillKind? then Failure(UnsupportedAction)
      else Success([Navigate(options.navigationPath)] + Fills(sorted) + [ExtractText(options.resultLocator, options.outputKey)])
  }
}

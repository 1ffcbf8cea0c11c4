/** What the compiler asks of each captured action and which ambiguity it reports, in terms of procedure and evidence. */
module AdapterFactoryAnswers {
  import opened Wrappers
  import Text
  import opened AdapterFactory
  import P = AdapterFactoryProperties
  import NavigationPath
  import Sorting

  const REFERENCES := 16
  const BINDINGS := 64

  // ---------------------------------------------------------------- procedure and evidence

  predicate Names(step: Action, parameter: string) {
    (step.Fill? || step.Select?) && step.parameter == parameter
  }

  predicate StepNames(steps: seq<Action>, k: int, parameter: string) {
    0 <= k < |steps| && Names(steps[k], parameter)
  }

  /** The procedure's only step for the parameter is this very action. */
  ghost predicate SoleStep(steps: seq<Action>, action: Action) {
    && (action.Fill? || action.Select?)
    && exists k :: && StepNames(steps, k, action.parameter) && steps[k].Fill? == action.Fill?
                   && steps[k].locator == action.locator
                   && forall j | StepNames(steps, j, action.parameter) :: j == k
  }

  ghost predicate Attests(evidence: seq<Evidence>, parameter: string, value: string) {
    exists e :: e in evidence && e.parameter == parameter && e.value == value
  }

  /** The evidence for the parameter agrees on one value. */
  ghost predicate OneValue(evidence: seq<Evidence>, parameter: string) {
    && (exists value :: Attests(evidence, parameter, value))
    && forall v, w | Attests(evidence, parameter, v) && Attests(evidence, parameter, w) :: v == w
  }

  ghost predicate References(evidence: seq<Evidence>, parameter: string, id: string) {
    exists e :: e in evidence && e.parameter == parameter && id in e.ids
  }

  predicate Ascending(r: seq<nat>) {
    forall i, j | 0 <= i < j < |r| :: r[i] < r[j]
  }

  function Members(r: seq<nat>): set<nat> {
    set k | k in r
  }

  lemma MembersSnoc(r: seq<nat>, k: nat)
    ensures Members(r + [k]) == Members(r) + {k}
  {}

  lemma {:induction false} AscendingSize(r: seq<nat>)
    requires Ascending(r)
    ensures |Members(r)| == |r|
  {
    hide Members;
    if r == [] {
      EmptyMembers();
    } else {
      var n := |r| - 1;
      AscendingSize(r[..n]);
      MembersSnoc(r[..n], r[n]);
      LastIsNew(r);
      assert r == r[..n] + [r[n]];
    }
  }

  lemma EmptyMembers()
    ensures Members([]) == {}
  {}

  lemma LastIsNew(r: seq<nat>)
    requires Ascending(r) && r != []
    ensures r[|r| - 1] !in Members(r[..|r| - 1])
  {
    var n := |r| - 1;
    assert forall i | 0 <= i < n :: r[..n][i] == r[i] < r[n];
  }

  lemma {:induction false} CandidatesAscend(steps: seq<Action>, parameter: string)
    ensures var r := Candidates(steps, parameter);
            && Ascending(r)
            && forall k: nat :: k in r <==> StepNames(steps, k, parameter)
  {
    if steps != [] {
      var n := |steps| - 1;
      CandidatesAscend(steps[..n], parameter);
      assert forall k: nat | k < n :: StepNames(steps[..n], k, parameter) <==> StepNames(steps, k, parameter);
      assert forall i | 0 <= i < |Candidates(steps[..n], parameter)| :: Candidates(steps[..n], parameter)[i] < n;
      forall k: nat ensures k in Candidates(steps, parameter) <==> StepNames(steps, k, parameter) {
        assert k in Candidates(steps[..n], parameter) ==> k < n;
      }
    }
  }

  lemma DirectIff(steps: seq<Action>, action: Action)
    requires action.Bindable()
    ensures Direct(steps, action) <==> SoleStep(steps, action)
  {
    var r := Candidates(steps, action.parameter);
    CandidatesAscend(steps, action.parameter);
    if Direct(steps, action) {
      assert r[0] in r && StepNames(steps, r[0], action.parameter);
      forall j | StepNames(steps, j, action.parameter) ensures j == r[0] {
        assert (j as nat) in r;
      }
    }
    if SoleStep(steps, action) {
      var k :| && StepNames(steps, k, action.parameter) && steps[k].Fill? == action.Fill? && steps[k].locator == action.locator
               && forall j | StepNames(steps, j, action.parameter) :: j == k;
      assert (k as nat) in r;
      assert forall i | 0 <= i < |r| :: r[i] in r && StepNames(steps, r[i], action.parameter);
      AscendingSize(r);
      assert Members(r) == {k as nat};
    }
  }

  lemma AttestedIff(evidence: seq<Evidence>, parameter: string, value: string)
    ensures value in Values(evidence, parameter) <==> Attests(evidence, parameter, value)
  {
    if value in Values(evidence, parameter) {
      var i :| 0 <= i < |evidence| && evidence[i].parameter == parameter && evidence[i].value == value;
      assert evidence[i] in evidence;
    }
    if e :| e in evidence && e.parameter == parameter && e.value == value {
      var i :| 0 <= i < |evidence| && evidence[i] == e;
    }
  }

  lemma OneValueIff(evidence: seq<Evidence>, parameter: string)
    ensures |Values(evidence, parameter)| == 1 <==> OneValue(evidence, parameter)
    ensures Values(evidence, parameter) == {} <==> forall e | e in evidence :: e.parameter != parameter
  {
    var values := Values(evidence, parameter);
    forall value ensures value in values <==> Attests(evidence, parameter, value) {
      AttestedIff(evidence, parameter, value);
    }
    if |values| == 1 {
      var v :| v in values;
      assert |values - {v}| == 0;
      assert forall w | w in values :: w == v || w in values - {v};
    }
    if OneValue(evidence, parameter) {
      var v :| Attests(evidence, parameter, v);
      assert v in values;
      forall w | w in values ensures w == v {
        assert Attests(evidence, parameter, w);
      }
      assert values == {v};
    }
    if e :| e in evidence && e.parameter == parameter {
      assert Attests(evidence, parameter, e.value);
    }
  }

  lemma ReferencedIff(evidence: seq<Evidence>, parameter: string, id: string)
    ensures id in EvidenceIds(evidence, parameter) <==> References(evidence, parameter, id)
  {
    if id in EvidenceIds(evidence, parameter) {
      var i :| 0 <= i < |evidence| && evidence[i].parameter == parameter && id in evidence[i].ids;
      assert evidence[i] in evidence;
    }
    if e :| e in evidence && e.parameter == parameter && id in e.ids {
      var i :| 0 <= i < |evidence| && evidence[i] == e;
    }
  }

  // ---------------------------------------------------------------- the ambiguity of one action

  ghost predicate CapturedEarlier(input: Input, i: nat)
    requires i < |input.actions| && input.actions[i].Bindable()
  {
    exists j :: 0 <= j < i && Names(input.actions[j], input.actions[i].parameter)
  }

  /** What stands in the way of binding the action without a reviewer's choice; the first that applies. */
  ghost function Obstacle(input: Input, i: nat): Option<Reason>
    requires i < |input.actions| && input.actions[i].Bindable()
  {
    var parameter := input.actions[i].parameter;
    if CapturedEarlier(input, i) then Some(Duplicate)
    else if parameter !in input.sop.supported then Some(Unsupported)
    else if forall k :: !StepNames(input.sop.steps, k, parameter) then Some(NoStep)
    else if forall e | e in input.evidence :: e.parameter != parameter then Some(NoEvidence)
    else if !OneValue(input.evidence, parameter) then Some(Conflicting)
    else if !SoleStep(input.sop.steps, input.actions[i]) then Some(NeedsSelection)
    else None
  }

  lemma EarlierIff(input: Input, i: nat)
    requires i < |input.actions| && input.actions[i].Bindable()
    ensures input.actions[i].parameter in Captured(input.actions[..i]) <==> CapturedEarlier(input, i)
  {
    P.CapturedBefore(input, i);
  }

  lemma NoStepIff(steps: seq<Action>, parameter: string)
    ensures Candidates(steps, parameter) == [] <==> forall k :: !StepNames(steps, k, parameter)
  {
    CandidatesAscend(steps, parameter);
    var r := Candidates(steps, parameter);
    if r != [] {
      assert r[0] in r;
    }
    if k :| StepNames(steps, k, parameter) {
      assert (k as nat) in r;
    }
  }

  /**
   Every captured action is reported with the first obstacle in its way and with nothing if there is none.
   What can be chosen is listed in the procedure's order; only an open choice can be resolved.
   */
  lemma ReportsObstacle(input: Input, i: nat)
    requires i < |input.actions| && input.actions[i].Bindable()
    ensures var a := Judge(input, i).ambiguity; var obstacle := Obstacle(input, i); var parameter := input.actions[i].parameter;
            && (a.Some? <==> obstacle.Some?)
            && (a.Some? ==>
                  && a.value.id == Id(i) && a.value.parameter == parameter && a.value.reason == obstacle.value
                  && (a.value.resolvable <==> a.value.reason.NeedsSelection?)
                  && (if a.value.reason.Duplicate? then a.value.candidates == [i] && a.value.evidenceIds == {}
                      else
                        && (a.value.candidates == if a.value.reason.Unsupported? || a.value.reason.NoStep? then
                              if forall k :: !StepNames(input.sop.steps, k, parameter) then [i]
                              else Candidates(input.sop.steps, parameter) else Candidates(input.sop.steps, parameter))
                        && forall id :: id in a.value.evidenceIds <==> References(input.evidence, parameter, id)))
  {
    hide Values, EvidenceIds, Id, Direct, SoleStep, OneValue, Captured, CapturedEarlier;
    var parameter := input.actions[i].parameter;
    EarlierIff(input, i);
    NoStepIff(input.sop.steps, parameter);
    OneValueIff(input.evidence, parameter);
    DirectIff(input.sop.steps, input.actions[i]);
    assert Values(input.evidence, parameter) == {} <==> |Values(input.evidence, parameter)| == 0;
    forall id ensures id in EvidenceIds(input.evidence, parameter) <==> References(input.evidence, parameter, id) {
      ReferencedIff(input.evidence, parameter, id);
    }
  }

  lemma IdExamples()
    ensures Id(0) == "a-1" && Id(9) == "a-10" && Id(122) == "a-123"
  {
    assert Decimal(1) == "1" && Decimal(10) == "10" && Decimal(12) == "12" && Decimal(123) == "123";
  }

  // ---------------------------------------------------------------- readiness

  ghost predicate ChosenStep(input: Input, i: nat, k: int)
    requires i < |input.actions| && input.actions[i].Bindable()
  {
    StepNames(input.sop.steps, k, input.actions[i].parameter) && Resolution(Id(i), k) in input.resolutions
  }

  ghost predicate Few<T(!new)>(members: iset<T>, least: nat, most: nat) {
    exists s: set<T> :: (forall x :: x in s <==> x in members) && least <= |s| <= most
  }

  /** The captured action is bound: supported, attested by one value, and either sole or chosen among few. */
  ghost predicate Settled(input: Input, i: nat)
    requires i < |input.actions| && input.actions[i].Bindable()
  {
    var parameter := input.actions[i].parameter;
    && !CapturedEarlier(input, i) && parameter in input.sop.supported && OneValue(input.evidence, parameter)
    && Few(iset id | References(input.evidence, parameter, id), 1, REFERENCES)
    && (|| SoleStep(input.sop.steps, input.actions[i])
        || (&& (exists k :: ChosenStep(input, i, k))
            && Few(iset k: nat | StepNames(input.sop.steps, k, parameter), 1, REFERENCES)))
  }

  lemma FewSteps(steps: seq<Action>, parameter: string)
    ensures 1 <= |Candidates(steps, parameter)| <= REFERENCES <==> Few(iset k: nat | StepNames(steps, k, parameter), 1, REFERENCES)
  {
    var r := Candidates(steps, parameter);
    CandidatesAscend(steps, parameter);
    AscendingSize(r);
    var members := iset k: nat | StepNames(steps, k, parameter);
    var s := Members(r);
    assert forall k :: k in s <==> k in members;
    if t: set<nat> :| (forall k :: k in t <==> k in members) && 1 <= |t| <= REFERENCES {
      assert t == s;
    }
  }

  lemma FewReferences(evidence: seq<Evidence>, parameter: string)
    ensures 1 <= |EvidenceIds(evidence, parameter)| <= REFERENCES
            <==> Few(iset id | References(evidence, parameter, id), 1, REFERENCES)
  {
    var ids := EvidenceIds(evidence, parameter);
    var members := iset id | References(evidence, parameter, id);
    forall id ensures id in ids <==> id in members {
      ReferencedIff(evidence, parameter, id);
    }
    if t: set<string> :| (forall id :: id in t <==> id in members) && 1 <= |t| <= REFERENCES {
      assert t == ids;
    }
  }

  lemma SettledIsCovered(input: Input, i: nat)
    requires i < |input.actions| && input.actions[i].Bindable()
    ensures P.ActionCovered(input, i) <==> Settled(input, i)
  {
    hide Few, SoleStep, OneValue, Values, EvidenceIds, Id, Direct, Candidates;
    var action := input.actions[i];
    OneValueIff(input.evidence, action.parameter);
    FewReferences(input.evidence, action.parameter);
    DirectIff(input.sop.steps, action);
    StepsAgree(input, i);
    FewSteps(input.sop.steps, action.parameter);
  }

  lemma StepsAgree(input: Input, i: nat)
    requires i < |input.actions| && input.actions[i].Bindable()
    ensures (exists k: nat :: P.ReviewedStep(input, i, k))
            <==> Direct(input.sop.steps, input.actions[i]) || exists k :: ChosenStep(input, i, k)
    ensures (exists k :: ChosenStep(input, i, k)) ==> Candidates(input.sop.steps, input.actions[i].parameter) != []
  {
    hide Id;
    var parameter := input.actions[i].parameter;
    CandidatesAscend(input.sop.steps, parameter);
    var r := Candidates(input.sop.steps, parameter);
    if k: nat :| P.ReviewedStep(input, i, k) && !Direct(input.sop.steps, input.actions[i]) {
      assert ChosenStep(input, i, k);
    }
    if k :| ChosenStep(input, i, k) {
      assert P.ReviewedStep(input, i, k as nat) && (k as nat) in r;
    }
    if Direct(input.sop.steps, input.actions[i]) {
      assert r[0] in r && P.ReviewedStep(input, i, r[0]);
    }
  }

  /** Compilation is READY exactly if every captured action is settled, nothing else was offered, and all is within the limits. */
  lemma ReadyIff(input: Input)
    ensures (CompileResult(input).Success? && CompileResult(input).value.status.Ready?) <==>
              && 1 <= |P.CapturedIndexes(input.actions, |input.actions|)| <= BINDINGS && |input.resolutions| <= BINDINGS
              && (forall e | e in input.evidence :: exists i :: 0 <= i < |input.actions| && Names(input.actions[i], e.parameter))
              && (forall i, j | 0 <= i < j < |input.resolutions| :: input.resolutions[i].id != input.resolutions[j].id)
              && (forall i | 0 <= i < |input.actions| && input.actions[i].Bindable() :: Settled(input, i))
              && forall r | r in input.resolutions :: Open(input, r)
  {
    hide Settled, CompileResult, Id, Direct, P.CapturedIndexes, P.ActionCovered, SoleStep;
    P.ReadyIffCovered(input);
    forall i: nat | i < |input.actions| && input.actions[i].Bindable() ensures P.ActionCovered(input, i) <==> Settled(input, i) {
      SettledIsCovered(input, i);
    }
    forall r ensures P.Needed(input, r) <==> Open(input, r) {
      OpenIsNeeded(input, r);
    }
    EvidenceUsedIff(input);
  }

  /** The resolution is for a captured action that is not the procedure's sole step. */
  ghost predicate Open(input: Input, r: Resolution) {
    exists i :: 0 <= i < |input.actions| && input.actions[i].Bindable() && !SoleStep(input.sop.steps, input.actions[i]) && r.id == Id(i)
  }

  lemma OpenIsNeeded(input: Input, r: Resolution)
    ensures P.Needed(input, r) <==> Open(input, r)
  {
    hide Id, Direct, SoleStep;
    forall i | 0 <= i < |input.actions| && input.actions[i].Bindable()
      ensures Direct(input.sop.steps, input.actions[i]) <==> SoleStep(input.sop.steps, input.actions[i])
    {
      DirectIff(input.sop.steps, input.actions[i]);
    }
  }

  // ---------------------------------------------------------------- what a compilation holds

  /** The binding says what step `k` and the evidence say of the captured action. */
  ghost predicate Binds(input: Input, i: nat, b: Binding, k: int)
    requires i < |input.actions| && input.actions[i].Bindable()
  {
    && StepNames(input.sop.steps, k, input.actions[i].parameter)
    && b.parameter == input.actions[i].parameter && b.locator == input.sop.steps[k].locator
    && (b.kind.FillKind? <==> input.sop.steps[k].Fill?)
    && forall id :: id in b.evidenceIds <==> References(input.evidence, b.parameter, id)
  }

  lemma SelectionIff(input: Input, i: nat)
    requires i < |input.actions| && input.actions[i].Bindable() && DistinctIds(input.resolutions)
    requires Judge(input, i).ambiguity.Some? && Judge(input, i).ambiguity.value.resolvable
    ensures Judge(input, i).binding.Some? <==> exists k :: ChosenStep(input, i, k)
    ensures Judge(input, i).binding.Some? ==>
              var found := ResolutionOf(input.resolutions, Id(i));
              && found.Some? && ChosenStep(input, i, found.value.selected)
              && Judge(input, i).binding.value == Bind(input, input.actions[i].parameter, input.sop.steps[found.value.selected])
  {
    hide Values, EvidenceIds, Id, Direct, Captured, DistinctIds, Candidates;
    CandidatesAscend(input.sop.steps, input.actions[i].parameter);
    ChosenIff(input, i);
    if k :| ChosenStep(input, i, k) {
      assert ChosenStep(input, i, k as nat);
    }
  }

  lemma SoleIsBound(input: Input, i: nat)
    requires i < |input.actions| && input.actions[i].Bindable() && Judge(input, i).ambiguity.None?
    ensures var r := Candidates(input.sop.steps, input.actions[i].parameter);
            && r != [] && Judge(input, i).binding == Some(Bind(input, input.actions[i].parameter, input.sop.steps[r[0]]))
  {
    hide Values, EvidenceIds, Id, Captured;
  }

  lemma BlockedIsUnbound(input: Input, i: nat)
    requires i < |input.actions| && Judge(input, i).ambiguity.Some? && !Judge(input, i).ambiguity.value.resolvable
    ensures Judge(input, i).binding.None?
  {
    hide Values, EvidenceIds, Id, Captured, Direct;
  }

  lemma BindBinds(input: Input, i: nat, k: int)
    requires i < |input.actions| && input.actions[i].Bindable() && StepNames(input.sop.steps, k, input.actions[i].parameter)
    ensures Binds(input, i, Bind(input, input.actions[i].parameter, input.sop.steps[k]), k)
  {
    hide EvidenceIds;
    var parameter := input.actions[i].parameter;
    forall id ensures id in EvidenceIds(input.evidence, parameter) <==> References(input.evidence, parameter, id) {
      ReferencedIff(input.evidence, parameter, id);
    }
  }

  /** A captured action is bound exactly if nothing is in its way, or only a choice that was made. */
  lemma BoundIff(input: Input, i: nat)
    requires i < |input.actions| && input.actions[i].Bindable() && DistinctIds(input.resolutions)
    ensures var b := Judge(input, i).binding; var obstacle := Obstacle(input, i);
            && (b.Some? <==> obstacle.None? || (obstacle == Some(NeedsSelection) && exists k :: ChosenStep(input, i, k)))
            && (b.Some? ==> exists k :: Binds(input, i, b.value, k) && (obstacle.Some? ==> ChosenStep(input, i, k)))
  {
    hide Judge, Id, Obstacle, DistinctIds, Binds, Candidates, Bind;
    ReportsObstacle(input, i);
    var a := Judge(input, i).ambiguity;
    if a.None? {
      SoleIsBound(input, i);
      CandidatesAscend(input.sop.steps, input.actions[i].parameter);
      var k := Candidates(input.sop.steps, input.actions[i].parameter)[0];
      assert k in Candidates(input.sop.steps, input.actions[i].parameter);
      BindBinds(input, i, k);
    } else if a.value.resolvable {
      SelectionIff(input, i);
      if Judge(input, i).binding.Some? {
        BindBinds(input, i, ResolutionOf(input.resolutions, Id(i)).value.selected);
      }
    } else {
      BlockedIsUnbound(input, i);
    }
  }

  lemma ChosenIff(input: Input, i: nat)
    requires i < |input.actions| && input.actions[i].Bindable() && DistinctIds(input.resolutions)
    ensures var found := ResolutionOf(input.resolutions, Id(i));
            forall k: nat :: ChosenStep(input, i, k) <==>
              found == Some(Resolution(Id(i), k)) && k in Candidates(input.sop.steps, input.actions[i].parameter)
  {
    hide Id, DistinctIds;
    CandidatesAscend(input.sop.steps, input.actions[i].parameter);
    forall k: nat | Resolution(Id(i), k) in input.resolutions ensures ResolutionOf(input.resolutions, Id(i)) == Some(Resolution(Id(i), k)) {
      P.ResolutionUnique(input.resolutions, Resolution(Id(i), k));
    }
  }

  lemma {:induction false} BindingsFrom(input: Input, n: nat, b: Binding)
    requires n <= |input.actions|
    ensures b in Bindings(input, n) <==> exists i | 0 <= i < n :: Judge(input, i).binding == Some(b)
  {
    hide Judge;
    if 0 < n {
      BindingsFrom(input, n - 1, b);
      var last := Judge(input, n - 1).binding;
      assert last == Some(b) || last != Some(b);
    }
  }

  predicate ParametersDiffer(bindings: seq<Binding>) {
    forall j, k | 0 <= j < k < |bindings| :: bindings[j].parameter != bindings[k].parameter
  }

  /** No parameter is bound twice: an action for a parameter captured before is never bound. */
  lemma {:induction false} BindingsDiffer(input: Input, n: nat)
    requires n <= |input.actions|
    ensures ParametersDiffer(Bindings(input, n))
  {
    hide Judge;
    if 0 < n {
      BindingsDiffer(input, n - 1);
      var last := Judge(input, n - 1).binding;
      if last.Some? {
        forall b | b in Bindings(input, n - 1) ensures b.parameter != last.value.parameter {
          BindingsFrom(input, n - 1, b);
          var i :| 0 <= i < n - 1 && Judge(input, i).binding == Some(b);
          BoundApart(input, i, n - 1);
        }
        SnocDiffers(Bindings(input, n - 1), last.value);
      }
    }
  }

  lemma SnocDiffers(before: seq<Binding>, b: Binding)
    requires ParametersDiffer(before)
    requires forall x | x in before :: x.parameter != b.parameter
    ensures ParametersDiffer(before + [b])
  {
    assert forall j | 0 <= j < |before| :: before[j] in before;
  }

  lemma BoundApart(input: Input, i: nat, j: nat)
    requires i < j < |input.actions| && Judge(input, i).binding.Some? && Judge(input, j).binding.Some?
    ensures Judge(input, i).binding.value.parameter != Judge(input, j).binding.value.parameter
  {
    hide Values, EvidenceIds, Id, Direct, Candidates;
    P.BindingNamesParameter(input, i);
    P.BindingNamesParameter(input, j);
    P.CapturedBefore(input, j);
  }

  /** Within what a specification can hold: few references and candidates each, and few entries in all. */
  ghost predicate Fits(input: Input) {
    && |input.resolutions| <= BINDINGS
    && |Bindings(input, |input.actions|)| <= BINDINGS && |Ambiguities(input, |input.actions|)| <= BINDINGS
    && forall i | 0 <= i < |input.actions| :: var j := Judge(input, i);
         && (j.ambiguity.Some? ==> 1 <= |j.ambiguity.value.candidates| <= REFERENCES && |j.ambiguity.value.evidenceIds| <= REFERENCES)
         && (j.binding.Some? ==> 1 <= |j.binding.value.evidenceIds| <= REFERENCES)
  }

  /** The resolution answers an open choice with one of its steps. */
  ghost predicate Answers(input: Input, r: Resolution) {
    exists i :: && 0 <= i < |input.actions| && input.actions[i].Bindable() && r.id == Id(i)
                && Obstacle(input, i) == Some(NeedsSelection) && StepNames(input.sop.steps, r.selected, input.actions[i].parameter)
  }

  lemma AnswersIff(input: Input, r: Resolution)
    ensures ValidResolution(Ambiguities(input, |input.actions|), r) <==> Answers(input, r)
  {
    hide Judge, Id, Direct, Ambiguities, AmbiguityOf, Obstacle, Candidates;
    var all := Ambiguities(input, |input.actions|);
    if ValidResolution(all, r) {
      var a := AmbiguityOf(all, r.id).value;
      P.AmbiguitiesFrom(input, |input.actions|, a);
      var i :| 0 <= i < |input.actions| && Judge(input, i).ambiguity == Some(a);
      P.ResolvableIsOpen(input, i);
      ReportsObstacle(input, i);
      CandidatesAscend(input.sop.steps, input.actions[i].parameter);
      assert Answers(input, r);
    }
    if Answers(input, r) {
      var i :| 0 <= i < |input.actions| && input.actions[i].Bindable() && r.id == Id(i)
               && Obstacle(input, i) == Some(NeedsSelection) && StepNames(input.sop.steps, r.selected, input.actions[i].parameter);
      ReportsObstacle(input, i);
      P.AmbiguityFound(input, i);
      P.ResolvableIsOpen(input, i);
      CandidatesAscend(input.sop.steps, input.actions[i].parameter);
    }
  }

  lemma FitsIff(input: Input)
    ensures Fits(input) <==>
              && (forall i | 0 <= i < |input.actions| :: Judge(input, i).Accepted())
              && |input.resolutions| <= BINDINGS
              && |Bindings(input, |input.actions|)| <= BINDINGS && |Ambiguities(input, |input.actions|)| <= BINDINGS
  {
    hide Judge;
    assert forall i | 0 <= i < |input.actions| :: var j := Judge(input, i);
      j.Accepted() <==>
        && (j.ambiguity.Some? ==> 1 <= |j.ambiguity.value.candidates| <= REFERENCES && |j.ambiguity.value.evidenceIds| <= REFERENCES)
        && (j.binding.Some? ==> 1 <= |j.binding.value.evidenceIds| <= REFERENCES);
  }

  lemma CompiledIsValidIff(input: Input)
    requires DistinctIds(input.resolutions)
    ensures ValidSpecification(Compiled(input)) <==>
              && |input.resolutions| <= BINDINGS
              && |Bindings(input, |input.actions|)| <= BINDINGS && |Ambiguities(input, |input.actions|)| <= BINDINGS
              && forall r | r in input.resolutions :: ValidResolution(Ambiguities(input, |input.actions|), r)
  {
    hide DistinctIds, ValidResolution, Ambiguities, Bindings, Resolved;
    BindingsDiffer(input, |input.actions|);
  }

  /**
   Compilation succeeds exactly if all evidence is for captured parameters, every resolution is the only answer to
   some open choice, and all fits; an obstacle is no failure. It holds every binding and every ambiguity, and is
   READY exactly with some binding and an answer to every ambiguity.
   */
  lemma CompiledIff(input: Input)
    ensures var r := CompileResult(input);
            && (r.Success? <==>
                && (forall e | e in input.evidence :: exists i :: 0 <= i < |input.actions| && Names(input.actions[i], e.parameter))
                && (forall i, j | 0 <= i < j < |input.resolutions| :: input.resolutions[i].id != input.resolutions[j].id)
                && Fits(input) && forall x | x in input.resolutions :: Answers(input, x))
            && (r.Success? ==>
                  && (forall b :: b in r.value.parameters <==> exists i | 0 <= i < |input.actions| :: Judge(input, i).binding == Some(b))
                  && (forall a :: a in r.value.ambiguities <==> exists i | 0 <= i < |input.actions| :: Judge(input, i).ambiguity == Some(a))
                  && r.value.resolutions == input.resolutions && r.value.certifiedBy.None? && !r.value.status.Certified?
                  && (r.value.status.Ready? <==>
                        && r.value.parameters != []
                        && forall a | a in r.value.ambiguities :: a.resolvable && exists x :: x in input.resolutions && x.id == a.id))
  {
    hide Judge, Id, Answers, Ambiguities, Bindings, ValidResolution, ValidSpecification, Fits, EvidenceUsed;
    FitsIff(input);
    if DistinctIds(input.resolutions) {
      CompiledIsValidIff(input);
    }
    forall x ensures ValidResolution(Ambiguities(input, |input.actions|), x) <==> Answers(input, x) {
      AnswersIff(input, x);
    }
    forall b ensures b in Bindings(input, |input.actions|) <==> exists i | 0 <= i < |input.actions| :: Judge(input, i).binding == Some(b) {
      BindingsFrom(input, |input.actions|, b);
    }
    forall a ensures a in Ambiguities(input, |input.actions|) <==> exists i | 0 <= i < |input.actions| :: Judge(input, i).ambiguity == Some(a) {
      P.AmbiguitiesFrom(input, |input.actions|, a);
    }
    EvidenceUsedIff(input);
  }

  lemma EvidenceUsedIff(input: Input)
    ensures EvidenceUsed(input)
            <==> forall e | e in input.evidence :: exists i :: 0 <= i < |input.actions| && Names(input.actions[i], e.parameter)
  {
    forall e | e in input.evidence
      ensures e.parameter in Captured(input.actions) <==> exists i :: 0 <= i < |input.actions| && Names(input.actions[i], e.parameter)
    {
    }
  }

  // ---------------------------------------------------------------- the recipe

  /** Nothing of a locator is lost on its way into the recipe; one by role is looked for as a text box. */
  lemma LocatorsKept(a: Locator, b: Locator)
    ensures ToBrowserLocator(a) == ToBrowserLocator(b) ==> a == b
    ensures a.kind == "role" ==> ToBrowserLocator(a) == RoleLocator("textbox", a.value, a.exact)
    ensures a.kind != "role" ==> ToBrowserLocator(a) == ValueLocator(a.kind, a.value, a.exact)
  {}

  /** A specification builds exactly if it is ready and answered, binds something, and only fills, under an acceptable path. */
  lemma BuiltIff(s: Specification, options: Options)
    ensures Recipe(s, options).Success? <==>
              && (s.status.Ready? || s.status.Certified?) && s.parameters != []
              && (forall a | a in s.ambiguities :: exists x :: x in s.resolutions && x.id == a.id)
              && NavigationPath.Acceptable(options.navigationPath)
              && forall b | b in s.parameters :: b.kind.FillKind?
  {
    hide NavigationPath.Acceptable;
    ParametersAreOrdered();
    Sorting.SortMembers(ByParameter(), s.parameters);
    var sorted := Sorting.Sort(ByParameter(), s.parameters);
    if b :| b in s.parameters && !b.kind.FillKind? {
      assert b in sorted;
      var i :| 0 <= i < |sorted| && sorted[i] == b;
    }
    assert forall i | 0 <= i < |sorted| :: sorted[i] in sorted;
  }

  lemma ParametersAreOrdered()
    ensures Sorting.Preorder(ByParameter())
  {
    forall a: Binding, b: Binding ensures ByParameter()(a, b) || ByParameter()(b, a) {
      Text.Total(a.parameter, b.parameter);
    }
    forall a: Binding, b: Binding, c: Binding | ByParameter()(a, b) && ByParameter()(b, c) ensures ByParameter()(a, c) {
      Text.Transitive(a.parameter, b.parameter, c.parameter);
    }
  }

  /** A ready specification is certified exactly by a reviewer with a name; nothing but that changes. */
  lemma CertifiedIff(s: Specification, reviewer: string)
    requires ValidSpecification(s)
    ensures var r := Certify(s, reviewer);
            && (r.Success? <==>
                && (s.status.Ready? || s.status.Certified?)
                && 1 <= |reviewer| <= 512 && Text.Trimmed(reviewer))
            && (r.Success? ==> r.value == Specification(s.parameters, s.ambiguities, s.resolutions, Certified, Some(reviewer)))
  {}
}

/** What a ready specification, and the recipe built from it, mean for the captured demonstration. */
module AdapterFactoryProperties {
  import opened Wrappers
  import NavigationPath
  import Sorting
  import Text
  import opened AdapterFactory

  // ---------------------------------------------------------------- ambiguity identifiers

  lemma {:induction false} DecimalInjective(m: nat, n: nat)
    requires Decimal(m) == Decimal(n)
    ensures m == n
  {
    LastDigit(m);
    LastDigit(n);
    if 10 <= m && 10 <= n {
      assert Decimal(m)[..|Decimal(m)| - 1] == Decimal(m / 10);
      assert Decimal(n)[..|Decimal(n)| - 1] == Decimal(n / 10);
      DecimalInjective(m / 10, n / 10);
    }
  }

  lemma LastDigit(n: nat)
    ensures |Decimal(n)| >= 1 && (|Decimal(n)| == 1 <==> n < 10)
    ensures Decimal(n)[|Decimal(n)| - 1] == "0123456789"[n % 10]
    ensures forall d: nat | d < 10 && "0123456789"[d] == "0123456789"[n % 10] :: d == n % 10
  {
  }

  lemma IdInjective(i: nat, j: nat)
    requires Id(i) == Id(j)
    ensures i == j
  {
    assert Id(i)[2..] == Decimal(i + 1) && Id(j)[2..] == Decimal(j + 1);
    DecimalInjective(i + 1, j + 1);
  }

  // ---------------------------------------------------------------- coverage, stated on the input

  /** The positions of the fill and select actions among the first `n`. */
  function CapturedIndexes(actions: seq<Action>, n: nat): (r: seq<nat>)
    requires n <= |actions|
    ensures |r| <= n
    ensures forall k | 0 <= k < |r| :: r[k] < n && actions[r[k]].Bindable()
    ensures forall j, k | 0 <= j < k < |r| :: r[j] < r[k]
    ensures forall i: nat | i < n && actions[i].Bindable() :: i in r
  {
    if n == 0 then []
    else if actions[n - 1].Bindable() then CapturedIndexes(actions, n - 1) + [n - 1]
    else CapturedIndexes(actions, n - 1)
  }

  /** The reviewed step a captured action is bound to: the only, identical one, or the one a reviewer selected. */
  predicate ReviewedStep(input: Input, i: nat, k: nat)
    requires i < |input.actions| && input.actions[i].Bindable()
  {
    && k < |input.sop.steps| && input.sop.steps[k].For(input.actions[i].parameter)
    && (Direct(input.sop.steps, input.actions[i]) || Resolution(Id(i), k) in input.resolutions)
  }

  ghost predicate ActionCovered(input: Input, i: nat)
    requires i < |input.actions| && input.actions[i].Bindable()
  {
    var parameter := input.actions[i].parameter;
    && (forall j | 0 <= j < i && input.actions[j].Bindable() :: input.actions[j].parameter != parameter)
    && parameter in input.sop.supported
    && |Values(input.evidence, parameter)| == 1
    && 1 <= |EvidenceIds(input.evidence, parameter)| <= MAX_REFERENCES
    && (exists k :: ReviewedStep(input, i, k))
    && (Direct(input.sop.steps, input.actions[i]) || |Candidates(input.sop.steps, parameter)| <= MAX_REFERENCES)
  }

  /** The resolution answers an action the procedure leaves open. */
  ghost predicate Needed(input: Input, r: Resolution) {
    exists i | 0 <= i < |input.actions| && input.actions[i].Bindable() ::
      !Direct(input.sop.steps, input.actions[i]) && r.id == Id(i)
  }

  ghost predicate Covered(input: Input) {
    var captured := CapturedIndexes(input.actions, |input.actions|);
    && 1 <= |captured| <= MAX_BINDINGS && |input.resolutions| <= MAX_BINDINGS
    && EvidenceUsed(input) && DistinctIds(input.resolutions)
    && (forall i | 0 <= i < |input.actions| && input.actions[i].Bindable() :: ActionCovered(input, i))
    && forall r | r in input.resolutions :: Needed(input, r)
  }

  // ---------------------------------------------------------------- one action

  lemma ResolutionUnique(resolutions: seq<Resolution>, r: Resolution)
    requires DistinctIds(resolutions) && r in resolutions
    ensures ResolutionOf(resolutions, r.id) == Some(r)
  {
    var found := ResolutionOf(resolutions, r.id).value;
    var i :| 0 <= i < |resolutions| && resolutions[i] == r;
    var j :| 0 <= j < |resolutions| && resolutions[j] == found;
    assert i == j;
  }

  lemma CapturedBefore(input: Input, i: nat)
    requires i < |input.actions| && input.actions[i].Bindable()
    ensures input.actions[i].parameter in Captured(input.actions[..i]) <==>
            exists j | 0 <= j < i :: input.actions[j].Bindable() && input.actions[j].parameter == input.actions[i].parameter
  {
    var before := input.actions[..i];
    assert forall j | 0 <= j < i :: before[j] == input.actions[j];
  }

  lemma SingleStepIsReviewed(input: Input, i: nat)
    requires i < |input.actions| && input.actions[i].Bindable() && Direct(input.sop.steps, input.actions[i])
    ensures forall k: nat :: ReviewedStep(input, i, k) <==> k == Candidates(input.sop.steps, input.actions[i].parameter)[0]
  {
    var candidates := Candidates(input.sop.steps, input.actions[i].parameter);
    assert forall k: nat | k in candidates :: k == candidates[0];
  }

  /** Some reviewed step is there exactly when the compiler finds the one it binds to. */
  lemma OpenStepIsSelected(input: Input, i: nat)
    requires i < |input.actions| && input.actions[i].Bindable() && DistinctIds(input.resolutions)
    requires !Direct(input.sop.steps, input.actions[i])
    ensures var found := ResolutionOf(input.resolutions, Id(i));
            (exists k :: ReviewedStep(input, i, k)) <==>
              found.Some? && found.value.selected in Candidates(input.sop.steps, input.actions[i].parameter)
  {
    hide DistinctIds, Id, Direct;
    var found := ResolutionOf(input.resolutions, Id(i));
    if k :| ReviewedStep(input, i, k) {
      ResolutionUnique(input.resolutions, Resolution(Id(i), k));
    }
    if found.Some? && found.value.selected in Candidates(input.sop.steps, input.actions[i].parameter) {
      assert ReviewedStep(input, i, found.value.selected);
    }
  }

  /** An action is covered exactly when it contributes a binding and no blocker. */
  lemma JudgedCovered(input: Input, i: nat)
    requires i < |input.actions| && input.actions[i].Bindable() && DistinctIds(input.resolutions)
    ensures var j := Judge(input, i);
            ActionCovered(input, i) <==>
              j.Accepted() && j.binding.Some? && (j.ambiguity.Some? ==> j.ambiguity.value.resolvable)
  {
    hide DistinctIds, Values, EvidenceIds, Id, ReviewedStep;
    CapturedBefore(input, i);
    var steps, parameter := input.sop.steps, input.actions[i].parameter;
    var candidates := Candidates(steps, parameter);
    if Direct(steps, input.actions[i]) {
      SingleStepIsReviewed(input, i);
      assert ReviewedStep(input, i, candidates[0]);
    } else {
      OpenStepIsSelected(input, i);
    }
    SomeStepMeansCandidates(input, i);
    assert Values(input.evidence, parameter) == {} <==> |Values(input.evidence, parameter)| == 0;
  }

  lemma SomeStepMeansCandidates(input: Input, i: nat)
    requires i < |input.actions| && input.actions[i].Bindable()
    ensures (exists k :: ReviewedStep(input, i, k)) ==> Candidates(input.sop.steps, input.actions[i].parameter) != []
  {
  }

  // ---------------------------------------------------------------- all actions

  lemma {:induction false} AmbiguitiesFrom(input: Input, n: nat, a: Ambiguity)
    requires n <= |input.actions|
    ensures a in Ambiguities(input, n) <==> exists i | 0 <= i < n :: Judge(input, i).ambiguity == Some(a)
    ensures |Ambiguities(input, n)| <= |CapturedIndexes(input.actions, n)|
  {
    hide Judge;
    if 0 < n {
      AmbiguitiesFrom(input, n - 1, a);
      if !input.actions[n - 1].Bindable() {
        JudgeOther(input, n - 1);
      }
      var last := Judge(input, n - 1).ambiguity;
      assert last == Some(a) || last != Some(a);
    }
  }

  /** Each compiled binding is its captured action's, in the order of capture. */
  lemma {:induction false} BindingsAlign(input: Input, n: nat)
    requires n <= |input.actions|
    requires forall i | 0 <= i < n && input.actions[i].Bindable() :: Judge(input, i).binding.Some?
    ensures var captured := CapturedIndexes(input.actions, n);
            && |Bindings(input, n)| == |captured|
            && forall k | 0 <= k < |captured| :: Judge(input, captured[k]).binding == Some(Bindings(input, n)[k])
  {
    hide Judge;
    if 0 < n {
      BindingsAlign(input, n - 1);
      if !input.actions[n - 1].Bindable() {
        JudgeOther(input, n - 1);
      }
    }
  }

  lemma AmbiguityFound(input: Input, i: nat)
    requires i < |input.actions| && Judge(input, i).ambiguity.Some?
    ensures AmbiguityOf(Ambiguities(input, |input.actions|), Id(i)) == Judge(input, i).ambiguity
  {
    hide Judge, Id, Direct, Ambiguities, AmbiguityOf, Candidates;
    var n := |input.actions|;
    AmbiguitiesFrom(input, n, Judge(input, i).ambiguity.value);
    ResolvableIsOpen(input, i);
    var found := AmbiguityOf(Ambiguities(input, n), Id(i)).value;
    AmbiguitiesFrom(input, n, found);
    var j :| 0 <= j < n && Judge(input, j).ambiguity == Some(found);
    ResolvableIsOpen(input, j);
    IdInjective(i, j);
  }

  // ---------------------------------------------------------------- ready means covered

  lemma ReadyIsCovered(input: Input)
    requires CompileResult(input).Success? && CompileResult(input).value.status.Ready?
    ensures Covered(input)
  {
    hide Judge, Id, Direct, EvidenceUsed;
    var n := |input.actions|;
    var ambiguities := Ambiguities(input, n);
    forall i | 0 <= i < n && input.actions[i].Bindable() ensures ActionCovered(input, i) && Judge(input, i).binding.Some? {
      ReadyActionIsBound(input, i);
      JudgedCovered(input, i);
    }
    BindingsAlign(input, n);
    forall r | r in input.resolutions ensures Needed(input, r) {
      assert ValidResolution(ambiguities, r);
      var a := AmbiguityOf(ambiguities, r.id).value;
      AmbiguitiesFrom(input, n, a);
      var i :| 0 <= i < n && Judge(input, i).ambiguity == Some(a);
      ResolvableIsOpen(input, i);
    }
  }

  lemma ResolvableIsOpen(input: Input, i: nat)
    requires i < |input.actions| && Judge(input, i).ambiguity.Some?
    ensures Judge(input, i).ambiguity.value.id == Id(i) && input.actions[i].Bindable()
    ensures Judge(input, i).ambiguity.value.resolvable ==>
              !Direct(input.sop.steps, input.actions[i])
              && Judge(input, i).ambiguity.value.candidates == Candidates(input.sop.steps, input.actions[i].parameter)
              && (Judge(input, i).binding.Some? <==>
                  ResolutionOf(input.resolutions, Id(i)).Some?
                  && ResolutionOf(input.resolutions, Id(i)).value.selected in Candidates(input.sop.steps, input.actions[i].parameter))
  {
  }

  lemma UnambiguousIsBound(input: Input, i: nat)
    requires i < |input.actions| && input.actions[i].Bindable() && Judge(input, i).ambiguity.None?
    ensures Judge(input, i).binding.Some?
  {
  }

  lemma ReadyActionIsBound(input: Input, i: nat)
    requires CompileResult(input).Success? && CompileResult(input).value.status.Ready?
    requires i < |input.actions| && input.actions[i].Bindable()
    ensures var j := Judge(input, i); j.Accepted() && j.binding.Some? && (j.ambiguity.Some? ==> j.ambiguity.value.resolvable)
  {
    hide Judge, Id, Direct, EvidenceUsed;
    var ambiguities := Ambiguities(input, |input.actions|);
    var a := Judge(input, i).ambiguity;
    if a.Some? {
      AmbiguitiesFrom(input, |input.actions|, a.value);
      ResolvableIsOpen(input, i);
      AmbiguityFound(input, i);
      assert a.value in ambiguities && Resolved(ambiguities, input.resolutions);
      var r := ResolutionOf(input.resolutions, Id(i)).value;
      assert ValidResolution(ambiguities, r);
    } else {
      UnambiguousIsBound(input, i);
    }
  }

  lemma CoveredIsReady(input: Input)
    requires Covered(input)
    ensures CompileResult(input) == Success(Compiled(input)) && Compiled(input).status.Ready?
  {
    hide Judge, Id, Direct, EvidenceUsed, ActionCovered, DistinctIds, ValidResolution, Ambiguities, Bindings, CapturedIndexes;
    CoveredIsAccepted(input);
    var n := |input.actions|;
    var ambiguities, bindings := Ambiguities(input, n), Bindings(input, n);
    BindingsAlign(input, n);
    assert |ambiguities| <= MAX_BINDINGS by {
      if ambiguities != [] { AmbiguitiesFrom(input, n, ambiguities[0]); }
    }
    assert Resolved(ambiguities, input.resolutions) by { CoveredIsResolved(input); }
    forall j, k | 0 <= j < k < |bindings| ensures bindings[j].parameter != bindings[k].parameter {
      CoveredParametersDiffer(input, j, k);
    }
    forall r | r in input.resolutions ensures ValidResolution(ambiguities, r) {
      NeededIsValid(input, r);
    }
  }

  lemma CoveredIsAccepted(input: Input)
    requires Covered(input)
    ensures forall i | 0 <= i < |input.actions| ::
              var j := Judge(input, i);
              && j.Accepted() && (j.ambiguity.Some? ==> j.ambiguity.value.resolvable)
              && (input.actions[i].Bindable() ==> j.binding.Some?)
  {
    hide Judge, Direct, EvidenceUsed, ActionCovered, DistinctIds, CapturedIndexes;
    forall i | 0 <= i < |input.actions|
      ensures var j := Judge(input, i);
              && j.Accepted() && (j.ambiguity.Some? ==> j.ambiguity.value.resolvable)
              && (input.actions[i].Bindable() ==> j.binding.Some?)
    {
      if input.actions[i].Bindable() {
        JudgedCovered(input, i);
      } else {
        JudgeOther(input, i);
      }
    }
  }

  lemma CoveredIsResolved(input: Input)
    requires Covered(input)
    ensures Resolved(Ambiguities(input, |input.actions|), input.resolutions)
  {
    hide Judge, Id, Direct, EvidenceUsed, ActionCovered, DistinctIds, CapturedIndexes, Ambiguities;
    CoveredIsAccepted(input);
    forall a | a in Ambiguities(input, |input.actions|) ensures a.resolvable && ResolutionOf(input.resolutions, a.id).Some? {
      AmbiguitiesFrom(input, |input.actions|, a);
      var i :| 0 <= i < |input.actions| && Judge(input, i).ambiguity == Some(a);
      ResolvableIsOpen(input, i);
    }
  }

  lemma BindingNamesParameter(input: Input, i: nat)
    requires i < |input.actions| && Judge(input, i).binding.Some?
    ensures input.actions[i].Bindable() && Judge(input, i).binding.value.parameter == input.actions[i].parameter
  {
  }

  lemma CoveredParametersDiffer(input: Input, j: nat, k: nat)
    requires forall i | 0 <= i < |input.actions| && input.actions[i].Bindable() :: Judge(input, i).binding.Some?
    requires forall i | 0 <= i < |input.actions| && input.actions[i].Bindable() :: ActionCovered(input, i)
    requires j < k < |Bindings(input, |input.actions|)|
    ensures Bindings(input, |input.actions|)[j].parameter != Bindings(input, |input.actions|)[k].parameter
  {
    hide Judge, Direct, Id;
    BindingsAlign(input, |input.actions|);
    var captured := CapturedIndexes(input.actions, |input.actions|);
    BindingNamesParameter(input, captured[j]);
    BindingNamesParameter(input, captured[k]);
    assert ActionCovered(input, captured[k]) && captured[j] < captured[k];
  }

  lemma NeededIsValid(input: Input, r: Resolution)
    requires Covered(input) && r in input.resolutions
    ensures ValidResolution(Ambiguities(input, |input.actions|), r)
  {
    hide Judge, Id, Direct, EvidenceUsed, DistinctIds;
    assert Needed(input, r);
    var i :| 0 <= i < |input.actions| && input.actions[i].Bindable() && !Direct(input.sop.steps, input.actions[i]) && r.id == Id(i);
    assert ActionCovered(input, i);
    JudgedCovered(input, i);
    OpenHasAmbiguity(input, i);
    AmbiguityFound(input, i);
    ResolvableIsOpen(input, i);
    ResolutionUnique(input.resolutions, r);
  }

  lemma OpenHasAmbiguity(input: Input, i: nat)
    requires i < |input.actions| && input.actions[i].Bindable() && !Direct(input.sop.steps, input.actions[i])
    ensures Judge(input, i).ambiguity.Some?
  {
  }

  /** Compilation is ready exactly when every captured parameter is covered and nothing is left over. */
  lemma ReadyIffCovered(input: Input)
    ensures (CompileResult(input).Success? && CompileResult(input).value.status.Ready?) <==> Covered(input)
  {
    hide Covered, CompileResult;
    if CompileResult(input).Success? && CompileResult(input).value.status.Ready? {
      ReadyIsCovered(input);
    }
    if Covered(input) {
      CoveredIsReady(input);
    }
  }

  /** The binding is what reviewed step `k` and the evidence say about captured action `i`. */
  predicate BoundTo(input: Input, b: Binding, i: nat, k: nat)
    requires i < |input.actions| && input.actions[i].Bindable()
  {
    && ReviewedStep(input, i, k)
    && b.parameter == input.actions[i].parameter
    && b.kind == input.sop.steps[k].Kind() && b.locator == input.sop.steps[k].locator
    && b.evidenceIds == EvidenceIds(input.evidence, b.parameter) && |Values(input.evidence, b.parameter)| == 1
  }

  ghost predicate Reviewed(input: Input, b: Binding, i: nat)
    requires i < |input.actions| && input.actions[i].Bindable()
  {
    exists k :: BoundTo(input, b, i, k)
  }

  /**
   A ready specification binds the captured actions one to one and in order, each to a reviewed step
   for the same parameter and to evidence that agrees on one value.
   */
  lemma ReadyBindsEveryCapture(input: Input)
    requires CompileResult(input).Success? && CompileResult(input).value.status.Ready?
    ensures var captured, bindings := CapturedIndexes(input.actions, |input.actions|), CompileResult(input).value.parameters;
            && |bindings| == |captured|
            && forall n | 0 <= n < |captured| :: Reviewed(input, bindings[n], captured[n])
    ensures var bindings := CompileResult(input).value.parameters;
            forall j, k | 0 <= j < k < |bindings| :: bindings[j].parameter != bindings[k].parameter
  {
    hide Judge, Id, Direct, Covered, Bindings, Reviewed;
    ReadyIffCovered(input);
    CoveredIsAccepted(input);
    BindingsAlign(input, |input.actions|);
    CompiledIsValid(input);
    var captured, bindings := CapturedIndexes(input.actions, |input.actions|), CompileResult(input).value.parameters;
    assert bindings == Bindings(input, |input.actions|);
    forall n | 0 <= n < |captured| ensures Reviewed(input, bindings[n], captured[n]) {
      BindingIsReviewed(input, captured[n]);
      assert Judge(input, captured[n]).binding.value == bindings[n];
    }
  }

  lemma BindingIsReviewed(input: Input, i: nat)
    requires i < |input.actions| && input.actions[i].Bindable() && Judge(input, i).binding.Some?
    ensures Reviewed(input, Judge(input, i).binding.value, i)
  {
    hide Id, Values, EvidenceIds, Captured;
    var candidates := Candidates(input.sop.steps, input.actions[i].parameter);
    assert Values(input.evidence, input.actions[i].parameter) == {} <==> |Values(input.evidence, input.actions[i].parameter)| == 0;
    if Direct(input.sop.steps, input.actions[i]) {
      assert BoundTo(input, Judge(input, i).binding.value, i, candidates[0]);
    } else {
      assert BoundTo(input, Judge(input, i).binding.value, i, ResolutionOf(input.resolutions, Id(i)).value.selected);
    }
  }

  /** A resolution that selects no candidate is refused outright; it never yields an ambiguous specification. */
  lemma UnknownSelectionIsRefused(input: Input, r: Resolution, i: nat)
    requires EvidenceUsed(input) && DistinctIds(input.resolutions) && r in input.resolutions
    requires i < |input.actions| && Judge(input, i).ambiguity.Some? && r.id == Id(i)
    requires r.selected !in Judge(input, i).ambiguity.value.candidates
    ensures CompileResult(input) == Failure(ModelInvalid)
  {
    hide Judge, Id, EvidenceUsed, DistinctIds;
    AmbiguityFound(input, i);
    assert !ValidResolution(Ambiguities(input, |input.actions|), r);
  }

  // ---------------------------------------------------------------- the recipe

  lemma ByParameterIsOrder(bindings: seq<Binding>)
    requires forall i, j | 0 <= i < j < |bindings| :: bindings[i].parameter != bindings[j].parameter
    ensures Sorting.Preorder(ByParameter()) && Sorting.Untied(ByParameter(), bindings)
  {
    forall a: Binding, b: Binding ensures ByParameter()(a, b) || ByParameter()(b, a) {
      Text.Total(a.parameter, b.parameter);
    }
    forall a: Binding, b: Binding, c: Binding | ByParameter()(a, b) && ByParameter()(b, c) ensures ByParameter()(a, c) {
      Text.Transitive(a.parameter, b.parameter, c.parameter);
    }
    forall a, b | a in bindings && b in bindings && ByParameter()(a, b) && ByParameter()(b, a) ensures a == b {
      Text.Antisymmetric(a.parameter, b.parameter);
    }
  }

  /**
   A ready specification builds exactly when the navigation path is one the recipe accepts and all its
   bindings are fills. A refused path is reported first, before any binding is looked at.
   */
  lemma BuildsIffPathAndFills(s: Specification, options: Options)
    requires ValidSpecification(s) && s.IsReady()
    ensures Recipe(s, options).Success? <==>
              NavigationPath.Acceptable(options.navigationPath) && forall b | b in s.parameters :: b.kind.FillKind?
    ensures Recipe(s, options).Failure? ==>
              Recipe(s, options).error ==
              if !NavigationPath.Acceptable(options.navigationPath) then NavigationInvalid else UnsupportedAction
  {
    hide NavigationPath.Acceptable;
    ByParameterIsOrder(s.parameters);
    Sorting.SortMembers(ByParameter(), s.parameters);
    BuilderAccepts(s);
    var sorted := Sorting.Sort(ByParameter(), s.parameters);
    if b :| b in s.parameters && !b.kind.FillKind? {
      assert b in sorted;
      var i :| 0 <= i < |sorted| && sorted[i] == b;
    }
  }

  /** The options accept `tracking` as a navigation path, and then no specification builds. */
  lemma BarePathNeverBuilds(s: Specification, options: Options)
    requires ValidSpecification(s) && s.IsReady()
    ensures var bare := options.(navigationPath := "tracking");
            ValidOptions(bare) && Recipe(s, bare) == Failure(NavigationInvalid)
  {
    NavigationPath.PathExamples();
    BuildsIffPathAndFills(s, options.(navigationPath := "tracking"));
  }

  /** One navigate, one fill per binding in ascending order of parameter, one extract. */
  lemma RecipeShape(s: Specification, options: Options)
    requires ValidSpecification(s) && Recipe(s, options).Success?
    ensures var r := Recipe(s, options).value;
            exists sorted: seq<Binding> ::
              && multiset(sorted) == multiset(s.parameters) && |sorted| == |s.parameters|
              && r == [Navigate(options.navigationPath)] + Fills(sorted) + [ExtractText(options.resultLocator, options.outputKey)]
              && forall i, j | 0 <= i < j < |sorted| ::
                   Text.Leq(sorted[i].parameter, sorted[j].parameter) && sorted[i].parameter != sorted[j].parameter
  {
    ByParameterIsOrder(s.parameters);
    var sorted := Sorting.Sort(ByParameter(), s.parameters);
    Sorting.SortSpec(ByParameter(), s.parameters);
    Sorting.SortMembers(ByParameter(), s.parameters);
    forall i, j | 0 <= i < j < |sorted|
      ensures Text.Leq(sorted[i].parameter, sorted[j].parameter) && sorted[i].parameter != sorted[j].parameter
    {
      assert ByParameter()(sorted[i], sorted[j]);
      PermutedStaysDistinct(s.parameters, sorted, i, j);
    }
  }

  lemma PermutedStaysDistinct(bindings: seq<Binding>, sorted: seq<Binding>, i: nat, j: nat)
    requires multiset(bindings) == multiset(sorted) && i < j < |sorted|
    requires forall i, j | 0 <= i < j < |bindings| :: bindings[i].parameter != bindings[j].parameter
    ensures sorted[i].parameter != sorted[j].parameter
  {
    var a, b := sorted[i], sorted[j];
    assert a in multiset(bindings) && b in multiset(bindings);
    if a == b {
      Sorting.TwiceInMultiset(sorted, i, j);
      OnceInMultiset(bindings, a);
      assert false;
    } else {
      var m :| 0 <= m < |bindings| && bindings[m] == a;
      var n :| 0 <= n < |bindings| && bindings[n] == b;
      assert m < n || n < m;
    }
  }

  lemma {:induction false} OnceInMultiset(s: seq<Binding>, x: Binding)
    requires forall i, j | 0 <= i < j < |s| :: s[i].parameter != s[j].parameter
    ensures multiset(s)[x] <= 1
  {
    if s != [] {
      var n := |s| - 1;
      assert s == s[..n] + [s[n]];
      OnceInMultiset(s[..n], x);
      assert forall i | 0 <= i < n :: s[..n][i].parameter != s[n].parameter;
    }
  }

  /** The order of capture, and certification, leave no trace in the recipe. */
  lemma RecipeIgnoresBindingOrder(s: Specification, t: Specification, options: Options)
    requires ValidSpecification(s) && s.IsReady() && ValidSpecification(t) && t.IsReady()
    requires multiset(s.parameters) == multiset(t.parameters)
    ensures Recipe(s, options) == Recipe(t, options)
  {
    ByParameterIsOrder(s.parameters);
    Sorting.SortOfPermutation(ByParameter(), s.parameters, t.parameters);
    BuilderAccepts(s);
    BuilderAccepts(t);
  }

  lemma BuilderAccepts(s: Specification)
    requires ValidSpecification(s) && s.IsReady()
    ensures SpecificationError(s).None?
  {
  }

  /** A ready specification certifies for any acceptable reviewer, and builds the same recipe. */
  lemma CertifiedBuildsTheSame(input: Input, reviewer: string, options: Options)
    requires CompileResult(input).Success?
    ensures var s := CompileResult(input).value;
            && (Certify(s, reviewer).Success? <==> s.status.Ready? && ValidReviewer(reviewer))
            && (Certify(s, reviewer).Success? ==>
                Recipe(Certify(s, reviewer).value, options) == Recipe(s, options))
  {
    hide ValidReviewer, Ambiguities, Bindings;
  }

  /** Where a recipe fills a captured parameter. */
  predicate FillsParameter(a: BrowserAction, parameter: string) {
    a.FillInput? && a.pointer == "/transaction/subject/" + parameter
  }

  lemma PointerInjective(p: string, q: string)
    requires "/transaction/subject/" + p == "/transaction/subject/" + q
    ensures p == q
  {
    var prefix := "/transaction/subject/";
    assert (prefix + p)[|prefix|..] == p && (prefix + q)[|prefix|..] == q;
  }

  /**
   From capture to recipe: if the compiled specification is ready and builds, every captured parameter
   is filled exactly once, through a locator some reviewed fill step gives for it, and the recipe has
   nothing else between its first and its last action.
   */
  lemma RecipeFillsEachCapturedParameterOnce(input: Input, options: Options, parameter: string)
    requires CompileResult(input).Success? && CompileResult(input).value.status.Ready?
    requires Recipe(CompileResult(input).value, options).Success?
    requires parameter in Captured(input.actions)
    ensures var r := Recipe(CompileResult(input).value, options).value;
            && |r| == |CapturedIndexes(input.actions, |input.actions|)| + 2
            && exists k | 0 < k < |r| - 1 ::
                 && FillsParameter(r[k], parameter)
                 && (forall m | 0 <= m < |r| && FillsParameter(r[m], parameter) :: m == k)
                 && exists j | 0 <= j < |input.sop.steps| ::
                      && input.sop.steps[j].For(parameter) && input.sop.steps[j].Fill?
                      && r[k].locator == ToBrowserLocator(input.sop.steps[j].locator)
  {
    hide CompileResult, Recipe, CapturedIndexes, Id, Direct, NavigationPath.Acceptable, ValidSpecification, Reviewed, Fills;
    var s := CompileResult(input).value;
    CompiledIsValid(input);
    RecipeShape(s, options);
    BuildsIffPathAndFills(s, options);
    var r := Recipe(s, options).value;
    var sorted: seq<Binding> :|
      && multiset(sorted) == multiset(s.parameters) && |sorted| == |s.parameters|
      && r == [Navigate(options.navigationPath)] + Fills(sorted) + [ExtractText(options.resultLocator, options.outputKey)]
      && forall i, j | 0 <= i < j < |sorted| ::
           Text.Leq(sorted[i].parameter, sorted[j].parameter) && sorted[i].parameter != sorted[j].parameter;
    ReadyBindsEveryCapture(input);
    var b := CapturedIsBound(input, parameter);
    assert b in multiset(sorted);
    var n :| 0 <= n < |sorted| && sorted[n] == b;
    FilledOnce(sorted, n, options, r);
  }

  /** In a recipe over distinct parameters, each parameter is filled at its own place and nowhere else. */
  lemma FilledOnce(sorted: seq<Binding>, n: nat, options: Options, r: seq<BrowserAction>)
    requires n < |sorted| && forall i, j | 0 <= i < j < |sorted| :: sorted[i].parameter != sorted[j].parameter
    requires r == [Navigate(options.navigationPath)] + Fills(sorted) + [ExtractText(options.resultLocator, options.outputKey)]
    ensures |r| == |sorted| + 2 && r[n + 1] == FillFor(sorted[n]) && FillsParameter(r[n + 1], sorted[n].parameter)
    ensures forall m | 0 <= m < |r| && FillsParameter(r[m], sorted[n].parameter) :: m == n + 1
  {
    forall m | 0 <= m < |r| && FillsParameter(r[m], sorted[n].parameter) ensures m == n + 1 {
      assert r[m] == FillFor(sorted[m - 1]);
      PointerInjective(sorted[m - 1].parameter, sorted[n].parameter);
    }
  }

  lemma CompiledIsValid(input: Input)
    requires CompileResult(input).Success?
    ensures ValidSpecification(CompileResult(input).value)
  {
  }

  lemma CapturedIsBound(input: Input, parameter: string) returns (b: Binding)
    requires CompileResult(input).Success? && CompileResult(input).value.status.Ready?
    requires parameter in Captured(input.actions)
    ensures b in CompileResult(input).value.parameters && b.parameter == parameter
    ensures exists j | 0 <= j < |input.sop.steps| ::
              && input.sop.steps[j].For(parameter)
              && b.kind == input.sop.steps[j].Kind() && b.locator == input.sop.steps[j].locator
  {
    hide CompileResult, Id, Direct;
    ReadyBindsEveryCapture(input);
    var captured := CapturedIndexes(input.actions, |input.actions|);
    var i :| 0 <= i < |input.actions| && input.actions[i].Bindable() && input.actions[i].parameter == parameter;
    assert i in captured;
    var n :| 0 <= n < |captured| && captured[n] == i;
    b := CompileResult(input).value.parameters[n];
    assert Reviewed(input, b, i);
    var k :| BoundTo(input, b, i, k);
  }
}

/** Order independence, non-interference and bounds of the route decision. */
module RoutingProperties {
  import opened Wrappers
  import opened Routing
  import Sorting
  import Text

  // ---------------------------------------------------------------- identifiers

  ghost predicate Distinct(ids: seq<string>) {
    forall i, j | 0 <= i < j < |ids| :: ids[i] != ids[j]
  }

  lemma DistinctCons(ids: seq<string>)
    requires ids != []
    ensures Distinct(ids) <==> ids[0] !in ids[1..] && Distinct(ids[1..])
  {
    var rest := ids[1..];
    assert forall i | 0 <= i < |rest| :: rest[i] == ids[i + 1];
    if ids[0] !in rest && Distinct(rest) {
      forall i, j | 0 <= i < j < |ids| ensures ids[i] != ids[j] {
        assert rest[j - 1] in rest && (0 < i ==> rest[i - 1] == ids[i]);
      }
    }
  }

  lemma {:induction false} UniqueMeansDistinct(ids: seq<string>)
    ensures |set id | id in ids| <= |ids|
    ensures Unique(ids) <==> Distinct(ids)
  {
    if ids != [] {
      var rest := ids[1..];
      UniqueMeansDistinct(rest);
      DistinctCons(ids);
      var all, others := set id | id in ids, set id | id in rest;
      assert ids == [ids[0]] + rest;
      assert all == others + {ids[0]};
      assert ids[0] in rest ==> all == others;
    }
  }

  lemma SnapshotIdMembers(snapshots: seq<Snapshot>, id: string)
    ensures id in SnapshotIds(snapshots) <==> exists s :: s in snapshots && s.candidateId == id
  {
    if id in SnapshotIds(snapshots) {
      var i :| 0 <= i < |snapshots| && SnapshotIds(snapshots)[i] == id;
      assert snapshots[i] in snapshots;
    }
    if s :| s in snapshots && s.candidateId == id {
      var i :| 0 <= i < |snapshots| && snapshots[i] == s;
      assert SnapshotIds(snapshots)[i] == id;
    }
  }

  lemma CandidateIdMembers(candidates: seq<Candidate>, id: string)
    ensures id in CandidateIds(candidates) <==> exists c :: c in candidates && c.candidateId == id
  {
    if id in CandidateIds(candidates) {
      var i :| 0 <= i < |candidates| && CandidateIds(candidates)[i] == id;
      assert candidates[i] in candidates;
    }
    if c :| c in candidates && c.candidateId == id {
      var i :| 0 <= i < |candidates| && candidates[i] == c;
      assert CandidateIds(candidates)[i] == id;
    }
  }

  lemma SameIdSameCandidate(candidates: seq<Candidate>, a: Candidate, b: Candidate)
    requires Unique(CandidateIds(candidates)) && a in candidates && b in candidates && a.candidateId == b.candidateId
    ensures a == b
  {
    UniqueMeansDistinct(CandidateIds(candidates));
    var i :| 0 <= i < |candidates| && candidates[i] == a;
    var j :| 0 <= j < |candidates| && candidates[j] == b;
    assert CandidateIds(candidates)[i] == CandidateIds(candidates)[j];
  }

  lemma SameIdSameSnapshot(snapshots: seq<Snapshot>, a: Snapshot, b: Snapshot)
    requires Distinct(SnapshotIds(snapshots)) && a in snapshots && b in snapshots && a.candidateId == b.candidateId
    ensures a == b
  {
    var i :| 0 <= i < |snapshots| && snapshots[i] == a;
    var j :| 0 <= j < |snapshots| && snapshots[j] == b;
    assert SnapshotIds(snapshots)[i] == SnapshotIds(snapshots)[j];
  }

  lemma UntiedCandidates(candidates: seq<Candidate>)
    requires Unique(CandidateIds(candidates))
    ensures Sorting.Untied(CandidateOrder, candidates)
  {
    forall a, b | a in candidates && b in candidates && CandidateOrder(a, b) && CandidateOrder(b, a) ensures a == b {
      Text.Antisymmetric(a.candidateId, b.candidateId);
      SameIdSameCandidate(candidates, a, b);
    }
  }

  lemma UntiedSnapshots(snapshots: seq<Snapshot>)
    requires Distinct(SnapshotIds(snapshots))
    ensures Sorting.Untied(SnapshotOrder, snapshots)
  {
    forall a, b | a in snapshots && b in snapshots && SnapshotOrder(a, b) && SnapshotOrder(b, a) ensures a == b {
      Text.Antisymmetric(a.candidateId, b.candidateId);
      SameIdSameSnapshot(snapshots, a, b);
    }
  }

  // ---------------------------------------------------------------- the order of the inputs

  lemma UniquePermutes(a: seq<Candidate>, b: seq<Candidate>)
    requires multiset(a) == multiset(b)
    ensures Unique(CandidateIds(a)) <==> Unique(CandidateIds(b))
    ensures forall id :: id in CandidateIds(a) <==> id in CandidateIds(b)
  {
    Sorting.MultisetMembers(a, b);
    forall id ensures id in CandidateIds(a) <==> id in CandidateIds(b) {
      CandidateIdMembers(a, id);
      CandidateIdMembers(b, id);
    }
    assert (set id | id in CandidateIds(a)) == (set id | id in CandidateIds(b));
  }

  /** Health is accepted exactly when identifiers differ and every snapshot matches the request. */
  lemma {:induction false} HealthAccepted(request: Request, snapshots: seq<Snapshot>, seen: set<string>)
    ensures HealthError(request, snapshots, seen).None? <==>
              && Distinct(SnapshotIds(snapshots))
              && forall s | s in snapshots :: s.candidateId !in seen && Identified(request, s)
  {
    if snapshots != [] {
      var first, rest := snapshots[0], snapshots[1..];
      HealthAccepted(request, rest, seen + {first.candidateId});
      assert SnapshotIds(snapshots)[1..] == SnapshotIds(rest);
      DistinctCons(SnapshotIds(snapshots));
      SnapshotIdMembers(rest, first.candidateId);
      assert snapshots == [first] + rest;
      assert forall s :: s in snapshots <==> s == first || s in rest;
    }
  }

  lemma DistinctSnapshotsPermute(a: seq<Snapshot>, b: seq<Snapshot>)
    requires multiset(a) == multiset(b)
    ensures Distinct(SnapshotIds(a)) <==> Distinct(SnapshotIds(b))
  {
    Sorting.MultisetMembers(a, b);
    UniqueMeansDistinct(SnapshotIds(a));
    UniqueMeansDistinct(SnapshotIds(b));
    forall id ensures id in SnapshotIds(a) <==> id in SnapshotIds(b) {
      SnapshotIdMembers(a, id);
      SnapshotIdMembers(b, id);
    }
    assert (set id | id in SnapshotIds(a)) == (set id | id in SnapshotIds(b));
  }

  lemma HealthPermutes(request: Request, a: seq<Snapshot>, b: seq<Snapshot>)
    requires multiset(a) == multiset(b)
    ensures HealthError(request, a, {}).None? <==> HealthError(request, b, {}).None?
    ensures HealthError(request, a, {}).None? ==>
              && Sorting.Sort(SnapshotOrder, a) == Sorting.Sort(SnapshotOrder, b)
              && forall id :: FindSnapshot(a, id) == FindSnapshot(b, id)
  {
    Sorting.MultisetMembers(a, b);
    HealthAccepted(request, a, {});
    HealthAccepted(request, b, {});
    DistinctSnapshotsPermute(a, b);
    if HealthError(request, a, {}).None? {
      OrdersArePreorders();
      UntiedSnapshots(a);
      Sorting.SortOfPermutation(SnapshotOrder, a, b);
      forall id ensures FindSnapshot(a, id) == FindSnapshot(b, id) {
        if FindSnapshot(a, id).Some? && FindSnapshot(b, id).Some? {
          SameIdSameSnapshot(a, FindSnapshot(a, id).value, FindSnapshot(b, id).value);
        }
      }
    }
  }

  lemma FallbacksPermute(request: Request, a: seq<Candidate>, b: seq<Candidate>, ranked: seq<string>, policy: Policy)
    requires multiset(a) == multiset(b) && ranked != []
    ensures Fallbacks(request, a, ranked, policy) == Fallbacks(request, b, ranked, policy)
  {
    Sorting.MultisetMembers(a, b);
    forall id ensures NeedsApproval(a, id) <==> NeedsApproval(b, id) {
      assert NeedsApproval(a, id) <==> exists c :: c in a && c.candidateId == id && c.requiresApproval;
      assert NeedsApproval(b, id) <==> exists c :: c in b && c.candidateId == id && c.requiresApproval;
    }
    FilterSame((id: string) => !NeedsApproval(a, id), (id: string) => !NeedsApproval(b, id), ranked[1..]);
  }

  lemma {:induction false} FilterSame<T>(p: T -> bool, q: T -> bool, s: seq<T>)
    requires forall i | 0 <= i < |s| :: p(s[i]) == q(s[i])
    ensures Sorting.Filter(p, s) == Sorting.Filter(q, s)
  {
    if s != [] {
      FilterSame(p, q, s[1..]);
    }
  }

  lemma EvaluationsAgree(request: Request, candidates: seq<Candidate>, a: seq<Snapshot>, b: seq<Snapshot>, policy: Policy)
    requires ValidInputs(candidates, a, policy) && ValidInputs(candidates, b, policy)
    requires forall c | c in candidates :: FindSnapshot(a, c.candidateId) == FindSnapshot(b, c.candidateId)
    ensures EvaluateAll(request, candidates, a, policy) == EvaluateAll(request, candidates, b, policy)
  {}

  predicate HealthRefused(e: Error) {
    e.DuplicateSnapshot? || e.SnapshotIdentity?
  }

  /**
   The whole decision is the same for every order of candidates and of snapshots. When health is refused
   it is refused in every order, though which of its two errors is raised may differ.
   */
  lemma OrderIndependent(request: Request, candidates: seq<Candidate>, candidates': seq<Candidate>,
                         snapshots: seq<Snapshot>, snapshots': seq<Snapshot>, policy: Policy)
    requires ValidInputs(candidates, snapshots, policy) && ValidInputs(candidates', snapshots', policy)
    requires multiset(candidates) == multiset(candidates') && multiset(snapshots) == multiset(snapshots')
    ensures var r, r' := Select(request, candidates, snapshots, policy), Select(request, candidates', snapshots', policy);
            r == r' || (r.Failure? && r'.Failure? && HealthRefused(r.error) && HealthRefused(r'.error))
  {
    Sorting.MultisetMembers(candidates, candidates');
    Sorting.MultisetMembers(snapshots, snapshots');
    UniquePermutes(candidates, candidates');
    HealthPermutes(request, snapshots, snapshots');
    HealthErrorsAreRefusals(request, snapshots, {});
    HealthErrorsAreRefusals(request, snapshots', {});
    if candidates != [] && Unique(CandidateIds(candidates)) && HealthError(request, snapshots, {}).None? {
      OrdersArePreorders();
      UntiedCandidates(candidates);
      Sorting.SortOfPermutation(CandidateOrder, candidates, candidates');
      SortedCandidatesValid(candidates);
      SortedCandidatesValid(candidates');
      var ordered := Sorting.Sort(CandidateOrder, candidates);
      EvaluationsAgree(request, ordered, snapshots, snapshots', policy);
      var ranked := Sorting.Sort(RankOrder, Eligible(EvaluateAll(request, ordered, snapshots, policy)));
      if ranked != [] {
        FallbacksPermute(request, candidates, candidates', EvaluationIds(ranked), policy);
      }
    }
  }

  lemma {:induction false} HealthErrorsAreRefusals(request: Request, snapshots: seq<Snapshot>, seen: set<string>)
    ensures HealthError(request, snapshots, seen).Some? ==> HealthRefused(HealthError(request, snapshots, seen).value)
  {
    if snapshots != [] {
      HealthErrorsAreRefusals(request, snapshots[1..], seen + {snapshots[0].candidateId});
    }
  }

  /** Which error is raised does depend on the order: a foreign snapshot before or after a repeated one. */
  lemma RefusalDependsOnOrder()
    ensures var request := Request("t", "c", ReadOnly, Public, L0, 0);
            var foreign := Snapshot("other", "x", 0, Unknown, 0, 0, 0, 0, 0, None, None, None, None);
            var twice := Snapshot("t", "y", 0, Unknown, 0, 0, 0, 0, 0, None, None, None, None);
            && HealthError(request, [foreign, twice, twice], {}) == Some(SnapshotIdentity)
            && HealthError(request, [twice, twice, foreign], {}) == Some(DuplicateSnapshot)
            && multiset([foreign, twice, twice]) == multiset([twice, twice, foreign])
  {
    var request := Request("t", "c", ReadOnly, Public, L0, 0);
    var foreign := Snapshot("other", "x", 0, Unknown, 0, 0, 0, 0, 0, None, None, None, None);
    var twice := Snapshot("t", "y", 0, Unknown, 0, 0, 0, 0, 0, None, None, None, None);
    assert [twice, twice, foreign][1..] == [twice, foreign];
    assert "other" != "t" by { assert |"other"| != |"t"|; }
  }

  // ---------------------------------------------------------------- adding a candidate

  lemma {:induction false} FilterCommutes<T>(p: T -> bool, q: T -> bool, s: seq<T>)
    ensures Sorting.Filter(p, Sorting.Filter(q, s)) == Sorting.Filter(q, Sorting.Filter(p, s))
  {
    if s != [] {
      FilterCommutes(p, q, s[1..]);
      var x := s[0];
      assert ([x] + Sorting.Filter(q, s[1..]))[1..] == Sorting.Filter(q, s[1..]);
      assert ([x] + Sorting.Filter(p, s[1..]))[1..] == Sorting.Filter(p, s[1..]);
    }
  }

  ghost function Others(id: string, evaluations: seq<Evaluation>): seq<Evaluation> {
    Sorting.Filter((e: Evaluation) => e.candidateId != id, evaluations)
  }

  lemma {:induction false} EvaluateOthers(request: Request, candidates: seq<Candidate>, snapshots: seq<Snapshot>,
                                          policy: Policy, id: string)
    requires ValidInputs(candidates, snapshots, policy)
    ensures var others := Sorting.Filter((c: Candidate) => c.candidateId != id, candidates);
            && ValidInputs(others, snapshots, policy)
            && EvaluateAll(request, others, snapshots, policy) ==
               Others(id, EvaluateAll(request, candidates, snapshots, policy))
  {
    var keep := (c: Candidate) => c.candidateId != id;
    Sorting.FilterMembers(keep, candidates);
    if candidates != [] {
      var rest := candidates[1..];
      EvaluateOthers(request, rest, snapshots, policy, id);
      EvaluateCons(request, candidates, snapshots, policy);
      var others := Sorting.Filter(keep, candidates);
      if keep(candidates[0]) {
        assert others[1..] == Sorting.Filter(keep, rest);
        EvaluateCons(request, others, snapshots, policy);
      }
    }
  }

  lemma EvaluateCons(request: Request, candidates: seq<Candidate>, snapshots: seq<Snapshot>, policy: Policy)
    requires ValidInputs(candidates, snapshots, policy) && candidates != []
    ensures ValidInputs(candidates[1..], snapshots, policy)
    ensures var all := EvaluateAll(request, candidates, snapshots, policy);
            && all == [all[0]] + EvaluateAll(request, candidates[1..], snapshots, policy)
            && all[1..] == EvaluateAll(request, candidates[1..], snapshots, policy)
            && all[0] == Evaluate(request, candidates[0], FindSnapshot(snapshots, candidates[0].candidateId), policy)
  {}

  lemma EvaluationHasCandidate(request: Request, candidates: seq<Candidate>, snapshots: seq<Snapshot>,
                               policy: Policy, e: Evaluation) returns (c: Candidate)
    requires ValidInputs(candidates, snapshots, policy) && e in EvaluateAll(request, candidates, snapshots, policy)
    ensures c in candidates && e == Evaluate(request, c, FindSnapshot(snapshots, c.candidateId), policy)
    ensures e.candidateId == c.candidateId
  {
    var all := EvaluateAll(request, candidates, snapshots, policy);
    var i :| 0 <= i < |all| && all[i] == e;
    c := candidates[i];
  }

  lemma UntiedEvaluations(request: Request, candidates: seq<Candidate>, snapshots: seq<Snapshot>, policy: Policy)
    requires ValidInputs(candidates, snapshots, policy) && Unique(CandidateIds(candidates))
    ensures Sorting.Untied(RankOrder, Eligible(EvaluateAll(request, candidates, snapshots, policy)))
  {
    var all := EvaluateAll(request, candidates, snapshots, policy);
    Sorting.FilterMembers((e: Evaluation) => e.Eligible(), all);
    forall a, b | a in Eligible(all) && b in Eligible(all) && RankOrder(a, b) && RankOrder(b, a) ensures a == b {
      var ca := EvaluationHasCandidate(request, candidates, snapshots, policy, a);
      var cb := EvaluationHasCandidate(request, candidates, snapshots, policy, b);
      Text.Antisymmetric(a.candidateId, b.candidateId);
      SameIdSameCandidate(candidates, ca, cb);
    }
  }

  ghost function Ranking(request: Request, candidates: seq<Candidate>, snapshots: seq<Snapshot>, policy: Policy)
    : seq<Evaluation>
    requires ValidInputs(candidates, snapshots, policy)
  {
    SortedCandidatesValid(candidates);
    Sorting.Sort(RankOrder, Eligible(EvaluateAll(request, Sorting.Sort(CandidateOrder, candidates), snapshots, policy)))
  }

  /** Taking a candidate out of the input takes it out of the ranking and disturbs nothing else. */
  lemma RankingWithout(request: Request, candidates: seq<Candidate>, snapshots: seq<Snapshot>, policy: Policy, id: string)
    requires ValidInputs(candidates, snapshots, policy) && Unique(CandidateIds(candidates))
    ensures var others := Sorting.Filter((c: Candidate) => c.candidateId != id, candidates);
            && ValidInputs(others, snapshots, policy)
            && Ranking(request, others, snapshots, policy) == Others(id, Ranking(request, candidates, snapshots, policy))
  {
    var keepC := (c: Candidate) => c.candidateId != id;
    var keepE := (e: Evaluation) => e.candidateId != id;
    var others := Sorting.Filter(keepC, candidates);
    Sorting.FilterMembers(keepC, candidates);
    var ordered := Sorting.Sort(CandidateOrder, candidates);
    OrdersArePreorders();
    UntiedCandidates(candidates);
    SortedCandidatesValid(candidates);
    Sorting.SortFilter(CandidateOrder, keepC, candidates);
    EvaluateOthers(request, ordered, snapshots, policy, id);
    var all := EvaluateAll(request, ordered, snapshots, policy);
    FilterCommutes((e: Evaluation) => e.Eligible(), keepE, all);
    Sorting.SortSpec(CandidateOrder, candidates);
    UniquePermutes(ordered, candidates);
    UntiedEvaluations(request, ordered, snapshots, policy);
    Sorting.SortFilter(RankOrder, keepE, Eligible(all));
  }

  lemma {:induction false} IdsOfOthers(id: string, evaluations: seq<Evaluation>)
    ensures EvaluationIds(Others(id, evaluations)) == Sorting.Filter((x: string) => x != id, EvaluationIds(evaluations))
  {
    if evaluations != [] {
      IdsOfOthers(id, evaluations[1..]);
      assert EvaluationIds(evaluations)[1..] == EvaluationIds(evaluations[1..]);
      var others := Others(id, evaluations);
      if evaluations[0].candidateId != id {
        assert EvaluationIds(others) == [evaluations[0].candidateId] + EvaluationIds(others[1..]);
      }
    }
  }

  lemma WithoutAdded(candidates: seq<Candidate>, c: Candidate)
    requires c.candidateId !in CandidateIds(candidates)
    ensures Sorting.Filter((x: Candidate) => x.candidateId != c.candidateId, candidates + [c]) == candidates
  {
    var keep := (x: Candidate) => x.candidateId != c.candidateId;
    forall i | 0 <= i < |candidates| ensures keep(candidates[i]) {
      assert CandidateIds(candidates)[i] == candidates[i].candidateId;
    }
    Sorting.FilterKeepsAll(keep, candidates);
    Sorting.FilterAppend(keep, candidates, c);
  }

  lemma UniqueExtends(candidates: seq<Candidate>, c: Candidate)
    requires Unique(CandidateIds(candidates)) && c.candidateId !in CandidateIds(candidates)
    ensures Unique(CandidateIds(candidates + [c]))
  {
    UniqueMeansDistinct(CandidateIds(candidates));
    UniqueMeansDistinct(CandidateIds(candidates + [c]));
    assert CandidateIds(candidates + [c]) == CandidateIds(candidates) + [c.candidateId];
  }

  /**
   Non-interference. Adding a candidate, with or without health of its own, leaves all others ranked in
   the same order; if the newcomer is not eligible the ranking, the choice and the fallbacks are unchanged.
   */
  lemma AddingCandidate(request: Request, candidates: seq<Candidate>, c: Candidate, snapshots: seq<Snapshot>,
                        snapshots': seq<Snapshot>, policy: Policy)
    requires ValidInputs(candidates, snapshots, policy) && ValidInputs(candidates + [c], snapshots', policy)
    requires Select(request, candidates, snapshots, policy).Success?
    requires |candidates| < 16 && c.candidateId !in CandidateIds(candidates)
    requires HealthError(request, snapshots', {}).None? && DecisionAccepts(candidates + [c], snapshots')
    requires forall x | x in candidates :: FindSnapshot(snapshots, x.candidateId) == FindSnapshot(snapshots', x.candidateId)
    ensures var r, r' := Select(request, candidates, snapshots, policy), Select(request, candidates + [c], snapshots', policy);
            && r'.Success?
            && r.value.rankedIds == Sorting.Filter((id: string) => id != c.candidateId, r'.value.rankedIds)
            && (!Evaluate(request, c, FindSnapshot(snapshots', c.candidateId), policy).Eligible() ==>
                  && r'.value.rankedIds == r.value.rankedIds && r'.value.selectedId == r.value.selectedId
                  && r'.value.fallbackIds == r.value.fallbackIds)
  {
    hide Evaluate, HealthError, FindSnapshot, EvaluateAll, Fallbacks, Unique;
    var more := candidates + [c];
    UniqueExtends(candidates, c);
    WithoutAdded(candidates, c);
    RankingWithout(request, more, snapshots', policy, c.candidateId);
    SortedCandidatesValid(candidates);
    EvaluationsAgree(request, Sorting.Sort(CandidateOrder, candidates), snapshots, snapshots', policy);
    var ranked, ranked' := Ranking(request, candidates, snapshots, policy), Ranking(request, more, snapshots', policy);
    assert ranked == Others(c.candidateId, ranked');
    IdsOfOthers(c.candidateId, ranked');
    Sorting.FilterMembers((e: Evaluation) => e.candidateId != c.candidateId, ranked');
    assert ranked' != [];
    if !Evaluate(request, c, FindSnapshot(snapshots', c.candidateId), policy).Eligible() {
      NotRanked(request, candidates, c, snapshots', policy);
      Sorting.FilterKeepsAll((e: Evaluation) => e.candidateId != c.candidateId, ranked');
      SameFallbacks(request, candidates, c, EvaluationIds(ranked), policy);
    }
  }

  lemma NotRanked(request: Request, candidates: seq<Candidate>, c: Candidate, snapshots: seq<Snapshot>, policy: Policy)
    requires ValidInputs(candidates + [c], snapshots, policy) && Unique(CandidateIds(candidates + [c]))
    requires !Evaluate(request, c, FindSnapshot(snapshots, c.candidateId), policy).Eligible()
    ensures var ranked := Ranking(request, candidates + [c], snapshots, policy);
            forall i | 0 <= i < |ranked| :: ranked[i].candidateId != c.candidateId
  {
    var more := candidates + [c];
    OrdersArePreorders();
    SortedCandidatesValid(more);
    var ordered := Sorting.Sort(CandidateOrder, more);
    var all := EvaluateAll(request, ordered, snapshots, policy);
    var ranked := Ranking(request, more, snapshots, policy);
    Sorting.SortMembers(RankOrder, Eligible(all));
    Sorting.FilterMembers((e: Evaluation) => e.Eligible(), all);
    forall i | 0 <= i < |ranked| ensures ranked[i].candidateId != c.candidateId {
      var e := ranked[i];
      assert e in ranked && e in Eligible(all) && e in all && e.Eligible();
      var x := EvaluationHasCandidate(request, ordered, snapshots, policy, e);
      if x.candidateId == c.candidateId {
        assert x in more && c in more;
        SameIdSameCandidate(more, x, c);
      }
    }
  }

  lemma SameFallbacks(request: Request, candidates: seq<Candidate>, c: Candidate, ranked: seq<string>, policy: Policy)
    requires ranked != [] && forall i | 0 <= i < |ranked| :: ranked[i] != c.candidateId
    ensures Fallbacks(request, candidates + [c], ranked, policy) == Fallbacks(request, candidates, ranked, policy)
  {
    var more := candidates + [c];
    forall id | id != c.candidateId ensures NeedsApproval(more, id) <==> NeedsApproval(candidates, id) {
      if NeedsApproval(candidates, id) {
        var i :| 0 <= i < |candidates| && candidates[i].candidateId == id && candidates[i].requiresApproval;
        assert more[i] == candidates[i];
      }
    }
    FilterSame((id: string) => !NeedsApproval(more, id), (id: string) => !NeedsApproval(candidates, id), ranked[1..]);
  }

  // ---------------------------------------------------------------- the ranking and its fallbacks

  ghost predicate Subsequence<T>(a: seq<T>, b: seq<T>) {
    if a == [] then true
    else if b == [] then false
    else if a[0] == b[0] then Subsequence(a[1..], b[1..])
    else Subsequence(a, b[1..])
  }

  lemma {:induction false} FilterIsSubsequence<T>(keep: T -> bool, s: seq<T>, n: nat)
    requires n <= |Sorting.Filter(keep, s)|
    ensures Subsequence(Sorting.Filter(keep, s)[..n], s)
  {
    if s != [] && 0 < n {
      var kept := Sorting.Filter(keep, s);
      if keep(s[0]) {
        FilterIsSubsequence(keep, s[1..], n - 1);
        assert kept[..n][1..] == Sorting.Filter(keep, s[1..])[..n - 1];
      } else {
        FilterIsSubsequence(keep, s[1..], n);
        if kept[0] == s[0] {
          SubsequenceTail(kept[..n], s[1..]);
        }
      }
    }
  }

  lemma {:induction false} SubsequenceTail<T>(a: seq<T>, b: seq<T>)
    requires a != [] && Subsequence(a, b)
    ensures Subsequence(a[1..], b)
  {
    if a[0] == b[0] {
      SubsequenceDrop(a[1..], b);
    } else {
      SubsequenceTail(a, b[1..]);
      SubsequenceDrop(a[1..], b);
    }
  }

  lemma {:induction false} SubsequenceDrop<T>(a: seq<T>, b: seq<T>)
    requires b != [] && Subsequence(a, b[1..])
    ensures Subsequence(a, b)
  {
    if a != [] && a[0] == b[0] {
      SubsequenceTail(a, b[1..]);
    }
  }

  /** Fallbacks: a bounded, approval-free subsequence of the ranking after its head, and only when reading. */
  lemma FallbacksAreSafe(request: Request, candidates: seq<Candidate>, snapshots: seq<Snapshot>, policy: Policy)
    requires ValidInputs(candidates, snapshots, policy) && Select(request, candidates, snapshots, policy).Success?
    ensures var d := Select(request, candidates, snapshots, policy).value;
            && Subsequence(d.fallbackIds, d.rankedIds[1..])
            && |d.fallbackIds| <= policy.maximumFallbacks
            && (forall id | id in d.fallbackIds :: !NeedsApproval(candidates, id))
            && (!request.risk.ReadOnly? ==> d.fallbackIds == [])
  {
    var d := Select(request, candidates, snapshots, policy).value;
    if request.risk.ReadOnly? {
      var keep := (id: string) => !NeedsApproval(candidates, id);
      var kept := Sorting.Filter(keep, d.rankedIds[1..]);
      Sorting.FilterMembers(keep, d.rankedIds[1..]);
      FilterIsSubsequence(keep, d.rankedIds[1..], if |kept| <= policy.maximumFallbacks then |kept| else policy.maximumFallbacks);
      assert kept[..|kept|] == kept;
      assert forall id | id in d.fallbackIds :: id in kept;
    }
  }

  /** What a prefix of the filtered list leaves out comes after everything in it. */
  lemma {:induction false} PrefixTakesFirst<T>(keep: T -> bool, s: seq<T>, n: nat, i: nat, j: nat)
    requires Sorting.Single(s) && n <= |Sorting.Filter(keep, s)| && i < j < |s|
    requires keep(s[i]) && s[j] in Sorting.Filter(keep, s)[..n]
    ensures s[i] in Sorting.Filter(keep, s)[..n]
  {
    var kept := Sorting.Filter(keep, s);
    var rest := Sorting.Filter(keep, s[1..]);
    Sorting.FilterMembers(keep, s[1..]);
    assert s[0] !in s[1..] && s[1..][j - 1] == s[j];
    if keep(s[0]) {
      assert kept == [s[0]] + rest && kept[..n] == [s[0]] + rest[..n - 1];
      if 0 < i {
        PrefixTakesFirst(keep, s[1..], n - 1, i - 1, j - 1);
      }
    } else {
      PrefixTakesFirst(keep, s[1..], n, i - 1, j - 1);
    }
  }

  lemma FallbacksArePrefix(request: Request, candidates: seq<Candidate>, snapshots: seq<Snapshot>, policy: Policy)
    requires ValidInputs(candidates, snapshots, policy) && Select(request, candidates, snapshots, policy).Success?
    requires request.risk.ReadOnly?
    ensures var d := Select(request, candidates, snapshots, policy).value;
            var kept := Sorting.Filter((id: string) => !NeedsApproval(candidates, id), d.rankedIds[1..]);
            && d.fallbackIds <= kept && d.fallbackIds == kept[..|d.fallbackIds|]
            && (d.fallbackIds == kept || |d.fallbackIds| == policy.maximumFallbacks)
  {
    hide NeedsApproval, Evaluate, RankOrder;
    var d := Select(request, candidates, snapshots, policy).value;
    var kept := Sorting.Filter((id: string) => !NeedsApproval(candidates, id), d.rankedIds[1..]);
    assert kept[..|kept|] == kept;
  }

  /** When reading, whatever approval-free candidate is no fallback comes after all of them, and there are as many as allowed. */
  lemma FallbacksAreFirst(request: Request, candidates: seq<Candidate>, snapshots: seq<Snapshot>, policy: Policy, q: nat)
    requires ValidInputs(candidates, snapshots, policy) && Select(request, candidates, snapshots, policy).Success?
    requires var d := Select(request, candidates, snapshots, policy).value;
             && request.risk.ReadOnly? && 0 < q < |d.rankedIds|
             && forall c | c in candidates && c.candidateId == d.rankedIds[q] :: !c.requiresApproval
    ensures var d := Select(request, candidates, snapshots, policy).value;
            || d.rankedIds[q] in d.fallbackIds
            || (&& |d.fallbackIds| == policy.maximumFallbacks
                && forall p | 0 < p < |d.rankedIds| && d.rankedIds[p] in d.fallbackIds :: p < q)
  {
    hide Select, Better, Sorting.Filter;
    var d := Select(request, candidates, snapshots, policy).value;
    var keep := (id: string) => !NeedsApproval(candidates, id);
    var others := d.rankedIds[1..];
    var kept := Sorting.Filter(keep, others);
    RankedAreSingle(request, candidates, snapshots, policy);
    Sorting.FilterMembers(keep, others);
    assert others[q - 1] == d.rankedIds[q] && keep(others[q - 1]);
    assert kept[..|kept|] == kept;
    FallbacksArePrefix(request, candidates, snapshots, policy);
    if d.rankedIds[q] !in d.fallbackIds {
      forall p | 0 < p < |d.rankedIds| && d.rankedIds[p] in d.fallbackIds ensures p < q {
        if q < p {
          PrefixTakesFirst(keep, others, |d.fallbackIds|, q - 1, p - 1);
        }
      }
    }
  }

  lemma RankedAreSingle(request: Request, candidates: seq<Candidate>, snapshots: seq<Snapshot>, policy: Policy)
    requires ValidInputs(candidates, snapshots, policy) && Select(request, candidates, snapshots, policy).Success?
    ensures Sorting.Single(Select(request, candidates, snapshots, policy).value.rankedIds[1..])
  {
    hide Select, Better;
    var d := Select(request, candidates, snapshots, policy).value;
    RankedBestFirst(request, candidates, snapshots, policy);
    forall i, j | 0 <= i < j < |d.rankedIds| ensures d.rankedIds[i] != d.rankedIds[j] {
      assert d.rankedIds[i] in d.rankedIds && d.rankedIds[j] in d.rankedIds;
      var a :| a in d.evaluations && a.candidateId == d.rankedIds[i];
      var b :| b in d.evaluations && b.candidateId == d.rankedIds[j];
      assert Better(a, b);
      NotBetterThanItself(a);
    }
  }

  lemma NotBetterThanItself(a: Evaluation)
    ensures !Better(a, a)
  {}

  lemma DecisionParts(request: Request, candidates: seq<Candidate>, snapshots: seq<Snapshot>, policy: Policy)
    requires ValidInputs(candidates, snapshots, policy) && Select(request, candidates, snapshots, policy).Success?
    ensures forall c :: c in Sorting.Sort(CandidateOrder, candidates) <==> c in candidates
    ensures var d := Select(request, candidates, snapshots, policy).value;
            var ranked := Ranking(request, candidates, snapshots, policy);
            && d.evaluations == EvaluateAll(request, Sorting.Sort(CandidateOrder, candidates), snapshots, policy)
            && ranked == Sorting.Sort(RankOrder, Eligible(d.evaluations)) && ranked != []
            && d.rankedIds == EvaluationIds(ranked) && d.selectedId == ranked[0].candidateId
  {
    SortedCandidatesValid(candidates);
  }

  /** A greater weighted score, then a smaller priority number, then the lesser identifier. */
  predicate Better(a: Evaluation, b: Evaluation) {
    && a.scores.Some? && b.scores.Some?
    && (|| b.scores.value.weighted < a.scores.value.weighted
        || (&& b.scores.value.weighted == a.scores.value.weighted
            && (a.priority < b.priority
                || (a.priority == b.priority && a.candidateId != b.candidateId && Text.Leq(a.candidateId, b.candidateId)))))
  }

  lemma EvaluationsAreSingle(request: Request, candidates: seq<Candidate>, snapshots: seq<Snapshot>, policy: Policy)
    requires ValidInputs(candidates, snapshots, policy) && Unique(CandidateIds(candidates))
    ensures var all := EvaluateAll(request, candidates, snapshots, policy);
            && Sorting.Single(all)
            && forall a, b | a in all && b in all && a.candidateId == b.candidateId :: a == b
  {
    UniqueMeansDistinct(CandidateIds(candidates));
    var all := EvaluateAll(request, candidates, snapshots, policy);
    forall i, j | 0 <= i < j < |all| ensures all[i].candidateId != all[j].candidateId {
      assert CandidateIds(candidates)[i] != CandidateIds(candidates)[j];
    }
  }

  /**
   What a decision ranks: the identifiers of the evaluations that carry scores, each once, better ones first.
   There is one evaluation per candidate, and the selected one has the greatest weighted score of all.
   */
  lemma RankedBestFirst(request: Request, candidates: seq<Candidate>, snapshots: seq<Snapshot>, policy: Policy)
    requires ValidInputs(candidates, snapshots, policy) && Select(request, candidates, snapshots, policy).Success?
    ensures var d := Select(request, candidates, snapshots, policy).value;
            && d.rankedIds != [] && d.selectedId == d.rankedIds[0]
            && (forall id :: id in d.rankedIds <==> exists e :: e in d.evaluations && e.candidateId == id && e.scores.Some?)
            && (forall a, b | a in d.evaluations && b in d.evaluations && a.candidateId == b.candidateId :: a == b)
            && (forall a, b, i, j | 0 <= i < j < |d.rankedIds| && a in d.evaluations && b in d.evaluations
                                    && a.candidateId == d.rankedIds[i] && b.candidateId == d.rankedIds[j] :: Better(a, b))
  {
    hide Select, Ranking, Evaluate, RankOrder, Better;
    var d := Select(request, candidates, snapshots, policy).value;
    DecisionParts(request, candidates, snapshots, policy);
    OrdersArePreorders();
    var ordered, ranked := Sorting.Sort(CandidateOrder, candidates), Ranking(request, candidates, snapshots, policy);
    Sorting.SortSpec(CandidateOrder, candidates);
    SelectedIsUnique(request, candidates, snapshots, policy);
    UniquePermutes(candidates, ordered);
    EvaluationsAreSingle(request, ordered, snapshots, policy);
    EligibleRankedBestFirst(d.evaluations);
    forall e | e in d.evaluations ensures e.Eligible() <==> e.scores.Some? {
      var c := EvaluationHasCandidate(request, ordered, snapshots, policy, e);
      EligibleHasScores(request, c, FindSnapshot(snapshots, c.candidateId), policy);
    }
    forall id ensures id in d.rankedIds <==> exists e :: e in d.evaluations && e.candidateId == id && e.scores.Some? {
      IdsOfEvaluations(ranked, id);
    }
    forall a, b, i, j | 0 <= i < j < |d.rankedIds| && a in d.evaluations && b in d.evaluations
                        && a.candidateId == d.rankedIds[i] && b.candidateId == d.rankedIds[j] ensures Better(a, b) {
      assert ranked[i] in ranked && ranked[j] in ranked;
      assert a == ranked[i] && b == ranked[j];
      RankedIsBetter(a, b);
    }
  }

  /** The selected candidate carries scores, and it is better than every other that does. */
  lemma SelectedIsBest(request: Request, candidates: seq<Candidate>, snapshots: seq<Snapshot>, policy: Policy, e: Evaluation)
    requires ValidInputs(candidates, snapshots, policy) && Select(request, candidates, snapshots, policy).Success?
    requires e in Select(request, candidates, snapshots, policy).value.evaluations && e.scores.Some?
    ensures var d := Select(request, candidates, snapshots, policy).value;
            exists best :: best in d.evaluations && best.candidateId == d.selectedId && best.scores.Some?
                           && (best == e || Better(best, e))
  {
    hide Select, Better;
    RankedBestFirst(request, candidates, snapshots, policy);
    var d := Select(request, candidates, snapshots, policy).value;
    assert d.rankedIds[0] in d.rankedIds && e.candidateId in d.rankedIds;
    var best :| best in d.evaluations && best.candidateId == d.selectedId && best.scores.Some?;
    var i :| 0 <= i < |d.rankedIds| && d.rankedIds[i] == e.candidateId;
    assert i == 0 || Better(best, e);
  }

  lemma SelectedIsUnique(request: Request, candidates: seq<Candidate>, snapshots: seq<Snapshot>, policy: Policy)
    requires ValidInputs(candidates, snapshots, policy) && Select(request, candidates, snapshots, policy).Success?
    ensures Unique(CandidateIds(candidates))
  {}

  lemma EligibleHasScores(request: Request, c: Candidate, health: Option<Snapshot>, policy: Policy)
    requires c.Valid() && policy.Valid() && (health.Some? ==> health.value.Valid())
    ensures var e := Evaluate(request, c, health, policy); e.Eligible() <==> e.scores.Some?
  {}

  lemma RankedIsBetter(a: Evaluation, b: Evaluation)
    requires RankOrder(a, b) && a.scores.Some? && b.scores.Some? && a.candidateId != b.candidateId
    ensures Better(a, b)
  {}

  lemma IdsOfEvaluations(evaluations: seq<Evaluation>, id: string)
    ensures id in EvaluationIds(evaluations) <==> exists e :: e in evaluations && e.candidateId == id
  {
    if id in EvaluationIds(evaluations) {
      var i :| 0 <= i < |evaluations| && EvaluationIds(evaluations)[i] == id;
      assert evaluations[i] in evaluations;
    }
    if e :| e in evaluations && e.candidateId == id {
      var i :| 0 <= i < |evaluations| && evaluations[i] == e;
      assert EvaluationIds(evaluations)[i] == id;
    }
  }

  lemma EligibleRankedBestFirst(evaluations: seq<Evaluation>)
    requires Sorting.Single(evaluations)
    requires forall a, b | a in evaluations && b in evaluations && a.candidateId == b.candidateId :: a == b
    ensures var ranked := Sorting.Sort(RankOrder, Eligible(evaluations));
            && (forall e :: e in ranked <==> e in evaluations && e.Eligible())
            && forall i, j | 0 <= i < j < |ranked| ::
                 RankOrder(ranked[i], ranked[j]) && ranked[i].candidateId != ranked[j].candidateId
  {
    hide RankOrder;
    var keep := (e: Evaluation) => e.Eligible();
    OrdersArePreorders();
    Sorting.FilterMembers(keep, evaluations);
    Sorting.FilterSingle(keep, evaluations);
    Sorting.SortMembers(RankOrder, Eligible(evaluations));
    Sorting.SortSpec(RankOrder, Eligible(evaluations));
    Sorting.SortSingle(RankOrder, Eligible(evaluations));
    var ranked := Sorting.Sort(RankOrder, Eligible(evaluations));
    forall i, j | 0 <= i < j < |ranked| ensures ranked[i].candidateId != ranked[j].candidateId {
      assert ranked[i] in ranked && ranked[j] in ranked && ranked[i] != ranked[j];
    }
  }

  lemma EvaluateKeepsId(request: Request, c: Candidate, health: Option<Snapshot>, policy: Policy)
    requires c.Valid() && policy.Valid() && (health.Some? ==> health.value.Valid())
    ensures Evaluate(request, c, health, policy).candidateId == c.candidateId
  {}
}

/** Exactly when the order of the inputs shows in what the router answers. */
module RoutingOrder {
  import opened Wrappers
  import Sorting
  import opened Routing
  import P = RoutingProperties

  /** Some snapshot belongs to another tenant or another evaluation time. */
  ghost predicate Foreign(request: Request, snapshots: seq<Snapshot>) {
    exists i | 0 <= i < |snapshots| :: !Identified(request, snapshots[i])
  }

  /** Some snapshot that does belong to the request shares its candidate with another one. */
  ghost predicate Repeated(request: Request, snapshots: seq<Snapshot>) {
    exists i, j | 0 <= i < |snapshots| && 0 <= j < |snapshots| ::
      i != j && Identified(request, snapshots[i]) && snapshots[i].candidateId == snapshots[j].candidateId
  }

  lemma {:induction false} NeverIdentity(request: Request, snapshots: seq<Snapshot>, seen: set<string>)
    requires !Foreign(request, snapshots)
    ensures HealthError(request, snapshots, seen) != Some(SnapshotIdentity)
  {
    if snapshots != [] {
      assert forall i | 0 <= i < |snapshots[1..]| :: snapshots[1..][i] == snapshots[i + 1];
      NeverIdentity(request, snapshots[1..], seen + {snapshots[0].candidateId});
    }
  }

  lemma {:induction false} NeverDuplicate(request: Request, before: seq<Snapshot>, snapshots: seq<Snapshot>)
    requires forall x | x in before :: Identified(request, x)
    requires !Repeated(request, before + snapshots)
    ensures HealthError(request, snapshots, set x | x in before :: x.candidateId) != Some(DuplicateSnapshot)
    decreases |snapshots|
  {
    if snapshots != [] {
      var all, first := before + snapshots, snapshots[0];
      assert all[|before|] == first;
      assert forall i | 0 <= i < |before| :: all[i] == before[i];
      if Identified(request, first) {
        assert before + [first] + snapshots[1..] == all;
        NeverDuplicate(request, before + [first], snapshots[1..]);
        assert (set x | x in before + [first] :: x.candidateId) == (set x | x in before :: x.candidateId) + {first.candidateId};
      }
    }
  }

  lemma ForeignPermutes(request: Request, a: seq<Snapshot>, b: seq<Snapshot>)
    requires multiset(a) == multiset(b)
    ensures Foreign(request, a) ==> Foreign(request, b)
  {
    Sorting.MultisetMembers(a, b);
    if i :| 0 <= i < |a| && !Identified(request, a[i]) {
      assert a[i] in b;
    }
  }

  lemma RepeatedPermutes(request: Request, a: seq<Snapshot>, b: seq<Snapshot>)
    requires multiset(a) == multiset(b)
    ensures Repeated(request, a) ==> Repeated(request, b)
  {
    Sorting.MultisetMembers(a, b);
    if i, j :| 0 <= i < |a| && 0 <= j < |a| && i != j && Identified(request, a[i]) && a[i].candidateId == a[j].candidateId {
      if a[i] == a[j] {
        Sorting.TwiceInMultiset(a, i, j);
        var m, n := Sorting.TwoPositions(b, a[i]);
        assert b[m].candidateId == b[n].candidateId;
      } else {
        assert a[i] in b && a[j] in b;
        var m :| 0 <= m < |b| && b[m] == a[i];
        var n :| 0 <= n < |b| && b[n] == a[j];
      }
    }
  }

  function ToFront(s: seq<Snapshot>, i: nat): seq<Snapshot>
    requires i < |s|
  {
    [s[i]] + s[..i] + s[i + 1..]
  }

  lemma ToFrontPermutes(s: seq<Snapshot>, i: nat)
    requires i < |s|
    ensures multiset(ToFront(s, i)) == multiset(s)
  {
    assert s == s[..i] + [s[i]] + s[i + 1..];
  }

  ghost predicate SameRefusal(request: Request, snapshots: seq<Snapshot>, other: seq<Snapshot>) {
    HealthError(request, other, {}) == HealthError(request, snapshots, {})
  }

  /** Two orders that are refused differently. */
  lemma TwoRefusals(request: Request, snapshots: seq<Snapshot>) returns (identity: seq<Snapshot>, repeat: seq<Snapshot>)
    requires Foreign(request, snapshots) && Repeated(request, snapshots)
    ensures multiset(identity) == multiset(snapshots) && HealthError(request, identity, {}) == Some(SnapshotIdentity)
    ensures multiset(repeat) == multiset(snapshots) && HealthError(request, repeat, {}) == Some(DuplicateSnapshot)
  {
    hide HealthError;
    var f :| 0 <= f < |snapshots| && !Identified(request, snapshots[f]);
    identity := ToFront(snapshots, f);
    ToFrontPermutes(snapshots, f);
    ForeignFirst(request, identity);
    var i, j :| 0 <= i < |snapshots| && 0 <= j < |snapshots| && i != j && Identified(request, snapshots[i])
                && snapshots[i].candidateId == snapshots[j].candidateId;
    repeat := PairToFront(snapshots, i, j);
    RepeatFirst(request, repeat);
  }

  lemma ForeignFirst(request: Request, s: seq<Snapshot>)
    requires s != [] && !Identified(request, s[0])
    ensures HealthError(request, s, {}) == Some(SnapshotIdentity)
  {
  }

  lemma RepeatFirst(request: Request, s: seq<Snapshot>)
    requires 2 <= |s| && Identified(request, s[0]) && s[0].candidateId == s[1].candidateId
    ensures HealthError(request, s, {}) == Some(DuplicateSnapshot)
  {
    assert s[1..][0] == s[1];
  }

  lemma PairToFront(s: seq<Snapshot>, i: nat, j: nat) returns (t: seq<Snapshot>)
    requires i < |s| && j < |s| && i != j
    ensures multiset(t) == multiset(s) && |t| == |s| && t[0] == s[i] && t[1] == s[j]
  {
    var moved := ToFront(s, j);
    ToFrontPermutes(s, j);
    var k := if i < j then i + 1 else i;
    assert moved[k] == s[i];
    t := ToFront(moved, k);
    ToFrontPermutes(moved, k);
  }

  /** Every order is refused alike, or accepted, unless a foreign snapshot meets a repeated one. */
  lemma RefusalAgreesIff(request: Request, snapshots: seq<Snapshot>)
    ensures (forall other | multiset(other) == multiset(snapshots) :: SameRefusal(request, snapshots, other))
            <==> !(Foreign(request, snapshots) && Repeated(request, snapshots))
  {
    if Foreign(request, snapshots) && Repeated(request, snapshots) {
      var identity, repeat := TwoRefusals(request, snapshots);
      assert !SameRefusal(request, snapshots, identity) || !SameRefusal(request, snapshots, repeat);
    } else {
      forall other | multiset(other) == multiset(snapshots) ensures SameRefusal(request, snapshots, other) {
        OneKindOfRefusal(request, snapshots, other);
      }
    }
  }

  lemma OneKindOfRefusal(request: Request, snapshots: seq<Snapshot>, other: seq<Snapshot>)
    requires multiset(other) == multiset(snapshots) && !(Foreign(request, snapshots) && Repeated(request, snapshots))
    ensures SameRefusal(request, snapshots, other)
  {
    P.HealthPermutes(request, snapshots, other);
    P.HealthErrorsAreRefusals(request, snapshots, {});
    P.HealthErrorsAreRefusals(request, other, {});
    if !Foreign(request, snapshots) {
      ForeignPermutes(request, other, snapshots);
      NeverIdentity(request, snapshots, {});
      NeverIdentity(request, other, {});
    } else {
      RepeatedPermutes(request, other, snapshots);
      assert [] + snapshots == snapshots && [] + other == other;
      assert (set x: Snapshot | x in [] :: x.candidateId) == {};
      NeverDuplicate(request, [], snapshots);
      NeverDuplicate(request, [], other);
    }
  }

  predicate HealthIsRead(candidates: seq<Candidate>) {
    1 <= |candidates| <= 16 && Unique(CandidateIds(candidates))
  }

  ghost predicate SameAnswer(request: Request, candidates: seq<Candidate>, candidates': seq<Candidate>,
                             snapshots: seq<Snapshot>, snapshots': seq<Snapshot>, policy: Policy)
    requires ValidInputs(candidates, snapshots, policy)
  {
    && ValidInputs(candidates', snapshots', policy)
    && Select(request, candidates', snapshots', policy) == Select(request, candidates, snapshots, policy)
  }

  /**
   The whole answer, decision or error, is the same for every permutation of candidates and of snapshots
   if and only if it is not the case that the snapshots are read and hold both a foreign and a repeated one.
   */
  lemma OrderNeverShowsIff(request: Request, candidates: seq<Candidate>, snapshots: seq<Snapshot>, policy: Policy)
    requires ValidInputs(candidates, snapshots, policy)
    ensures (forall candidates', snapshots' | multiset(candidates') == multiset(candidates) && multiset(snapshots') == multiset(snapshots) ::
               SameAnswer(request, candidates, candidates', snapshots, snapshots', policy))
            <==> !(HealthIsRead(candidates) && Foreign(request, snapshots) && Repeated(request, snapshots))
  {
    hide Select, HealthError, Unique, Foreign, Repeated;
    if HealthIsRead(candidates) && Foreign(request, snapshots) && Repeated(request, snapshots) {
      var identity, repeat := TwoRefusals(request, snapshots);
      Sorting.MultisetMembers(identity, snapshots);
      Sorting.MultisetMembers(repeat, snapshots);
      RefusalIsAnswered(request, candidates, identity, policy);
      RefusalIsAnswered(request, candidates, repeat, policy);
      assert !SameAnswer(request, candidates, candidates, snapshots, identity, policy)
          || !SameAnswer(request, candidates, candidates, snapshots, repeat, policy);
    } else {
      forall candidates', snapshots' | multiset(candidates') == multiset(candidates) && multiset(snapshots') == multiset(snapshots)
        ensures SameAnswer(request, candidates, candidates', snapshots, snapshots', policy)
      {
        PermutedAnswer(request, candidates, candidates', snapshots, snapshots', policy);
      }
    }
  }

  lemma RefusalIsAnswered(request: Request, candidates: seq<Candidate>, snapshots: seq<Snapshot>, policy: Policy)
    requires ValidInputs(candidates, snapshots, policy) && HealthIsRead(candidates)
    requires HealthError(request, snapshots, {}).Some?
    ensures Select(request, candidates, snapshots, policy) == Failure(HealthError(request, snapshots, {}).value)
  {
  }

  lemma RefusedOnlyByHealth(request: Request, candidates: seq<Candidate>, snapshots: seq<Snapshot>, policy: Policy)
    requires ValidInputs(candidates, snapshots, policy)
    requires Select(request, candidates, snapshots, policy).Failure?
    requires P.HealthRefused(Select(request, candidates, snapshots, policy).error)
    ensures HealthIsRead(candidates) && HealthError(request, snapshots, {}) == Some(Select(request, candidates, snapshots, policy).error)
  {
  }

  lemma PermutedAnswer(request: Request, candidates: seq<Candidate>, candidates': seq<Candidate>,
                       snapshots: seq<Snapshot>, snapshots': seq<Snapshot>, policy: Policy)
    requires ValidInputs(candidates, snapshots, policy)
    requires multiset(candidates') == multiset(candidates) && multiset(snapshots') == multiset(snapshots)
    requires !(HealthIsRead(candidates) && Foreign(request, snapshots) && Repeated(request, snapshots))
    ensures SameAnswer(request, candidates, candidates', snapshots, snapshots', policy)
  {
    hide Select, HealthError, Unique, Foreign, Repeated;
    Sorting.MultisetMembers(candidates', candidates);
    Sorting.MultisetMembers(snapshots', snapshots);
    P.OrderIndependent(request, candidates, candidates', snapshots, snapshots', policy);
    var r, r' := Select(request, candidates, snapshots, policy), Select(request, candidates', snapshots', policy);
    if r != r' {
      RefusedOnlyByHealth(request, candidates, snapshots, policy);
      RefusedOnlyByHealth(request, candidates', snapshots', policy);
      OneKindOfRefusal(request, snapshots, snapshots');
    }
  }
}

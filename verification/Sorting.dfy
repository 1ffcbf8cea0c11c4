/** Python's `sorted` and SQL's `ORDER BY` over a total preorder, as an insertion sort. */
module Sorting {

  ghost predicate Preorder<T(!new)>(leq: (T, T) -> bool) {
    && (forall a, b :: leq(a, b) || leq(b, a))
    && forall a, b, c :: leq(a, b) && leq(b, c) ==> leq(a, c)
  }

  ghost predicate Sorted<T>(leq: (T, T) -> bool, s: seq<T>) {
    forall i, j | 0 <= i < j < |s| :: leq(s[i], s[j])
  }

  /** Different elements are never tied. */
  ghost predicate Untied<T>(leq: (T, T) -> bool, s: seq<T>) {
    forall a, b | a in s && b in s && leq(a, b) && leq(b, a) :: a == b
  }

  function Insert<T>(leq: (T, T) -> bool, x: T, s: seq<T>): seq<T> {
    if s == [] then [x]
    else if leq(x, s[0]) then [x] + s
    else [s[0]] + Insert(leq, x, s[1..])
  }

  function Sort<T>(leq: (T, T) -> bool, s: seq<T>): seq<T> {
    if s == [] then [] else Insert(leq, s[0], Sort(leq, s[1..]))
  }

  lemma {:induction false} InsertPermutes<T>(leq: (T, T) -> bool, x: T, s: seq<T>)
    ensures multiset(Insert(leq, x, s)) == multiset(s) + multiset{x}
  {
    if s != [] && !leq(x, s[0]) {
      InsertPermutes(leq, x, s[1..]);
      assert s == [s[0]] + s[1..];
    }
  }

  lemma MultisetMembers<T>(a: seq<T>, b: seq<T>)
    requires multiset(a) == multiset(b)
    ensures |a| == |b| && forall x :: x in a <==> x in b
  {
    assert forall x :: x in multiset(a) <==> x in a;
    assert forall x :: x in multiset(b) <==> x in b;
    assert |multiset(a)| == |a| && |multiset(b)| == |b|;
  }

  lemma {:induction false} InsertSorts<T(!new)>(leq: (T, T) -> bool, x: T, s: seq<T>)
    requires Preorder(leq) && Sorted(leq, s)
    ensures Sorted(leq, Insert(leq, x, s))
  {
    if s != [] && !leq(x, s[0]) {
      InsertSorts(leq, x, s[1..]);
      var rest := Insert(leq, x, s[1..]);
      forall y | y in rest ensures leq(s[0], y) {
        InsertPermutes(leq, x, s[1..]);
        assert y in multiset(rest);
        assert y == x || y in s[1..];
      }
    }
  }

  lemma {:induction false} SortSpec<T(!new)>(leq: (T, T) -> bool, s: seq<T>)
    requires Preorder(leq)
    ensures Sorted(leq, Sort(leq, s)) && multiset(Sort(leq, s)) == multiset(s)
  {
    if s != [] {
      SortSpec(leq, s[1..]);
      InsertSorts(leq, s[0], Sort(leq, s[1..]));
      InsertPermutes(leq, s[0], Sort(leq, s[1..]));
      assert s == [s[0]] + s[1..];
    }
  }

  lemma SortMembers<T(!new)>(leq: (T, T) -> bool, s: seq<T>)
    requires Preorder(leq)
    ensures |Sort(leq, s)| == |s| && forall x :: x in Sort(leq, s) <==> x in s
  {
    SortSpec(leq, s);
    MultisetMembers(Sort(leq, s), s);
  }

  lemma FirstIsLeast<T>(leq: (T, T) -> bool, s: seq<T>, x: T)
    requires Sorted(leq, s) && x in s
    ensures x == s[0] || leq(s[0], x)
  {
    var i :| 0 <= i < |s| && s[i] == x;
  }

  /** A list sorted without ties is determined by its elements. */
  lemma {:induction false} SortedUnique<T(!new)>(leq: (T, T) -> bool, a: seq<T>, b: seq<T>)
    requires Sorted(leq, a) && Sorted(leq, b) && multiset(a) == multiset(b) && Untied(leq, a)
    ensures a == b
  {
    MultisetMembers(a, b);
    if a != [] {
      SameFirst(leq, a, b);
      DropFirst(a, b);
      UntiedTail(leq, a);
      SortedUnique(leq, a[1..], b[1..]);
      assert a == [a[0]] + a[1..] && b == [b[0]] + b[1..];
    }
  }

  lemma SameFirst<T>(leq: (T, T) -> bool, a: seq<T>, b: seq<T>)
    requires Sorted(leq, a) && Sorted(leq, b) && multiset(a) == multiset(b) && Untied(leq, a)
    requires a != [] && b != []
    ensures a[0] == b[0]
  {
    MultisetMembers(a, b);
    assert a[0] in a && b[0] in b;
    FirstIsLeast(leq, a, b[0]);
    FirstIsLeast(leq, b, a[0]);
  }

  lemma DropFirst<T>(a: seq<T>, b: seq<T>)
    requires a != [] && b != [] && a[0] == b[0] && multiset(a) == multiset(b)
    ensures multiset(a[1..]) == multiset(b[1..])
  {
    assert a == [a[0]] + a[1..] && b == [b[0]] + b[1..];
    assert multiset(a[1..]) == multiset(a) - multiset{a[0]};
    assert multiset(b[1..]) == multiset(b) - multiset{b[0]};
  }

  lemma UntiedTail<T>(leq: (T, T) -> bool, s: seq<T>)
    requires Untied(leq, s) && s != []
    ensures Untied(leq, s[1..])
  {}

  /** Sorting forgets the order of its input. */
  lemma SortOfPermutation<T(!new)>(leq: (T, T) -> bool, a: seq<T>, b: seq<T>)
    requires Preorder(leq) && multiset(a) == multiset(b) && Untied(leq, a)
    ensures Sort(leq, a) == Sort(leq, b)
  {
    SortSpec(leq, a);
    SortSpec(leq, b);
    SortMembers(leq, a);
    SortedUnique(leq, Sort(leq, a), Sort(leq, b));
  }

  /** Sorting a list already in order, without ties, changes nothing. */
  lemma SortOfSorted<T(!new)>(leq: (T, T) -> bool, s: seq<T>)
    requires Preorder(leq) && Sorted(leq, s) && Untied(leq, s)
    ensures Sort(leq, s) == s
  {
    SortSpec(leq, s);
    SortMembers(leq, s);
    SortedUnique(leq, s, Sort(leq, s));
  }

  function Filter<T>(keep: T -> bool, s: seq<T>): seq<T> {
    if s == [] then []
    else if keep(s[0]) then [s[0]] + Filter(keep, s[1..])
    else Filter(keep, s[1..])
  }

  lemma {:induction false} FilterMembers<T>(keep: T -> bool, s: seq<T>)
    ensures forall x :: x in Filter(keep, s) <==> x in s && keep(x)
    ensures |Filter(keep, s)| <= |s|
  {
    if s != [] {
      FilterMembers(keep, s[1..]);
      assert s == [s[0]] + s[1..];
    }
  }

  lemma {:induction false} FilterAppend<T>(keep: T -> bool, s: seq<T>, x: T)
    ensures Filter(keep, s + [x]) == Filter(keep, s) + if keep(x) then [x] else []
  {
    if s == [] {
      assert s + [x] == [x];
      assert Filter(keep, [x][1..]) == [];
    } else {
      FilterAppend(keep, s[1..], x);
      assert (s + [x])[0] == s[0] && (s + [x])[1..] == s[1..] + [x];
    }
  }

  lemma {:induction false} FilterConcat<T>(keep: T -> bool, a: seq<T>, b: seq<T>)
    ensures Filter(keep, a + b) == Filter(keep, a) + Filter(keep, b)
  {
    if a == [] {
      assert a + b == b;
    } else {
      assert (a + b)[0] == a[0] && (a + b)[1..] == a[1..] + b;
      FilterConcat(keep, a[1..], b);
    }
  }

  lemma {:induction false} FilterKeepsAll<T>(p: T -> bool, s: seq<T>)
    requires forall i | 0 <= i < |s| :: p(s[i])
    ensures Filter(p, s) == s
  {
    if s != [] {
      FilterKeepsAll(p, s[1..]);
    }
  }

  lemma {:induction false} FilterDropsAll<T>(p: T -> bool, s: seq<T>)
    requires forall i | 0 <= i < |s| :: !p(s[i])
    ensures Filter(p, s) == []
  {
    if s != [] {
      FilterDropsAll(p, s[1..]);
    }
  }

  lemma WithoutOne<T>(a: seq<T>, front: seq<T>, x: T, back: seq<T>)
    requires a != [] && a[0] == x && multiset(a) == multiset(front + [x] + back)
    ensures multiset(a[1..]) == multiset(front + back)
  {
    assert a == [x] + a[1..];
    assert multiset(a) == multiset{x} + multiset(a[1..]);
    assert multiset(front + [x] + back) == multiset(front + back) + multiset{x};
    assert multiset(a[1..]) == multiset(a) - multiset{x};
  }

  lemma FilterAround<T>(keep: T -> bool, front: seq<T>, x: T, back: seq<T>)
    ensures multiset(Filter(keep, front + [x] + back)) ==
            multiset(Filter(keep, front + back)) + if keep(x) then multiset{x} else multiset{}
  {
    FilterConcat(keep, front + [x], back);
    FilterAppend(keep, front, x);
    FilterConcat(keep, front, back);
  }

  lemma {:induction false} FilterMultiset<T>(keep: T -> bool, a: seq<T>, b: seq<T>)
    requires multiset(a) == multiset(b)
    ensures multiset(Filter(keep, a)) == multiset(Filter(keep, b))
    decreases |a|
  {
    MultisetMembers(a, b);
    if a != [] {
      var x := a[0];
      assert x in a;
      var i :| 0 <= i < |b| && b[i] == x;
      var front, back := b[..i], b[i + 1..];
      assert b == front + [x] + back;
      WithoutOne(a, front, x, back);
      FilterMultiset(keep, a[1..], front + back);
      FilterAround(keep, front, x, back);
    }
  }

  lemma {:induction false} FilterAbove<T>(leq: (T, T) -> bool, keep: T -> bool, x: T, s: seq<T>)
    requires forall i | 0 <= i < |s| :: leq(x, s[i])
    ensures forall i | 0 <= i < |Filter(keep, s)| :: leq(x, Filter(keep, s)[i])
  {
    if s != [] {
      FilterAbove(leq, keep, x, s[1..]);
    }
  }

  lemma {:induction false} FilterSorted<T>(leq: (T, T) -> bool, keep: T -> bool, s: seq<T>)
    requires Sorted(leq, s)
    ensures Sorted(leq, Filter(keep, s))
  {
    if s != [] {
      FilterSorted(leq, keep, s[1..]);
      FilterAbove(leq, keep, s[0], s[1..]);
    }
  }

  /** Removing elements before or after sorting is the same: the order of the others is not disturbed. */
  lemma SortFilter<T(!new)>(leq: (T, T) -> bool, keep: T -> bool, s: seq<T>)
    requires Preorder(leq) && Untied(leq, s)
    ensures Filter(keep, Sort(leq, s)) == Sort(leq, Filter(keep, s))
  {
    SortSpec(leq, s);
    FilterSorted(leq, keep, Sort(leq, s));
    SortSpec(leq, Filter(keep, s));
    FilterMultiset(keep, Sort(leq, s), s);
    FilterMembers(keep, s);
    SortMembers(leq, Filter(keep, s));
    SortedUnique(leq, Sort(leq, Filter(keep, s)), Filter(keep, Sort(leq, s)));
  }

  lemma TwiceInMultiset<T>(s: seq<T>, i: nat, j: nat)
    requires i < |s| && j < |s| && i != j && s[i] == s[j]
    ensures multiset(s)[s[i]] >= 2
  {
    var m, n := if i < j then i else j, if i < j then j else i;
    assert s == s[..m + 1] + s[m + 1..];
    assert s[..m + 1][m] == s[i] && s[m + 1..][n - m - 1] == s[i];
  }

  lemma TwoPositions<T>(s: seq<T>, x: T) returns (i: nat, j: nat)
    requires multiset(s)[x] >= 2
    ensures i < j < |s| && s[i] == s[j] == x
  {
    var m: nat :| m < |s| && s[m] == x;
    assert s == s[..m] + [x] + s[m + 1..];
    if x in s[..m] {
      var n: nat :| n < m && s[..m][n] == x;
      i, j := n, m;
    } else {
      var n: nat :| n < |s| - m - 1 && s[m + 1..][n] == x;
      i, j := m, m + 1 + n;
    }
  }

  /** No element occurs twice. */
  ghost predicate Single<T>(s: seq<T>) {
    forall i, j | 0 <= i < j < |s| :: s[i] != s[j]
  }

  lemma {:induction false} SingleIsOnce<T>(s: seq<T>, x: T)
    requires Single(s)
    ensures multiset(s)[x] <= 1
  {
    if s != [] {
      SingleIsOnce(s[1..], x);
      assert s == [s[0]] + s[1..];
      assert x == s[0] ==> x !in s[1..];
    }
  }

  lemma {:induction false} FilterSingle<T>(keep: T -> bool, s: seq<T>)
    requires Single(s)
    ensures Single(Filter(keep, s))
  {
    if s != [] {
      FilterSingle(keep, s[1..]);
      FilterMembers(keep, s[1..]);
      assert s[0] !in s[1..];
    }
  }

  lemma SortSingle<T(!new)>(leq: (T, T) -> bool, s: seq<T>)
    requires Preorder(leq) && Single(s)
    ensures Single(Sort(leq, s))
  {
    SortSpec(leq, s);
    var sorted := Sort(leq, s);
    forall i, j | 0 <= i < j < |sorted| ensures sorted[i] != sorted[j] {
      SingleIsOnce(s, sorted[i]);
      if sorted[i] == sorted[j] {
        TwiceInMultiset(sorted, i, j);
      }
    }
  }
}

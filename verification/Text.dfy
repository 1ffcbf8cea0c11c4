/** The order in which both SQLite and Python compare text: code point by code point. */
module Text {

  predicate Leq(a: string, b: string) {
    if a == [] then true
    else if b == [] then false
    else if a[0] != b[0] then a[0] < b[0]
    else Leq(a[1..], b[1..])
  }

  predicate FirstDifference(a: string, b: string, n: nat) {
    n < |a| && n < |b| && a[..n] == b[..n] && a[n] != b[n]
  }

  predicate Space(c: char) {
    c == ' ' || c == '\t' || c == '\n' || c == '\r'
  }

  /**
   Model fields are stripped before they are validated, but their digest is taken before, so a value
   with surrounding white space never passes.
   */
  predicate Trimmed(s: string) {
    s == [] || (!Space(s[0]) && !Space(s[|s| - 1]))
  }

  /** No white space at either end. */
  lemma TrimmedMeans(s: string)
    ensures Trimmed(s) <==> s == "" || (s[0] !in " \t\n\r" && s[|s| - 1] !in " \t\n\r")
  {
    var blanks := " \t\n\r";
    assert blanks[0] == ' ' && blanks[1] == '\t' && blanks[2] == '\n' && blanks[3] == '\r';
  }

  /** Shorter first if one text continues the other, and otherwise by the first character that differs. */
  lemma {:induction false} LeqMeans(a: string, b: string)
    ensures Leq(a, b) <==> a <= b || exists n: nat :: FirstDifference(a, b, n) && a[n] < b[n]
  {
    if a == [] || b == [] {
    } else if a[0] != b[0] {
      assert FirstDifference(a, b, 0);
      if n: nat :| FirstDifference(a, b, n) && 0 < n {
        SameUpToDifference(a, b, n);
      }
    } else {
      LeqMeans(a[1..], b[1..]);
      assert a <= b <==> a[1..] <= b[1..];
      forall n: nat ensures FirstDifference(a, b, n + 1) <==> FirstDifference(a[1..], b[1..], n) {
        DifferenceShifts(a, b, n);
      }
      if n: nat :| FirstDifference(a, b, n) && a[n] < b[n] {
        assert FirstDifference(a, b, n - 1 + 1);
        assert a[1..][n - 1] == a[n] && b[1..][n - 1] == b[n];
      }
      if n: nat :| FirstDifference(a[1..], b[1..], n) && a[1..][n] < b[1..][n] {
        assert FirstDifference(a, b, n + 1) && a[n + 1] < b[n + 1];
      }
    }
  }

  lemma SameUpToDifference(a: string, b: string, n: nat)
    requires FirstDifference(a, b, n) && 0 < n
    ensures a[0] == b[0]
  {
    assert a[..n][0] == a[0] && b[..n][0] == b[0];
  }

  lemma DifferenceShifts(a: string, b: string, n: nat)
    requires a != [] && b != [] && a[0] == b[0]
    ensures FirstDifference(a, b, n + 1) <==> FirstDifference(a[1..], b[1..], n)
  {
    if n + 1 < |a| && n + 1 < |b| {
      assert a[..n + 1] == [a[0]] + a[1..][..n] && b[..n + 1] == [b[0]] + b[1..][..n];
      assert a[..n + 1][1..] == a[1..][..n] && b[..n + 1][1..] == b[1..][..n];
    }
  }

  lemma {:induction false} Total(a: string, b: string)
    ensures Leq(a, b) || Leq(b, a)
  {
    if a != [] && b != [] && a[0] == b[0] {
      Total(a[1..], b[1..]);
    }
  }

  lemma {:induction false} Antisymmetric(a: string, b: string)
    requires Leq(a, b) && Leq(b, a)
    ensures a == b
  {
    if a != [] && b != [] {
      Antisymmetric(a[1..], b[1..]);
      assert a == [a[0]] + a[1..] && b == [b[0]] + b[1..];
    }
  }

  lemma {:induction false} Transitive(a: string, b: string, c: string)
    requires Leq(a, b) && Leq(b, c)
    ensures Leq(a, c)
  {
    if a != [] && b != [] && c != [] && a[0] == b[0] == c[0] {
      Transitive(a[1..], b[1..], c[1..]);
    }
  }

  /** `ORDER BY id LIMIT 1` over a non-empty set of distinct identifiers. */
  ghost predicate IsLeast(id: string, ids: set<string>) {
    id in ids && forall other | other in ids :: Leq(id, other)
  }

  lemma {:induction false} LeastExists(ids: set<string>)
    requires ids != {}
    ensures exists id :: IsLeast(id, ids)
  {
    var some :| some in ids;
    if ids == {some} {
      Total(some, some);
      assert IsLeast(some, ids);
    } else {
      var rest := ids - {some};
      LeastExists(rest);
      var least :| IsLeast(least, rest);
      Total(some, least);
      var winner := if Leq(some, least) then some else least;
      forall other | other in ids ensures Leq(winner, other) {
        Total(some, some);
        if other != some && winner == some { Transitive(some, least, other); }
      }
      assert IsLeast(winner, ids);
    }
  }

  lemma LeastUnique(a: string, b: string, ids: set<string>)
    requires IsLeast(a, ids) && IsLeast(b, ids)
    ensures a == b
  {
    Antisymmetric(a, b);
  }
}

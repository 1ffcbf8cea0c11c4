/**
 Which paths a navigate action accepts: origin-relative ones without a fragment, a backslash or a
 parent segment, however it is spelt.
 */
module NavigationPath {

  function HexValue(c: char): int {
    if '0' <= c <= '9' then c as int - '0' as int
    else if 'a' <= c <= 'f' then c as int - 'a' as int + 10
    else if 'A' <= c <= 'F' then c as int - 'A' as int + 10
    else -1
  }

  predicate Escape(s: string) {
    3 <= |s| && s[0] == '%' && 0 <= HexValue(s[1]) && 0 <= HexValue(s[2])
  }

  /** Stands for whatever text bytes above 127 decode to; it is never a dot, a slash or a backslash. */
  const OTHER := '\U{FFFD}'

  function Unescaped(s: string): char
    requires Escape(s)
  {
    var code := HexValue(s[1]) * 16 + HexValue(s[2]);
    if code < 128 then code as char else OTHER
  }

  function Decode(s: string): string {
    if s == [] then []
    else if Escape(s) then [Unescaped(s)] + Decode(s[3..])
    else [s[0]] + Decode(s[1..])
  }

  /** The text before the query and the fragment. */
  function PathPart(s: string): string {
    if s == [] || s[0] == '?' || s[0] == '#' then [] else [s[0]] + PathPart(s[1..])
  }

  function Fragment(s: string): string {
    if s == [] then [] else if s[0] == '#' then s[1..] else Fragment(s[1..])
  }

  predicate Divides(c: char) {
    c == '/' || c == '\\'
  }

  function Segments(s: string): (r: seq<string>)
    ensures r != []
  {
    if s == [] then [[]]
    else
      var rest := Segments(s[1..]);
      if Divides(s[0]) then [[]] + rest else [[s[0]] + rest[0]] + rest[1..]
  }

  predicate Acceptable(path: string) {
    && path != [] && path[0] == '/' && (forall i | 0 <= i < |path| :: ' ' < path[i])
    && (2 <= |path| ==> path[1] != '/')
    && Fragment(path) == []
    && ".." !in Segments(Decode(PathPart(path)))
    && '\\' !in path
  }

  // ---------------------------------------------------------------- parent segments, however spelt

  predicate OnlyPath(s: string) {
    forall i | 0 <= i < |s| :: s[i] != '?' && s[i] != '#'
  }

  lemma {:induction false} PathPartAppend(a: string, b: string)
    requires OnlyPath(a)
    ensures PathPart(a + b) == a + PathPart(b)
  {
    if a == [] {
      assert a + b == b;
    } else {
      assert (a + b)[1..] == a[1..] + b;
      PathPartAppend(a[1..], b);
    }
  }

  lemma NothingDecodes()
    ensures Decode([]) == []
  {
  }

  lemma DecodeStep(s: string)
    requires s != []
    ensures Decode(s) == if Escape(s) then [Unescaped(s)] + Decode(s[3..]) else [s[0]] + Decode(s[1..])
  {
  }

  lemma EscapeStaysInside(a: string, b: string)
    requires a != [] && (b != [] ==> HexValue(b[0]) < 0)
    ensures Escape(a + b) <==> Escape(a)
    ensures Escape(a) ==> 3 <= |a| && Unescaped(a + b) == Unescaped(a) && (a + b)[3..] == a[3..] + b
    ensures (a + b)[1..] == a[1..] + b && (a + b)[0] == a[0]
  {
    if |a| <= 2 && b != [] {
      assert (a + b)[|a|] == b[0];
    }
    if 3 <= |a| {
      assert (a + b)[1] == a[1] && (a + b)[2] == a[2];
    }
  }

  /** No escape reaches over a character that is not a hexadecimal digit. */
  lemma {:induction false} DecodeAppend(a: string, b: string)
    requires b != [] ==> HexValue(b[0]) < 0
    ensures Decode(a + b) == Decode(a) + Decode(b)
  {
    hide HexValue, Unescaped, Escape, Decode;
    if a == [] {
      assert a + b == b;
      NothingDecodes();
    } else {
      EscapeStaysInside(a, b);
      DecodeStep(a);
      DecodeStep(a + b);
      DecodeAppend(if Escape(a) then a[3..] else a[1..], b);
    }
  }

  predicate DividerText(s: string) {
    |Decode(s)| == 1 && Divides(Decode(s)[0])
  }

  /** One divider, as itself or as an escape, decodes by itself whatever follows it. */
  lemma DividerDecodes(divider: string, rest: string)
    requires DividerText(divider)
    ensures Decode(divider + rest) == Decode(divider) + Decode(rest)
    ensures HexValue(divider[0]) < 0
  {
    var whole := divider + rest;
    if Escape(divider) {
      assert Decode(divider)[1..] == Decode(divider[3..]);
      assert whole[3..] == rest && Escape(whole) && Unescaped(whole) == Unescaped(divider);
    } else {
      assert Decode(divider)[1..] == Decode(divider[1..]);
      assert whole[1..] == rest && whole[0] == divider[0];
    }
  }

  /** `word` stands alone at `i`: between dividers or the ends of the text. */
  predicate StandsAt(s: string, word: string, i: nat) {
    && i + |word| <= |s| && s[i..i + |word|] == word
    && (i == 0 || Divides(s[i - 1])) && (i + |word| == |s| || Divides(s[i + |word|]))
  }

  predicate Undivided(word: string) {
    forall i | 0 <= i < |word| :: !Divides(word[i])
  }

  lemma {:induction false} FirstSegment(s: string)
    ensures var first := Segments(s)[0]; first <= s && (first == s || Divides(s[|first|])) && Undivided(first)
  {
    if s != [] && !Divides(s[0]) {
      FirstSegment(s[1..]);
    }
  }

  lemma {:induction false} SegmentIsThere(s: string, k: nat) returns (i: nat)
    requires k < |Segments(s)|
    ensures StandsAt(s, Segments(s)[k], i) && (0 < k ==> 0 < i)
  {
    if k == 0 {
      FirstSegment(s);
      return 0;
    }
    var j := SegmentIsThere(s[1..], if Divides(s[0]) then k - 1 else k);
    StandsShifted(s, Segments(s)[k], j);
    return j + 1;
  }

  lemma StandsShifted(s: string, word: string, i: nat)
    requires s != []
    ensures StandsAt(s[1..], word, i) && (i == 0 ==> Divides(s[0])) <==> StandsAt(s, word, i + 1)
  {
    if i + |word| < |s| {
      assert s[1..][i..i + |word|] == s[i + 1..i + 1 + |word|];
    }
  }

  lemma InsideWord(s: string, word: string)
    requires word <= s && Undivided(word)
    ensures forall n | 0 <= n < |word| :: !Divides(s[n])
  {
    forall n | 0 <= n < |word| ensures !Divides(s[n]) {
      assert word[n] == s[n];
    }
  }

  /** What stands alone at the start is the first segment. */
  lemma WordIsFirst(s: string, word: string)
    requires StandsAt(s, word, 0) && Undivided(word)
    ensures Segments(s)[0] == word
  {
    FirstSegment(s);
    var first := Segments(s)[0];
    InsideWord(s, first);
    InsideWord(s, word);
    assert |word| == |first|;
  }

  lemma {:induction false} WordIsSegment(s: string, word: string, i: nat)
    requires StandsAt(s, word, i) && Undivided(word)
    ensures word in Segments(s) && (0 < i ==> word in Segments(s)[1..])
  {
    if i == 0 {
      WordIsFirst(s, word);
    } else {
      StandsShifted(s, word, i - 1);
      WordIsSegment(s[1..], word, i - 1);
    }
  }

  /** The segments of a text are exactly the words that stand alone in it, whichever divider they stand between. */
  lemma SegmentIff(s: string, word: string)
    requires Undivided(word)
    ensures word in Segments(s) <==> exists i :: StandsAt(s, word, i)
  {
    if word in Segments(s) {
      var k :| 0 <= k < |Segments(s)| && Segments(s)[k] == word;
      var i := SegmentIsThere(s, k);
    }
    if i :| StandsAt(s, word, i) {
      WordIsSegment(s, word, i);
    }
  }

  lemma SpellingStarts(s: string)
    requires Decode(s) != [] && HexValue(Decode(s)[0]) < 0
    ensures s != [] && HexValue(s[0]) < 0
  {
  }

  /** Decoded text of `front`, a divider, a spelling of two dots and whatever follows. */
  lemma ParentDecoded(front: string, divider: string, dots: string, rest: string)
    requires DividerText(divider) && Decode(dots) == ".."
    requires rest == [] || exists d, back :: DividerText(d) && rest == d + back
    ensures exists i :: StandsAt(Decode(front + (divider + (dots + rest))), "..", i)
  {
    hide Decode;
    if d, back :| DividerText(d) && rest == d + back {
      SpellingStarts(d);
      DividerDecodes(d, back);
    }
    SpellingStarts(dots);
    SpellingStarts(divider);
    DecodeAppend(dots, rest);
    DividerDecodes(divider, dots + rest);
    DecodeAppend(front, divider + (dots + rest));
    var text := Decode(front + (divider + (dots + rest)));
    var i := |Decode(front)| + 1;
    assert text == Decode(front) + (Decode(divider) + (".." + Decode(rest)));
    assert rest == [] ==> Decode(rest) == [] by { NothingDecodes(); }
    assert text[i - 1] == Decode(divider)[0] && text[i] == '.' && text[i + 1] == '.';
    assert rest != [] ==> text[i + 2] == Decode(rest)[0] && Divides(Decode(rest)[0]);
    assert text[i..i + 2] == "..";
    assert StandsAt(text, "..", i);
  }

  /**
   A parent segment anywhere before the query is refused in every spelling that decodes to it, between
   dividers in every spelling of theirs: a slash, `%2f`, `%5c`, or a backslash.
   */
  lemma ParentSegmentRefused(front: string, divider: string, dots: string, next: string, back: string)
    requires OnlyPath(front) && OnlyPath(divider) && OnlyPath(dots) && OnlyPath(next)
    requires DividerText(divider) && Decode(dots) == ".." && DividerText(next)
    ensures !Acceptable(front + divider + dots) && !Acceptable(front + divider + dots + next + back)
  {
    hide Decode, Segments;
    var upto := front + divider + dots;
    PathPartAppend(upto, []);
    assert upto + [] == upto == front + (divider + (dots + []));
    ParentDecoded(front, divider, dots, []);
    SegmentIff(Decode(upto), "..");
    PathPartAppend(upto + next, back);
    var text := upto + next + PathPart(back);
    assert text == front + (divider + (dots + (next + PathPart(back))));
    ParentDecoded(front, divider, dots, next + PathPart(back));
    SegmentIff(Decode(text), "..");
  }

  /** The digits, with either case for the letters; nothing else is one. */
  lemma HexDigit(c: char, n: nat)
    requires n < 16
    ensures HexValue(c) == n <==> c == "0123456789abcdef"[n] || c == "0123456789ABCDEF"[n]
    ensures HexValue(c) < 16
  {}

  /** An escape stands for the character whose code its two digits are; one of a byte above 127 for none of ours. */
  lemma EscapeDecodes(high: char, low: char, rest: string)
    requires 0 <= HexValue(high) && 0 <= HexValue(low)
    ensures HexValue(high) < 8 ==>
              Decode(['%', high, low] + rest) == [(HexValue(high) * 16 + HexValue(low)) as char] + Decode(rest)
    ensures 8 <= HexValue(high) ==> Decode(['%', high, low] + rest) == [OTHER] + Decode(rest)
  {
    var s := ['%', high, low] + rest;
    assert s[3..] == rest && Escape(s);
  }

  predicate Ends(c: char) {
    c == '?' || c == '#'
  }

  lemma {:induction false} PathPartMeans(s: string)
    ensures PathPart(s) <= s && (forall i | 0 <= i < |PathPart(s)| :: !Ends(s[i]))
    ensures PathPart(s) == s || Ends(s[|PathPart(s)|])
  {
    if s != [] && !Ends(s[0]) {
      PathPartMeans(s[1..]);
      assert forall i | 0 < i < |s| :: s[i] == s[1..][i - 1];
    }
  }

  /** A fragment is missing or empty if no hash comes before the last character. */
  lemma {:induction false} FragmentMeans(s: string)
    ensures Fragment(s) == [] <==> forall i | 0 <= i < |s| - 1 :: s[i] != '#'
  {
    if s != [] && s[0] != '#' {
      FragmentMeans(s[1..]);
      assert forall i | 0 < i < |s| :: s[i] == s[1..][i - 1];
      assert forall i | 0 <= i < |s| - 1 :: s[1..][i] == s[i + 1];
    }
  }

  /**
   What a navigate action accepts: text from the root of the origin without blanks, backslashes or a filled
   fragment, in whose decoded path, up to the query, two dots nowhere stand alone.
   */
  lemma AcceptableIff(path: string)
    ensures Acceptable(path) <==>
              && path != [] && path[0] == '/' && (|path| > 1 ==> path[1] != '/')
              && (forall i | 0 <= i < |path| :: path[i] > ' ' && path[i] != '\\')
              && (forall i | 0 <= i < |path| - 1 :: path[i] != '#')
              && !exists i: nat :: StandsAt(Decode(PathPart(path)), "..", i)
  {
    hide Decode, PathPart, Segments, Fragment, StandsAt;
    FragmentMeans(path);
    SegmentIff(Decode(PathPart(path)), "..");
    assert ".." in Segments(Decode(PathPart(path))) <==> exists i: nat :: StandsAt(Decode(PathPart(path)), "..", i);
    assert (forall i | 0 <= i < |path| :: path[i] > ' ' && path[i] != '\\') <==> ((forall i | 0 <= i < |path| :: ' ' < path[i]) && '\\' !in path);
  }

  lemma DividerSpellings()
    ensures DividerText("/") && DividerText("%2f") && DividerText("%2F") && DividerText("%5c") && DividerText("%5C")
  {
    assert "%2f"[3..] == "" && "%2F"[3..] == "" && "%5c"[3..] == "" && "%5C"[3..] == "";
  }

  /** Four refused paths and two accepted ones; an empty fragment is not held against a path. */
  lemma PathExamples()
    ensures !Acceptable("tracking") && !Acceptable("//host") && !Acceptable("/a b") && !Acceptable("/a#b")
    ensures Acceptable("/a") && Acceptable("/a#")
  {
    assert "//host"[1] == '/' && "/a b"[2] == ' ';
    assert "/a#b"[1..] == "a#b" && "a#b"[1..] == "#b" && "#b"[1..] == "b";
    assert "/a"[1..] == "a" && "a"[1..] == "";
    assert "/a#"[1..] == "a#" && "a#"[1..] == "#" && "#"[1..] == "";
    assert PathPart("/a") == "/a" && Decode("/a") == "/a";
    assert PathPart("/a#") == "/a";
    assert Segments("a") == ["a"];
    assert Segments("/a") == ["", "a"];
  }
}

/**
 Printing and tokenizing are inverse: a printer that puts a release character in front of every
 separator, release and terminator inside a value, and may break lines between segments.
 */
module EdifactRoundTrip {
  import opened Wrappers
  import opened Edifact

  predicate Special(c: char, s: Separators) {
    c == s.element || c == s.release || c == s.terminator
  }

  function Escape(value: string, s: Separators): string {
    if value == [] then []
    else (if Special(value[0], s) then [s.release, value[0]] else [value[0]]) + Escape(value[1..], s)
  }

  function PrintElements(elements: seq<string>, s: Separators): string {
    if elements == [] then []
    else [s.element] + Escape(elements[0], s) + PrintElements(elements[1..], s)
  }

  /** A segment as it stands on the wire, without its terminator. */
  function PrintRaw(segment: Segment, s: Separators): string {
    Escape(segment.tag, s) + PrintElements(segment.elements, s)
  }

  /** `breaks[i]` is written before segment `i`, the last one after the final terminator. */
  function Print(segments: seq<Segment>, breaks: seq<string>, s: Separators): string
    requires |breaks| == |segments| + 1
  {
    if segments == [] then breaks[0]
    else breaks[0] + PrintRaw(segments[0], s) + [s.terminator] + Print(segments[1..], breaks[1..], s)
  }

  predicate OnlyBreaks(text: string) {
    forall i | 0 <= i < |text| :: LineBreak(text[i])
  }

  predicate Printable(segment: Segment, s: Separators) {
    && NamePattern(segment.tag) && KnownTag(segment.tag, PrintRaw(segment, s))
    && |segment.elements| <= MAX_ELEMENTS
    && (forall i | 0 <= i < |segment.elements| :: |segment.elements[i]| <= MAX_ELEMENT_BYTES)
    && segment.size == |PrintRaw(segment, s)| + 1
  }

  /** The three separators the tokenizer uses differ; any separators UNA announces do. */
  predicate Usable(s: Separators) {
    s.element != s.release && s.element != s.terminator && s.release != s.terminator
  }

  /** Nothing the tokenizer would take for a line break between segments stands before the tag. */
  predicate Startable(segment: Segment, s: Separators) {
    LineBreak(s.release) && segment.tag != [] ==> !Special(segment.tag[0], s)
  }

  // ---------------------------------------------------------------- elements

  lemma {:induction false} ElementsSkipsEscaped(value: string, rest: string, s: Separators, current: string)
    requires Usable(s)
    ensures Elements(Escape(value, s) + rest, s.element, s.release, current, false)
         == Elements(rest, s.element, s.release, current + value, false)
  {
    if value == [] {
      assert Escape(value, s) + rest == rest && current + value == current;
    } else {
      var c, more := value[0], Escape(value[1..], s) + rest;
      assert current + value == (current + [c]) + value[1..];
      ElementsSkipsEscaped(value[1..], rest, s, current + [c]);
      var text := Escape(value, s) + rest;
      if Special(c, s) {
        assert text == [s.release, c] + more;
        assert text[1..] == [c] + more && text[1..][1..] == more;
      } else {
        assert text == [c] + more && text[1..] == more;
      }
    }
  }

  lemma {:induction false} ElementsOfPrinted(elements: seq<string>, s: Separators, current: string)
    requires Usable(s)
    ensures Elements(PrintElements(elements, s), s.element, s.release, current, false) == Some([current] + elements)
  {
    if elements == [] {
      assert [current] + elements == [current];
    } else {
      var rest := Escape(elements[0], s) + PrintElements(elements[1..], s);
      assert PrintElements(elements, s) == [s.element] + rest;
      assert PrintElements(elements, s)[1..] == rest;
      ElementsSkipsEscaped(elements[0], PrintElements(elements[1..], s), s, []);
      assert [] + elements[0] == elements[0];
      ElementsOfPrinted(elements[1..], s, elements[0]);
      assert [current] + ([elements[0]] + elements[1..]) == [current] + elements;
    }
  }

  lemma ReadPrinted(segment: Segment, s: Separators)
    requires Usable(s) && Printable(segment, s)
    ensures ReadSegment(PrintRaw(segment, s), s) == Success(segment)
  {
    ElementsSkipsEscaped(segment.tag, PrintElements(segment.elements, s), s, []);
    assert [] + segment.tag == segment.tag;
    ElementsOfPrinted(segment.elements, s, segment.tag);
    assert ([segment.tag] + segment.elements)[1..] == segment.elements;
  }

  // ---------------------------------------------------------------- text that needs no release

  predicate Plain(text: string, s: Separators) {
    forall i | 0 <= i < |text| :: !Special(text[i], s)
  }

  lemma {:induction false} PlainText(text: string, s: Separators)
    requires Plain(text, s)
    ensures Escape(text, s) == text
  {
    if text != [] {
      PlainText(text[1..], s);
    }
  }

  function ElementsLength(elements: seq<string>): nat {
    if elements == [] then 0 else 1 + |elements[0]| + ElementsLength(elements[1..])
  }

  lemma {:induction false} PlainElements(elements: seq<string>, s: Separators)
    requires forall i | 0 <= i < |elements| :: Plain(elements[i], s)
    ensures |PrintElements(elements, s)| == ElementsLength(elements)
  {
    if elements != [] {
      PlainText(elements[0], s);
      PlainElements(elements[1..], s);
    }
  }

  lemma PlainLength(segment: Segment, s: Separators)
    requires Plain(segment.tag, s) && forall i | 0 <= i < |segment.elements| :: Plain(segment.elements[i], s)
    ensures |PrintRaw(segment, s)| == |segment.tag| + ElementsLength(segment.elements)
  {
    PlainText(segment.tag, s);
    PlainElements(segment.elements, s);
  }

  lemma PrintsPlainly(tag: string, elements: seq<string>, s: Separators)
    requires NamePattern(tag) && (EnvelopeTag(tag) || !("UN" <= tag)) && Plain(tag, s) && |elements| <= MAX_ELEMENTS
    requires forall i | 0 <= i < |elements| :: Plain(elements[i], s) && |elements[i]| <= MAX_ELEMENT_BYTES
    ensures Printable(Segment(tag, elements, |tag| + ElementsLength(elements) + 1), s)
  {
    PlainLength(Segment(tag, elements, |tag| + ElementsLength(elements) + 1), s);
  }

  lemma LengthOfTwo(a: string, b: string)
    ensures ElementsLength([a, b]) == 2 + |a| + |b|
  {
    assert [b][1..] == [] && ElementsLength([b]) == 1 + |b|;
    assert [a, b][1..] == [b];
  }

  // ---------------------------------------------------------------- the closed vocabulary

  /** With separators other than U, N and A, the wire begins with UNA exactly when the tag does. */
  lemma RawStartsWithUna(segment: Segment, s: Separators)
    requires Usable(s) && Plain("UNA", s) && "UN" <= segment.tag
    ensures "UNA" <= PrintRaw(segment, s) <==> "UNA" <= segment.tag
  {
    var tag, raw, after := segment.tag, PrintRaw(segment, s), Escape(segment.tag[2..], s);
    assert "UNA"[0] == 'U' && "UNA"[1] == 'N' && "UNA"[2] == 'A';
    assert !Special('U', s) && !Special('N', s) && !Special('A', s);
    assert Escape(tag[1..], s) == ['N'] + Escape(tag[1..][1..], s) && tag[1..][1..] == tag[2..];
    assert Escape(tag, s) == ['U', 'N'] + after;
    if 2 < |tag| {
      assert raw[2] == if Special(tag[2], s) then s.release else tag[2];
    } else if segment.elements != [] {
      assert raw[2] == s.element;
    }
  }

  /**
   Tags beginning with UN are read exactly if they are the four envelope tags or stand in a raw segment
   that begins with UNA, which is no service string any more after the start of the document.
   */
  lemma ControlTagAcceptedIff(segment: Segment, s: Separators)
    requires Usable(s) && NamePattern(segment.tag) && "UN" <= segment.tag
    requires |segment.elements| <= MAX_ELEMENTS
    requires forall i | 0 <= i < |segment.elements| :: |segment.elements[i]| <= MAX_ELEMENT_BYTES
    ensures var r := ReadSegment(PrintRaw(segment, s), s);
            && (r.Success? <==> EnvelopeTag(segment.tag) || "UNA" <= PrintRaw(segment, s))
            && (r.Failure? ==> r.error.UnknownEnvelopeSegment?)
    ensures Plain("UNA", s) ==>
              (ReadSegment(PrintRaw(segment, s), s).Success? <==> EnvelopeTag(segment.tag) || "UNA" <= segment.tag)
  {
    ElementsSkipsEscaped(segment.tag, PrintElements(segment.elements, s), s, []);
    assert [] + segment.tag == segment.tag;
    ElementsOfPrinted(segment.elements, s, segment.tag);
    assert ([segment.tag] + segment.elements)[1..] == segment.elements;
    if Plain("UNA", s) {
      RawStartsWithUna(segment, s);
    }
  }

  lemma BareSegment(tag: string, s: Separators)
    requires Plain(tag, s)
    ensures PrintRaw(Segment(tag, [], |tag| + 1), s) == tag
  {
    PlainText(tag, s);
  }

  /** UNS is refused where UNAS, equally unknown, is read. */
  lemma ControlTagExamples()
    ensures ReadSegment("UNAS", DEFAULT_SEPARATORS) == Success(Segment("UNAS", [], 5))
    ensures ReadSegment("UNS", DEFAULT_SEPARATORS) == Failure(UnknownEnvelopeSegment)
  {
    hide ReadSegment, PrintRaw;
    var s := DEFAULT_SEPARATORS;
    BareSegment("UNAS", s);
    ReadPrinted(Segment("UNAS", [], 5), s);
    BareSegment("UNS", s);
    assert "UNS"[2] == 'S' && "UNA"[2] == 'A';
    ControlTagAcceptedIff(Segment("UNS", [], 4), s);
  }

  // ---------------------------------------------------------------- segments

  lemma {:induction false} ScanSkipsEscaped(value: string, rest: string, s: Separators, current: string)
    requires Usable(s)
    requires current != [] || value == [] || !LineBreak(if Special(value[0], s) then s.release else value[0])
    ensures Scan(Escape(value, s) + rest, s.release, s.terminator, current, false)
         == Scan(rest, s.release, s.terminator, current + Escape(value, s), false)
  {
    if value == [] {
      assert Escape(value, s) + rest == rest && current + Escape(value, s) == current;
    } else {
      var c, more := value[0], Escape(value[1..], s) + rest;
      var text := Escape(value, s) + rest;
      if Special(c, s) {
        assert text == [s.release, c] + more;
        assert text[1..] == [c] + more && text[1..][1..] == more;
        assert current + Escape(value, s) == (current + [s.release] + [c]) + Escape(value[1..], s);
        ScanSkipsEscaped(value[1..], rest, s, current + [s.release] + [c]);
      } else {
        assert text == [c] + more && text[1..] == more;
        assert current + Escape(value, s) == (current + [c]) + Escape(value[1..], s);
        ScanSkipsEscaped(value[1..], rest, s, current + [c]);
      }
    }
  }

  lemma {:induction false} ScanSkipsElements(elements: seq<string>, rest: string, s: Separators, current: string)
    requires Usable(s) && current != []
    ensures Scan(PrintElements(elements, s) + rest, s.release, s.terminator, current, false)
         == Scan(rest, s.release, s.terminator, current + PrintElements(elements, s), false)
  {
    if elements == [] {
      assert PrintElements(elements, s) + rest == rest && current + PrintElements(elements, s) == current;
    } else {
      var value, tail := Escape(elements[0], s), PrintElements(elements[1..], s);
      var text := PrintElements(elements, s) + rest;
      assert text == [s.element] + (value + (tail + rest)) && text[1..] == value + (tail + rest);
      ScanSkipsEscaped(elements[0], tail + rest, s, current + [s.element]);
      ScanSkipsElements(elements[1..], rest, s, current + [s.element] + value);
      assert current + PrintElements(elements, s) == (current + [s.element] + value) + tail;
    }
  }

  lemma {:induction false} ScanSkipsBreaks(breaks: string, rest: string, release: char, terminator: char)
    requires OnlyBreaks(breaks)
    ensures Scan(breaks + rest, release, terminator, [], false) == Scan(rest, release, terminator, [], false)
  {
    if breaks == [] {
      assert breaks + rest == rest;
    } else {
      assert (breaks + rest)[1..] == breaks[1..] + rest;
      ScanSkipsBreaks(breaks[1..], rest, release, terminator);
    }
  }

  lemma EscapeNonEmpty(value: string, s: Separators)
    requires value != []
    ensures Escape(value, s) != []
  {}

  lemma ScanOneSegment(segment: Segment, rest: string, s: Separators)
    requires Usable(s) && NamePattern(segment.tag) && Startable(segment, s)
    ensures Scan(PrintRaw(segment, s) + [s.terminator] + rest, s.release, s.terminator, [], false)
         == var more := Scan(rest, s.release, s.terminator, [], false);
            more.(raws := [PrintRaw(segment, s)] + more.raws)
  {
    var tag, tail := Escape(segment.tag, s), PrintElements(segment.elements, s);
    var after := [s.terminator] + rest;
    assert PrintRaw(segment, s) + [s.terminator] + rest == tag + (tail + after);
    ScanSkipsEscaped(segment.tag, tail + after, s, []);
    EscapeNonEmpty(segment.tag, s);
    assert [] + tag == tag;
    ScanSkipsElements(segment.elements, after, s, tag);
    assert after[0] == s.terminator && after[1..] == rest;
  }

  function PrintRaws(segments: seq<Segment>, s: Separators): seq<string> {
    if segments == [] then [] else [PrintRaw(segments[0], s)] + PrintRaws(segments[1..], s)
  }

  lemma {:induction false} ScanPrinted(segments: seq<Segment>, breaks: seq<string>, s: Separators)
    requires Usable(s) && |breaks| == |segments| + 1
    requires forall i | 0 <= i < |segments| :: NamePattern(segments[i].tag) && Startable(segments[i], s)
    requires forall i | 0 <= i < |breaks| :: OnlyBreaks(breaks[i])
    ensures Scan(Print(segments, breaks, s), s.release, s.terminator, [], false)
         == Scanned(PrintRaws(segments, s), [], false)
  {
    if segments == [] {
      ScanSkipsBreaks(breaks[0], [], s.release, s.terminator);
      assert breaks[0] + [] == breaks[0];
    } else {
      var rest := Print(segments[1..], breaks[1..], s);
      var first := PrintRaw(segments[0], s) + [s.terminator] + rest;
      assert Print(segments, breaks, s) == breaks[0] + first;
      ScanSkipsBreaks(breaks[0], first, s.release, s.terminator);
      ScanOneSegment(segments[0], rest, s);
      ScanPrinted(segments[1..], breaks[1..], s);
    }
  }

  lemma {:induction false} ReadAllPrinted(segments: seq<Segment>, s: Separators)
    requires Usable(s) && forall i | 0 <= i < |segments| :: Printable(segments[i], s)
    ensures ReadSegments(PrintRaws(segments, s), s) == Success(segments)
  {
    if segments != [] {
      ReadPrinted(segments[0], s);
      ReadAllPrinted(segments[1..], s);
      assert PrintRaws(segments, s)[1..] == PrintRaws(segments[1..], s);
      assert [segments[0]] + segments[1..] == segments;
    }
  }

  // ---------------------------------------------------------------- the end of the text

  lemma {:induction false} DropsExactlyBreaks(text: string, breaks: string)
    requires OnlyBreaks(breaks) && text != [] && !LineBreak(text[|text| - 1])
    ensures DropTrailingBreaks(text + breaks) == text
  {
    var whole := text + breaks;
    if breaks == [] {
      assert whole == text;
    } else {
      assert whole[|whole| - 1] == breaks[|breaks| - 1];
      assert whole[..|whole| - 1] == text + breaks[..|breaks| - 1];
      DropsExactlyBreaks(text, breaks[..|breaks| - 1]);
    }
  }

  /** Everything printed ends in a terminator, up to the last line break. */
  lemma {:induction false} PrintEnds(segments: seq<Segment>, breaks: seq<string>, s: Separators)
    requires |breaks| == |segments| + 1 && segments != []
    ensures var trimmed := Print(segments, breaks[..|segments|] + [[]], s);
            && trimmed != [] && trimmed[|trimmed| - 1] == s.terminator
            && Print(segments, breaks, s) == trimmed + breaks[|segments|]
  {
    var trim := breaks[..|segments|] + [[]];
    var head := breaks[0] + PrintRaw(segments[0], s) + [s.terminator];
    if |segments| == 1 {
      assert Print(segments, breaks, s) == head + breaks[1] && Print(segments, trim, s) == head + [];
    } else {
      PrintEnds(segments[1..], breaks[1..], s);
      assert trim[1..] == breaks[1..][..|segments| - 1] + [[]];
      assert trim[0] == breaks[0];
      var rest := Print(segments[1..], trim[1..], s);
      assert Print(segments, trim, s) == head + rest;
      assert head + (rest + breaks[|segments|]) == (head + rest) + breaks[|segments|];
    }
  }

  // ---------------------------------------------------------------- a release that is a line break

  /** What a segment in progress holds is never given up. */
  lemma {:induction false} ScanKeepsCurrent(text: string, release: char, terminator: char, current: string, escaped: bool)
    requires current != []
    ensures var r := Scan(text, release, terminator, current, escaped);
            if r.raws == [] then current <= r.current else current <= r.raws[0]
  {
    if text != [] {
      var c, rest := text[0], text[1..];
      assert current <= current + [c];
      if escaped {
        ScanKeepsCurrent(rest, release, terminator, current + [c], false);
      } else if c == release {
        ScanKeepsCurrent(rest, release, terminator, current + [c], true);
      } else if c != terminator {
        ScanKeepsCurrent(rest, release, terminator, current + [c], false);
      }
    }
  }

  /** A raw segment without a tag. */
  predicate Headless(raw: string, s: Separators) {
    raw == [] || raw[0] == s.element
  }

  lemma HeadlessIsInvalid(raw: string, s: Separators)
    requires Usable(s) && Headless(raw, s)
    ensures ReadSegment(raw, s).Failure?
  {
  }

  lemma {:induction false} HeadlessFailsAll(raws: seq<string>, i: nat, s: Separators)
    requires Usable(s) && i < |raws| && Headless(raws[i], s)
    ensures ReadSegments(raws, s).Failure?
  {
    if i == 0 {
      HeadlessIsInvalid(raws[0], s);
    } else {
      HeadlessFailsAll(raws[1..], i - 1, s);
    }
  }

  /** The scan ends inside a segment, or has cut one without a tag. */
  ghost predicate Broken(scanned: Scanned, s: Separators) {
    scanned.current != [] || exists i | 0 <= i < |scanned.raws| :: Headless(scanned.raws[i], s)
  }

  /** The dropped release leaves the tag's first character to be read as the separator it is. */
  lemma UnstartableBreaks(segment: Segment, rest: string, s: Separators)
    requires Usable(s) && NamePattern(segment.tag) && !Startable(segment, s)
    ensures Broken(Scan(PrintRaw(segment, s) + [s.terminator] + rest, s.release, s.terminator, [], false), s)
  {
    var text := PrintRaw(segment, s) + [s.terminator] + rest;
    var c := segment.tag[0];
    assert text[0] == s.release && text[1] == c && text[1..][0] == c;
    var scanned := Scan(text, s.release, s.terminator, [], false);
    assert scanned == Scan(text[1..], s.release, s.terminator, [], false);
    if c == s.terminator {
      assert scanned.raws[0] == [];
    } else {
      assert scanned == Scan(text[1..][1..], s.release, s.terminator, [] + [c], false);
      ScanKeepsCurrent(text[1..][1..], s.release, s.terminator, [] + [c], false);
      assert scanned.raws != [] ==> Headless(scanned.raws[0], s);
    }
  }

  lemma {:induction false} UnstartableBreaksAll(segments: seq<Segment>, k: nat, breaks: seq<string>, s: Separators)
    requires Usable(s) && |breaks| == |segments| + 1 && k < |segments|
    requires forall i | 0 <= i < |segments| :: NamePattern(segments[i].tag)
    requires forall i | 0 <= i < k :: Startable(segments[i], s)
    requires !Startable(segments[k], s)
    requires forall i | 0 <= i < |breaks| :: OnlyBreaks(breaks[i])
    ensures Broken(Scan(Print(segments, breaks, s), s.release, s.terminator, [], false), s)
  {
    var rest := Print(segments[1..], breaks[1..], s);
    var first := PrintRaw(segments[0], s) + [s.terminator] + rest;
    assert Print(segments, breaks, s) == breaks[0] + first;
    ScanSkipsBreaks(breaks[0], first, s.release, s.terminator);
    if k == 0 {
      UnstartableBreaks(segments[0], rest, s);
    } else {
      ScanOneSegment(segments[0], rest, s);
      UnstartableBreaksAll(segments[1..], k - 1, breaks[1..], s);
      var more := Scan(rest, s.release, s.terminator, [], false);
      if i :| 0 <= i < |more.raws| && Headless(more.raws[i], s) {
        assert ([PrintRaw(segments[0], s)] + more.raws)[i + 1] == more.raws[i];
      }
    }
  }

  // ---------------------------------------------------------------- main results

  /** The separators can carry these segments: no line break ends a segment or releases the start of a tag. */
  predicate Carries(segments: seq<Segment>, s: Separators) {
    !LineBreak(s.terminator) && forall i | 0 <= i < |segments| :: Startable(segments[i], s)
  }

  /**
   Tokenizing what was printed gives back exactly the same segments, whatever characters the values
   hold and however many line breaks stand between and after the segments, if the separators carry them,
   and fails if they do not.
   */
  lemma RoundTrip(segments: seq<Segment>, breaks: seq<string>, s: Separators)
    requires Usable(s) && segments != [] && |breaks| == |segments| + 1
    requires forall i | 0 <= i < |segments| :: Printable(segments[i], s)
    requires forall i | 0 <= i < |breaks| :: OnlyBreaks(breaks[i])
    ensures if Carries(segments, s) then Tokenize(Print(segments, breaks, s), s) == Success(segments)
            else Tokenize(Print(segments, breaks, s), s).Failure?
  {
    hide ReadSegments, Scan, Print;
    if LineBreak(s.terminator) {
      LineBreakTerminatorRejectsAll(Print(segments, breaks, s), s);
    } else {
      var trim := breaks[..|segments|] + [[]];
      PrintEnds(segments, breaks, s);
      DropsExactlyBreaks(Print(segments, trim, s), breaks[|segments|]);
      forall i | 0 <= i < |trim| ensures OnlyBreaks(trim[i]) {
        assert i < |segments| ==> trim[i] == breaks[i];
      }
      if Carries(segments, s) {
        ScanPrinted(segments, trim, s);
        ReadAllPrinted(segments, s);
      } else {
        var k := FirstUnstartable(segments, s);
        UnstartableBreaksAll(segments, k, trim, s);
        BrokenFails(Scan(Print(segments, trim, s), s.release, s.terminator, [], false), s);
      }
    }
  }

  lemma {:induction false} FirstUnstartable(segments: seq<Segment>, s: Separators) returns (k: nat)
    requires exists i | 0 <= i < |segments| :: !Startable(segments[i], s)
    ensures k < |segments| && !Startable(segments[k], s) && forall i | 0 <= i < k :: Startable(segments[i], s)
  {
    if !Startable(segments[0], s) {
      k := 0;
    } else {
      var j :| 0 <= j < |segments| && !Startable(segments[j], s);
      assert segments[1..][j - 1] == segments[j];
      k := FirstUnstartable(segments[1..], s);
      k := k + 1;
      assert forall i | 1 <= i < k :: segments[i] == segments[1..][i - 1];
    }
  }

  lemma BrokenFails(scanned: Scanned, s: Separators)
    requires Usable(s) && Broken(scanned, s)
    ensures scanned.current != [] || ReadSegments(scanned.raws, s).Failure?
  {
    if i :| 0 <= i < |scanned.raws| && Headless(scanned.raws[i], s) {
      HeadlessFailsAll(scanned.raws, i, s);
    }
  }

  /** An input for it: with a line feed as release and B as element separator, BGM does not come back. */
  lemma LineBreakReleaseExample()
    ensures var s := Separators(':', 'B', '.', '\n', '\'');
            var segment := Segment("BGM", [], 5);
            && Usable(s) && Printable(segment, s) && Print([segment], ["", ""], s) == "\nBGM'"
            && Tokenize("\nBGM'", s).Failure?
  {
    var s := Separators(':', 'B', '.', '\n', '\'');
    var segment := Segment("BGM", [], 5);
    assert "BGM"[1..] == "GM" && "GM"[1..] == "M" && "M"[1..] == "";
    assert Escape("BGM", s) == "\nBGM";
    assert PrintRaw(segment, s) == "\nBGM";
    assert Print([segment], ["", ""], s) == "\nBGM'";
    assert !Startable(segment, s);
    RoundTrip([segment], ["", ""], s);
  }

  /** Two segment lists that print alike are equal: the wire form is unambiguous. */
  lemma PrintInjective(a: seq<Segment>, b: seq<Segment>, breaksA: seq<string>, breaksB: seq<string>, s: Separators)
    requires Usable(s) && a != [] && b != [] && |breaksA| == |a| + 1 && |breaksB| == |b| + 1
    requires forall i | 0 <= i < |a| :: Printable(a[i], s)
    requires forall i | 0 <= i < |b| :: Printable(b[i], s)
    requires forall i | 0 <= i < |breaksA| :: OnlyBreaks(breaksA[i])
    requires forall i | 0 <= i < |breaksB| :: OnlyBreaks(breaksB[i])
    requires Carries(a, s) && Carries(b, s)
    requires Print(a, breaksA, s) == Print(b, breaksB, s)
    ensures a == b
  {
    RoundTrip(a, breaksA, s);
    RoundTrip(b, breaksB, s);
  }

  /** Scanning is compositional: the second part continues from where the first one stopped. */
  lemma {:induction false} ScanAppend(a: string, b: string, release: char, terminator: char, current: string, escaped: bool)
    ensures var first := Scan(a, release, terminator, current, escaped);
            var second := Scan(b, release, terminator, first.current, first.escaped);
            Scan(a + b, release, terminator, current, escaped)
            == Scanned(first.raws + second.raws, second.current, second.escaped)
  {
    if a == [] {
      assert a + b == b;
    } else {
      var c := a[0];
      assert (a + b)[0] == c && (a + b)[1..] == a[1..] + b;
      if current == [] && LineBreak(c) {
        ScanAppend(a[1..], b, release, terminator, current, escaped);
      } else if escaped {
        ScanAppend(a[1..], b, release, terminator, current + [c], false);
      } else if c == release {
        ScanAppend(a[1..], b, release, terminator, current + [c], true);
      } else if c == terminator {
        ScanAppend(a[1..], b, release, terminator, [], false);
      } else {
        ScanAppend(a[1..], b, release, terminator, current + [c], false);
      }
    }
  }

  /** In any text whatever, line breaks inserted at a segment boundary change nothing. */
  lemma LineBreaksBetweenSegments(a: string, breaks: string, b: string, release: char, terminator: char)
    requires OnlyBreaks(breaks)
    requires var first := Scan(a, release, terminator, [], false); first.current == [] && !first.escaped
    ensures Scan(a + breaks + b, release, terminator, [], false) == Scan(a + b, release, terminator, [], false)
  {
    assert a + breaks + b == a + (breaks + b);
    ScanAppend(a, breaks + b, release, terminator, [], false);
    ScanAppend(a, b, release, terminator, [], false);
    ScanSkipsBreaks(breaks, b, release, terminator);
  }

  lemma {:induction false} NoTrailingBreak(text: string)
    ensures var t := DropTrailingBreaks(text); t == [] || !LineBreak(t[|t| - 1])
  {
    if text != [] && LineBreak(text[|text| - 1]) {
      NoTrailingBreak(text[..|text| - 1]);
    }
  }

  /** A terminator that is itself a line break is accepted in UNA, but then no text at all is. */
  lemma LineBreakTerminatorRejectsAll(body: string, s: Separators)
    requires LineBreak(s.terminator)
    ensures Tokenize(body, s) == Failure(Truncated)
  {
    NoTrailingBreak(body);
  }
}

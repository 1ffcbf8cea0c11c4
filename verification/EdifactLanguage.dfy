/**
 The accepted documents spelt out, character classes, counts and limits included, with nothing of the parser
 in the definition; and what the envelope then says of them.
 */
module EdifactLanguage {
  import opened Wrappers
  import opened Edifact
  import G = EdifactGrammar
  import Text

  // ---------------------------------------------------------------- fields

  const LETTERS := "ABCDEFGHIJKLMNOPQRSTUVWXYZ"
  const FIGURES := "0123456789"

  predicate Name(s: string) {
    2 <= |s| <= 10 && s[0] in LETTERS && forall i | 0 < i < |s| :: s[i] in LETTERS || s[i] in FIGURES
  }

  lemma LettersAreUpper(c: char)
    ensures c in LETTERS <==> Upper(c)
    ensures c in FIGURES <==> Digit(c)
  {
    assert forall i | 0 <= i < 26 :: LETTERS[i] as int == 'A' as int + i;
    assert forall i | 0 <= i < 10 :: FIGURES[i] as int == '0' as int + i;
    if Upper(c) {
      assert LETTERS[c as int - 'A' as int] == c;
    }
    if Digit(c) {
      assert FIGURES[c as int - '0' as int] == c;
    }
  }

  lemma NameIff(s: string)
    ensures NamePattern(s) <==> Name(s)
  {
    forall c ensures (c in LETTERS <==> Upper(c)) && (c in FIGURES <==> Digit(c)) {
      LettersAreUpper(c);
    }
  }

  /** The number that decimal figures spell, read from the left after `before`. */
  function Number(s: string, before: nat): nat
    requires forall i | 0 <= i < |s| :: s[i] in FIGURES
  {
    if s == [] then before
    else
      LettersAreUpper(s[0]);
      Number(s[1..], before * 10 + (s[0] as int - '0' as int))
  }

  /** One to nine figures that spell `n`. */
  predicate Counts(s: string, n: nat) {
    1 <= |s| <= 9 && (forall i | 0 <= i < |s| :: s[i] in FIGURES) && Number(s, 0) == n
  }

  lemma {:induction false} NumberSnoc(s: string, c: char, before: nat)
    requires (forall i | 0 <= i < |s| :: s[i] in FIGURES) && c in FIGURES
    ensures Digit(c) && Number(s + [c], before) == Number(s, before) * 10 + (c as int - '0' as int)
  {
    LettersAreUpper(c);
    if s == [] {
      assert [c][1..] == "";
    } else {
      LettersAreUpper(s[0]);
      NumberSnoc(s[1..], c, before * 10 + (s[0] as int - '0' as int));
      assert (s + [c])[1..] == s[1..] + [c];
    }
  }

  lemma {:induction false} NumberIsValue(s: string)
    requires forall i | 0 <= i < |s| :: s[i] in FIGURES && Digit(s[i])
    ensures CountValue(s) == Number(s, 0)
  {
    if s != [] {
      var n := |s| - 1;
      NumberIsValue(s[..n]);
      NumberSnoc(s[..n], s[n], 0);
      assert s == s[..n] + [s[n]];
    }
  }

  lemma CountsIff(s: string, n: nat)
    ensures Integer(s) == Some(n) <==> Counts(s, n)
    ensures CountPattern(s) && CountValue(s) == n <==> Counts(s, n)
  {
    forall i | 0 <= i < |s| ensures s[i] in FIGURES <==> Digit(s[i]) {
      LettersAreUpper(s[i]);
    }
    if forall i | 0 <= i < |s| :: Digit(s[i]) {
      NumberIsValue(s);
    }
  }

  /** A reference: one to seventy characters without white space at either end. */
  predicate Referable(s: string) {
    1 <= |s| <= 70 && s[0] !in " \t\n\r" && s[|s| - 1] !in " \t\n\r"
  }

  lemma ReferableIff(s: string)
    ensures ReferenceFormat(s) <==> Referable(s)
  {
    Text.TrimmedMeans(s);
  }

  /** `part` is `s` up to the first separator. */
  predicate Leads(part: string, s: string, separator: char) {
    part <= s && separator !in part && (part == s || s[|part|] == separator)
  }

  lemma {:induction false} FirstComponentMeans(s: string, separator: char)
    ensures Leads(FirstComponent(s, separator), s, separator)
  {
    if s != [] && s[0] != separator {
      FirstComponentMeans(s[1..], separator);
    }
  }

  lemma LeadIsUnique(a: string, b: string, s: string, separator: char)
    requires Leads(a, s, separator) && Leads(b, s, separator)
    ensures a == b
  {
    assert a == s[..|a|] && b == s[..|b|];
    assert |a| < |b| ==> b[|a|] == s[|a|];
    assert |b| < |a| ==> a[|b|] == s[|b|];
  }

  // ---------------------------------------------------------------- the grammar

  /** A segment the metadata model takes. */
  predicate Sized(segment: Segment) {
    && Name(segment.tag) && |segment.elements| <= 128 && 3 <= segment.size <= 262_144
    && forall i | 0 <= i < |segment.elements| :: |segment.elements[i]| <= 4_096
  }

  /** UNH, anything but a message envelope, UNT; with one reference, the right count, and a type. */
  ghost predicate MessageText(block: seq<Segment>, component: char) {
    && 2 <= |block| <= 4_096 && block[0].tag == "UNH" && block[|block| - 1].tag == "UNT"
    && (forall i | 0 < i < |block| - 1 :: block[i].tag != "UNH" && block[i].tag != "UNT")
    && var unh, unt := block[0].elements, block[|block| - 1].elements;
    && 2 <= |unh| && 2 <= |unt| && Referable(unh[0]) && unt[1] == unh[0] && Counts(unt[0], |block|)
    && exists part :: Leads(part, unh[1], component) && Name(part)
  }

  /** UNB, messages of different references, UNZ; with one control reference and the number of messages. */
  ghost predicate InterchangeText(segments: seq<Segment>, blocks: seq<seq<Segment>>, component: char) {
    && 2 <= |segments| < 4_096 && segments[0].tag == "UNB" && segments[|segments| - 1].tag == "UNZ"
    && segments[1..|segments| - 1] == G.Flatten(blocks) && 1 <= |blocks|
    && (forall i | 0 < i < |segments| - 1 :: segments[i].tag != "UNB" && segments[i].tag != "UNZ")
    && (forall i | 0 <= i < |segments| :: Sized(segments[i]))
    && (forall i | 0 <= i < |blocks| :: MessageText(blocks[i], component))
    && (forall i, j | 0 <= i < j < |blocks| :: blocks[i][0].elements[0] != blocks[j][0].elements[0])
    && var unb, unz := segments[0].elements, segments[|segments| - 1].elements;
    && 5 <= |unb| && 2 <= |unz| && Referable(unb[0]) && unb[0][0] != component
    && Referable(unb[4]) && unz[1] == unb[4] && Counts(unz[0], |blocks|)
  }

  lemma MessageTextIff(block: seq<Segment>, component: char)
    ensures G.Block(block, component) <==> MessageText(block, component)
  {
    if 2 <= |block| && 2 <= |block[0].elements| && 2 <= |block[|block| - 1].elements| {
      var unh, unt := block[0].elements, block[|block| - 1].elements;
      ReferableIff(unh[0]);
      CountsIff(unt[0], |block|);
      FirstComponentMeans(unh[1], component);
      NameIff(FirstComponent(unh[1], component));
      forall part | Leads(part, unh[1], component) ensures part == FirstComponent(unh[1], component) {
        LeadIsUnique(part, FirstComponent(unh[1], component), unh[1], component);
      }
    }
  }

  lemma SizedIff(segment: Segment)
    ensures InfoFormat(segment) <==> Sized(segment)
  {
    NameIff(segment.tag);
  }

  lemma InterchangeTextIff(segments: seq<Segment>, blocks: seq<seq<Segment>>, component: char)
    ensures G.Interchange(segments, blocks, component) <==> InterchangeText(segments, blocks, component)
  {
    hide G.Block, MessageText, InfoFormat, Sized, G.Flatten, Counts, CountPattern, CountValue, FirstComponent;
    forall block ensures G.Block(block, component) <==> MessageText(block, component) {
      MessageTextIff(block, component);
    }
    forall segment ensures InfoFormat(segment) <==> Sized(segment) {
      SizedIff(segment);
    }
    if 2 <= |segments| && 5 <= |segments[0].elements| && 2 <= |segments[|segments| - 1].elements| {
      HeaderFields(segments[0].elements, segments[|segments| - 1].elements, |blocks|, component);
    }
    forall i | 0 <= i < |blocks| && MessageText(blocks[i], component) ensures 2 <= |blocks[i]| && 2 <= |blocks[i][0].elements| {
      Openable(blocks[i], component);
    }
  }

  lemma Openable(block: seq<Segment>, component: char)
    requires MessageText(block, component)
    ensures 2 <= |block| && 2 <= |block[0].elements|
  {}

  lemma HeaderFields(unb: seq<string>, unz: seq<string>, n: nat, component: char)
    requires 5 <= |unb| && 2 <= |unz|
    ensures ReferenceFormat(unb[0]) <==> Referable(unb[0])
    ensures ReferenceFormat(unb[4]) <==> Referable(unb[4])
    ensures CountPattern(unz[0]) && CountValue(unz[0]) == n <==> Counts(unz[0], n)
    ensures unb[0] != [] ==> (FirstComponent(unb[0], component) != [] <==> unb[0][0] != component)
  {
    ReferableIff(unb[0]);
    ReferableIff(unb[4]);
    CountsIff(unz[0], n);
  }

  /** The parser accepts exactly the interchanges so spelt out. */
  lemma AcceptsExactlyTheLanguage(segments: seq<Segment>, component: char)
    ensures ReadInterchange(segments, component).Success? <==> exists blocks :: InterchangeText(segments, blocks, component)
  {
    hide ReadInterchange, InterchangeText, G.Interchange;
    G.AcceptsExactlyTheGrammar(segments, component);
    forall blocks ensures G.Interchange(segments, blocks, component) <==> InterchangeText(segments, blocks, component) {
      InterchangeTextIff(segments, blocks, component);
    }
  }

  // ---------------------------------------------------------------- what the envelope says

  /** The metadata of a segment: its tag, the length of each element, and its size on the wire. */
  predicate Describes(info: SegmentInfo, segment: Segment) {
    && info.tag == segment.tag && info.size == segment.size && |info.elementLengths| == |segment.elements|
    && forall i | 0 <= i < |segment.elements| :: info.elementLengths[i] == |segment.elements[i]|
  }

  ghost predicate Reports(message: Message, block: seq<Segment>, component: char)
    requires block != [] && 2 <= |block[0].elements|
  {
    && message.reference == block[0].elements[0] && Leads(message.messageType, block[0].elements[1], component)
    && |message.segments| == |block| && forall i | 0 <= i < |block| :: Describes(message.segments[i], block[i])
  }

  /**
   The envelope of an accepted interchange names its syntax and control reference, and describes every segment of
   every message in order. It counts the messages, and one segment more than the wire carries.
   */
  lemma EnvelopeTells(segments: seq<Segment>, blocks: seq<seq<Segment>>, component: char)
    requires InterchangeText(segments, blocks, component)
    ensures ReadInterchange(segments, component).Success?
    ensures var e := ReadInterchange(segments, component).value;
            && e.syntaxIdentifier == segments[0].elements[0] && e.controlReference == segments[0].elements[4]
            && e.messageCount == |e.messages| == |blocks| && e.segmentCount == |segments| + 1
            && forall i | 0 <= i < |blocks| ::
                 2 <= |blocks[i]| && 2 <= |blocks[i][0].elements| && Reports(e.messages[i], blocks[i], component)
  {
    hide InterchangeText, MessageText;
    InterchangeTextIff(segments, blocks, component);
    G.ParserComplete(segments, blocks, component);
    forall i | 0 <= i < |blocks|
      ensures 2 <= |blocks[i]| && 2 <= |blocks[i][0].elements|
              && Reports(G.EnvelopeOf(segments, blocks, component).messages[i], blocks[i], component)
    {
      assert G.Block(blocks[i], component);
      FirstComponentMeans(blocks[i][0].elements[1], component);
    }
  }

  // ---------------------------------------------------------------- documents

  predicate Permitted(c: char) {
    0x20 <= c as int < 0x7F || c as int == 0x0A || c as int == 0x0D
  }

  /** The separators in force: announced by UNA, five different ones and a blank, or the default ones. */
  predicate Announced(data: string, s: Separators, body: string) {
    if "UNA" <= data then
      && 9 <= |data| && data == "UNA" + [s.component, s.element, s.decimal, s.release, ' ', s.terminator] + body
      && |{s.component, s.element, s.decimal, s.release, s.terminator}| == 5
    else s == Separators(':', '+', '.', '?', '\'') && body == data
  }

  lemma FiveDiffer(s: Separators)
    ensures Distinct(s) <==> |{s.component, s.element, s.decimal, s.release, s.terminator}| == 5
  {
    var four := {s.element, s.decimal, s.release, s.terminator};
    var three := {s.decimal, s.release, s.terminator};
    var two := {s.release, s.terminator};
    assert |two| == if s.release == s.terminator then 1 else 2;
    assert three == two + {s.decimal} && four == three + {s.element};
    assert {s.component, s.element, s.decimal, s.release, s.terminator} == four + {s.component};
    assert s.decimal in two ==> three == two;
    assert s.element in three ==> four == three;
    assert s.component in four ==> four + {s.component} == four;
  }

  lemma AnnouncedIff(data: string, s: Separators, body: string)
    ensures ReadSeparators(data) == Success((s, body)) <==> Announced(data, s, body)
  {
    FiveDiffer(s);
    if "UNA" <= data && 9 <= |data| {
      var head := "UNA" + [s.component, s.element, s.decimal, s.release, ' ', s.terminator];
      assert data == data[..9] + data[9..];
      if data == head + body {
        assert data[..9] == head && data[9..] == body;
      }
      if ReadSeparators(data) == Success((s, body)) {
        assert data[..9] == head;
      }
    }
  }

  lemma VocabularyIff(tag: string, raw: string)
    ensures KnownTag(tag, raw) <==> ("UN" <= tag ==> tag in ["UNB", "UNH", "UNT", "UNZ"] || "UNA" <= raw)
  {
    assert EnvelopeTag(tag) <==> tag in ["UNB", "UNH", "UNT", "UNZ"];
    assert EnvelopeTag(tag) ==> "UN" <= tag;
  }

  lemma HeadAndTail(values: seq<string>, tag: string, elements: seq<string>)
    ensures values == [tag] + elements <==> values != [] && values[0] == tag && values[1..] == elements
  {
    if values != [] {
      assert values == [values[0]] + values[1..];
    }
    if values == [tag] + elements {
      assert values[1..] == elements;
    }
  }

  /** A raw segment is read exactly with a proper tag of the vocabulary and elements within the limits. */
  lemma SegmentReadIff(raw: string, s: Separators, segment: Segment)
    ensures ReadSegment(raw, s) == Success(segment) <==>
              && Elements(raw, s.element, s.release, [], false) == Some([segment.tag] + segment.elements)
              && Name(segment.tag) && segment.size == |raw| + 1
              && ("UN" <= segment.tag ==> segment.tag in ["UNB", "UNH", "UNT", "UNZ"] || "UNA" <= raw)
              && |segment.elements| <= 128 && forall i | 0 <= i < |segment.elements| :: |segment.elements[i]| <= 4_096
  {
    hide Elements, KnownTag, NamePattern, Name;
    NameIff(segment.tag);
    VocabularyIff(segment.tag, raw);
    var elements := Elements(raw, s.element, s.release, [], false);
    if elements.Some? {
      HeadAndTail(elements.value, segment.tag, segment.elements);
    }
  }

  /** A document is accepted exactly within the size and characters allowed, if its segments are an interchange. */
  lemma DocumentIff(document: string, e: Envelope)
    ensures ReadDocument(document) == Success(e) <==>
              && |document| <= 262_144 && (forall i | 0 <= i < |document| :: Permitted(document[i]))
              && exists s, body, segments ::
                   && Announced(document, s, body) && Tokenize(body, s) == Success(segments)
                   && ReadInterchange(segments, s.component) == Success(e)
  {
    hide ReadInterchange, Tokenize, Announced, ReadSeparators;
    if ReadSeparators(document).Success? {
      var (s, body) := ReadSeparators(document).value;
      AnnouncedIff(document, s, body);
      if ReadDocument(document) == Success(e) {
        assert Announced(document, s, body) && Tokenize(body, s) == Success(Tokenize(body, s).value);
      }
    }
    forall s, body ensures ReadSeparators(document) == Success((s, body)) <==> Announced(document, s, body) {
      AnnouncedIff(document, s, body);
    }
    assert forall i | 0 <= i < |document| :: Allowed(document[i]) <==> Permitted(document[i]);
  }
}

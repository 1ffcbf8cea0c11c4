/**
 The bounded EDIFACT boundary: separators chosen at run time, release-character tokenizing, and the
 UNB / UNH / UNT / UNZ envelope with its counts and references. A digest is left out wherever it only
 repeats the metadata it is computed from.
 */
module Edifact {
  import opened Wrappers
  import Text

  const MAX_BYTES := 262_144
  const MAX_SEGMENTS := 4_096
  const MAX_ELEMENTS := 128
  const MAX_ELEMENT_BYTES := 4_096

  datatype Separators = Separators(component: char, element: char, decimal: char, release: char, terminator: char)

  const DEFAULT_SEPARATORS := Separators(':', '+', '.', '?', '\'')

  /** A tokenized segment; `size` counts the characters on the wire, terminator included. */
  datatype Segment = Segment(tag: string, elements: seq<string>, size: nat)

  /** The metadata kept about a segment, without its element values. */
  datatype SegmentInfo = SegmentInfo(tag: string, elementLengths: seq<nat>, size: nat)

  datatype Message = Message(reference: string, messageType: string, segments: seq<SegmentInfo>)

  datatype Envelope = Envelope(
    syntaxIdentifier: string, controlReference: string,
    messageCount: nat, segmentCount: nat, messages: seq<Message>)

  datatype Error =
    | CharsetInvalid | TooLarge | Truncated | SeparatorInvalid
    | SegmentInvalid | UnknownEnvelopeSegment | TooManyElements | ElementTooLarge | TooManySegments
    | EnvelopeInvalid | NestedEnvelope | ControlReferenceMismatch | CountInvalid
    | MessageUnbalanced | NestedMessage | MessageInvalid | MessageReferenceMismatch
    | DuplicateReference | SegmentCountMismatch | MessageMissing | MessageCountMismatch
    | FieldFormat

  // ---------------------------------------------------------------- characters and fields

  predicate LineBreak(c: char) {
    c == '\r' || c == '\n'
  }

  predicate Allowed(c: char) {
    (' ' <= c < 0x7F as char) || LineBreak(c)
  }

  predicate Upper(c: char) {
    'A' <= c <= 'Z'
  }

  predicate Digit(c: char) {
    '0' <= c <= '9'
  }

  predicate NamePattern(tag: string) {
    2 <= |tag| <= 10 && Upper(tag[0]) && forall i | 1 <= i < |tag| :: Upper(tag[i]) || Digit(tag[i])
  }

  predicate ReferenceFormat(s: string) {
    1 <= |s| <= 70 && Text.Trimmed(s)
  }

  function FirstComponent(s: string, separator: char): string {
    if s == [] || s[0] == separator then [] else [s[0]] + FirstComponent(s[1..], separator)
  }

  predicate CountPattern(s: string) {
    1 <= |s| <= 9 && forall i | 0 <= i < |s| :: Digit(s[i])
  }

  function CountValue(s: string): nat
    requires forall i | 0 <= i < |s| :: Digit(s[i])
  {
    if s == [] then 0
    else
      assert Digit(s[|s| - 1]);
      CountValue(s[..|s| - 1]) * 10 + (s[|s| - 1] as int - '0' as int)
  }

  /** `None` is the count error. */
  function Integer(s: string): Option<nat> {
    if CountPattern(s) then Some(CountValue(s)) else None
  }

  // ---------------------------------------------------------------- tokenizing

  function ReadSeparators(data: string): Result<(Separators, string), Error> {
    if "UNA" <= data then
      if |data| < 9 then Failure(Truncated)
      else
        var s := Separators(data[3], data[4], data[5], data[6], data[8]);
        if data[7] != ' ' || !Distinct(s) then Failure(SeparatorInvalid)
        else Success((s, data[9..]))
    else Success((DEFAULT_SEPARATORS, data))
  }

  predicate Distinct(s: Separators) {
    && s.component != s.element && s.component != s.decimal && s.component != s.release
    && s.component != s.terminator && s.element != s.decimal && s.element != s.release
    && s.element != s.terminator && s.decimal != s.release && s.decimal != s.terminator
    && s.release != s.terminator
  }

  function DropTrailingBreaks(text: string): string {
    if text != [] && LineBreak(text[|text| - 1]) then DropTrailingBreaks(text[..|text| - 1]) else text
  }

  /** The finished segments, then the unfinished one and whether its last character was a release. */
  datatype Scanned = Scanned(raws: seq<string>, current: string, escaped: bool)

  function Scan(text: string, release: char, terminator: char, current: string, escaped: bool): Scanned {
    if text == [] then Scanned([], current, escaped)
    else
      var c, rest := text[0], text[1..];
      if current == [] && LineBreak(c) then Scan(rest, release, terminator, current, escaped)
      else if escaped then Scan(rest, release, terminator, current + [c], false)
      else if c == release then Scan(rest, release, terminator, current + [c], true)
      else if c == terminator then
        var more := Scan(rest, release, terminator, [], false);
        more.(raws := [current] + more.raws)
      else Scan(rest, release, terminator, current + [c], false)
  }

  /** The elements of one raw segment, `None` if it ends in a release character. */
  function Elements(raw: string, separator: char, release: char, current: string, escaped: bool)
    : Option<seq<string>>
  {
    if raw == [] then if escaped then None else Some([current])
    else
      var c, rest := raw[0], raw[1..];
      if escaped then Elements(rest, separator, release, current + [c], false)
      else if c == release then Elements(rest, separator, release, current, true)
      else if c == separator then
        var more := Elements(rest, separator, release, [], false);
        if more.None? then None else Some([current] + more.value)
      else Elements(rest, separator, release, current + [c], false)
  }

  predicate EnvelopeTag(tag: string) {
    tag == "UNB" || tag == "UNH" || tag == "UNT" || tag == "UNZ"
  }

  /** Tags beginning with UN are a closed vocabulary, except where the raw text begins with UNA. */
  predicate KnownTag(tag: string, raw: string) {
    EnvelopeTag(tag) || "UNA" <= raw || !("UN" <= tag)
  }

  function ReadSegment(raw: string, separators: Separators): Result<Segment, Error> {
    var elements := Elements(raw, separators.element, separators.release, [], false);
    if elements.None? then Failure(Truncated)
    else if elements.value == [] then Failure(SegmentInvalid)
    else
      var tag, values := elements.value[0], elements.value[1..];
      if !NamePattern(tag) then Failure(SegmentInvalid)
      else if !KnownTag(tag, raw) then Failure(UnknownEnvelopeSegment)
      else if MAX_ELEMENTS < |values| then Failure(TooManyElements)
      else if exists i :: 0 <= i < |values| && MAX_ELEMENT_BYTES < |values[i]| then Failure(ElementTooLarge)
      else Success(Segment(tag, values, |raw| + 1))
  }

  function ReadSegments(raws: seq<string>, separators: Separators): Result<seq<Segment>, Error> {
    if raws == [] then Success([])
    else
      match ReadSegment(raws[0], separators)
      case Failure(error) => Failure(error)
      case Success(first) =>
        Prepend([first], ReadSegments(raws[1..], separators))
  }

  function Tokenize(body: string, separators: Separators): Result<seq<Segment>, Error> {
    var text := DropTrailingBreaks(body);
    if text == [] || text[|text| - 1] != separators.terminator then Failure(Truncated)
    else
      var scanned := Scan(text, separators.release, separators.terminator, [], false);
      if scanned.escaped || scanned.current != [] then Failure(Truncated)
      else ReadSegments(scanned.raws, separators)
  }

  // ---------------------------------------------------------------- the envelope

  function Lengths(elements: seq<string>): seq<nat> {
    seq(|elements|, i requires 0 <= i < |elements| => |elements[i]|)
  }

  function Info(segment: Segment): SegmentInfo {
    SegmentInfo(segment.tag, Lengths(segment.elements), segment.size)
  }

  function Infos(segments: seq<Segment>): seq<SegmentInfo> {
    seq(|segments|, i requires 0 <= i < |segments| => Info(segments[i]))
  }

  predicate InfoFormat(segment: Segment) {
    && NamePattern(segment.tag) && |segment.elements| <= MAX_ELEMENTS
    && (forall i | 0 <= i < |segment.elements| :: |segment.elements[i]| <= MAX_ELEMENT_BYTES)
    && 3 <= segment.size <= MAX_BYTES
  }

  /** The first UNT at or after `cursor`, before the closing UNZ and without another UNH in between. */
  function FindEnd(segments: seq<Segment>, cursor: nat): (r: Result<nat, Error>)
    ensures r.Success? ==> cursor <= r.value < |segments| - 1 && segments[r.value].tag == "UNT"
    ensures r.Success? ==> forall i | cursor <= i < r.value :: segments[i].tag != "UNH" && segments[i].tag != "UNT"
    decreases |segments| - cursor
  {
    if |segments| <= cursor + 1 then Failure(Truncated)
    else if segments[cursor].tag == "UNT" then Success(cursor)
    else if segments[cursor].tag == "UNH" then Failure(NestedMessage)
    else FindEnd(segments, cursor + 1)
  }

  function ReadMessage(block: seq<Segment>, component: char, seen: set<string>): Result<Message, Error>
    requires 2 <= |block|
  {
    var unh, unt := block[0].elements, block[|block| - 1].elements;
    if |unh| < 2 || |unt| < 2 then Failure(MessageInvalid)
    else if unh[0] != unt[1] then Failure(MessageReferenceMismatch)
    else if unh[0] in seen then Failure(DuplicateReference)
    else if Integer(unt[0]).None? then Failure(CountInvalid)
    else if Integer(unt[0]).value != |block| then Failure(SegmentCountMismatch)
    else
      var messageType := FirstComponent(unh[1], component);
      if !ReferenceFormat(unh[0]) || !NamePattern(messageType) || MAX_SEGMENTS < |block| then Failure(FieldFormat)
      else Success(Message(unh[0], messageType, Infos(block)))
  }

  function Prepend<T>(done: seq<T>, rest: Result<seq<T>, Error>): Result<seq<T>, Error> {
    if rest.Failure? then rest else Success(done + rest.value)
  }

  lemma PrependMore<T>(done: seq<T>, next: T, rest: Result<seq<T>, Error>)
    ensures Prepend(done, Prepend([next], rest)) == Prepend(done + [next], rest)
  {
    if rest.Success? {
      assert done + ([next] + rest.value) == (done + [next]) + rest.value;
    }
  }

  /** The messages from `cursor` up to the closing UNZ. */
  function ReadMessages(segments: seq<Segment>, component: char, cursor: nat, seen: set<string>)
    : Result<seq<Message>, Error>
    decreases |segments| - cursor
  {
    if |segments| <= cursor + 1 then Success([])
    else if segments[cursor].tag != "UNH" then Failure(MessageUnbalanced)
    else
      match FindEnd(segments, cursor + 1)
      case Failure(error) => Failure(error)
      case Success(end) =>
        match ReadMessage(segments[cursor..end + 1], component, seen)
        case Failure(error) => Failure(error)
        case Success(message) =>
          Prepend([message], ReadMessages(segments, component, end + 1, seen + {segments[cursor].elements[0]}))
  }

  function TotalSegments(messages: seq<Message>): nat {
    if messages == [] then 0
    else TotalSegments(messages[..|messages| - 1]) + |messages[|messages| - 1].segments|
  }

  predicate DistinctReferences(messages: seq<Message>) {
    forall i, j | 0 <= i < j < |messages| :: messages[i].reference != messages[j].reference
  }

  /** The envelope's own count is three more than its messages hold, though the wire carries two more. */
  function IssueEnvelope(syntaxIdentifier: string, controlReference: string, messages: seq<Message>)
    : Result<Envelope, Error>
  {
    var segmentCount := 3 + TotalSegments(messages);
    if !ReferenceFormat(syntaxIdentifier) || !ReferenceFormat(controlReference)
       || !(1 <= |messages| <= MAX_SEGMENTS) || !(4 <= segmentCount <= MAX_SEGMENTS)
       || !DistinctReferences(messages)
    then Failure(FieldFormat)
    else
      Success(Envelope(syntaxIdentifier, controlReference, |messages|, segmentCount, messages))
  }

  predicate Framed(segments: seq<Segment>) {
    2 <= |segments| && segments[0].tag == "UNB" && segments[|segments| - 1].tag == "UNZ"
  }

  predicate NoInnerEnvelope(segments: seq<Segment>) {
    forall i | 1 <= i < |segments| - 1 :: segments[i].tag != "UNB" && segments[i].tag != "UNZ"
  }

  function ReadInterchange(segments: seq<Segment>, component: char): Result<Envelope, Error> {
    if MAX_SEGMENTS < |segments| then Failure(TooManySegments)
    else if !Framed(segments) then Failure(EnvelopeInvalid)
    else if !NoInnerEnvelope(segments) then Failure(NestedEnvelope)
    else
      var unb, unz := segments[0].elements, segments[|segments| - 1].elements;
      if |unb| < 5 || |unz| < 2 then Failure(EnvelopeInvalid)
      else if FirstComponent(unb[0], component) == [] then Failure(EnvelopeInvalid)
      else if unz[1] != unb[4] then Failure(ControlReferenceMismatch)
      else if Integer(unz[0]).None? then Failure(CountInvalid)
      else if exists i :: 0 <= i < |segments| && !InfoFormat(segments[i]) then Failure(FieldFormat)
      else
        match ReadMessages(segments, component, 1, {})
        case Failure(error) => Failure(error)
        case Success(messages) =>
          if messages == [] then Failure(MessageMissing)
          else if Integer(unz[0]).value != |messages| then Failure(MessageCountMismatch)
          else IssueEnvelope(unb[0], unb[4], messages)
  }

  function ReadDocument(document: string): Result<Envelope, Error> {
    if exists i :: 0 <= i < |document| && !Allowed(document[i]) then Failure(CharsetInvalid)
    else if MAX_BYTES < |document| then Failure(TooLarge)
    else
      match ReadSeparators(document)
      case Failure(error) => Failure(error)
      case Success((separators, body)) =>
        match Tokenize(body, separators)
        case Failure(error) => Failure(error)
        case Success(segments) => ReadInterchange(segments, separators.component)
  }

  // ---------------------------------------------------------------- the parser's loops

  method SplitElements(raw: string, separator: char, release: char) returns (r: Result<seq<string>, Error>)
    ensures r == if Elements(raw, separator, release, [], false).None? then Failure(Truncated)
                 else Success(Elements(raw, separator, release, [], false).value)
  {
    var values, current, escaped := [], [], false;
    ghost var answer := Elements(raw, separator, release, [], false);
    assert raw[0..] == raw && (answer.Some? ==> values + answer.value == answer.value);
    for i := 0 to |raw|
      invariant var rest := Elements(raw[i..], separator, release, current, escaped);
                answer == if rest.None? then None else Some(values + rest.value)
    {
      var c := raw[i];
      assert raw[i..][0] == c && raw[i..][1..] == raw[i + 1..];
      if escaped {
        current, escaped := current + [c], false;
      } else if c == release {
        escaped := true;
      } else if c == separator {
        ghost var more := Elements(raw[i + 1..], separator, release, [], false);
        assert more.Some? ==> values + ([current] + more.value) == (values + [current]) + more.value;
        values, current := values + [current], [];
      } else {
        current := current + [c];
      }
    }
    if escaped {
      return Failure(Truncated);
    }
    return Success(values + [current]);
  }

  /** The first loop of the tokenizer: cut the text at unreleased terminators. */
  method CutSegments(text: string, release: char, terminator: char)
    returns (raws: seq<string>, current: string, escaped: bool)
    ensures Scanned(raws, current, escaped) == Scan(text, release, terminator, [], false)
  {
    raws, current, escaped := [], [], false;
    ghost var scanned := Scan(text, release, terminator, [], false);
    assert text[0..] == text && raws + scanned.raws == scanned.raws;
    for i := 0 to |text|
      invariant var rest := Scan(text[i..], release, terminator, current, escaped);
                scanned == rest.(raws := raws + rest.raws)
    {
      var c := text[i];
      assert text[i..][0] == c && text[i..][1..] == text[i + 1..];
      if current == [] && LineBreak(c) {
        continue;
      }
      var raw := current;
      current := current + [c];
      if escaped {
        escaped := false;
      } else if c == release {
        escaped := true;
      } else if c == terminator {
        ghost var more := Scan(text[i + 1..], release, terminator, [], false);
        assert raws + ([raw] + more.raws) == (raws + [raw]) + more.raws;
        raws, current := raws + [raw], [];
      }
    }
    assert raws + [] == raws;
  }

  /** The body of the tokenizer's second loop. */
  method ParseSegment(raw: string, separators: Separators) returns (r: Result<Segment, Error>)
    ensures r == ReadSegment(raw, separators)
  {
    var elements := SplitElements(raw, separators.element, separators.release);
    if elements.Failure? {
      return Failure(elements.error);
    }
    if elements.value == [] {
      return Failure(SegmentInvalid);
    }
    var tag := elements.value[0];
    if !NamePattern(tag) {
      return Failure(SegmentInvalid);
    }
    if !EnvelopeTag(tag) && !("UNA" <= raw) {
      if "UN" <= tag {
        return Failure(UnknownEnvelopeSegment);
      }
    }
    var values := elements.value[1..];
    if MAX_ELEMENTS < |values| {
      return Failure(TooManyElements);
    }
    if exists j :: 0 <= j < |values| && MAX_ELEMENT_BYTES < |values[j]| {
      return Failure(ElementTooLarge);
    }
    return Success(Segment(tag, values, |raw| + 1));
  }

  method SplitSegments(body: string, separators: Separators) returns (r: Result<seq<Segment>, Error>)
    ensures r == Tokenize(body, separators)
  {
    var text := DropTrailingBreaks(body);
    if text == [] || text[|text| - 1] != separators.terminator {
      return Failure(Truncated);
    }
    var raws, current, escaped := CutSegments(text, separators.release, separators.terminator);
    if escaped || current != [] {
      return Failure(Truncated);
    }
    var result: seq<Segment> := [];
    ghost var answer := ReadSegments(raws, separators);
    assert raws[0..] == raws && (answer.Success? ==> result + answer.value == answer.value);
    for i := 0 to |raws|
      invariant var rest := ReadSegments(raws[i..], separators);
                answer == Prepend(result, rest)
    {
      assert raws[i..][0] == raws[i] && raws[i..][1..] == raws[i + 1..];
      var segment := ParseSegment(raws[i], separators);
      if segment.Failure? {
        return Failure(segment.error);
      }
      PrependMore(result, segment.value, ReadSegments(raws[i + 1..], separators));
      result := result + [segment.value];
    }
    assert result + [] == result;
    return Success(result);
  }

  lemma InfosSlice(segments: seq<Segment>, i: nat, j: nat)
    requires i <= j <= |segments|
    ensures Infos(segments)[i..j] == Infos(segments[i..j])
  {}

  lemma NextMessage(segments: seq<Segment>, component: char, cursor: nat, seen: set<string>)
    requires cursor < |segments| - 1 && segments[cursor].tag == "UNH"
    ensures var end := FindEnd(segments, cursor + 1);
            var answer := ReadMessages(segments, component, cursor, seen);
            && (end.Failure? ==> answer == Failure(end.error))
            && (end.Success? ==>
                  var message := ReadMessage(segments[cursor..end.value + 1], component, seen);
                  && (message.Failure? ==> answer == Failure(message.error))
                  && (message.Success? ==>
                        && segments[cursor].elements != []
                        && answer == Prepend([message.value], ReadMessages(segments, component, end.value + 1,
                                                                           seen + {segments[cursor].elements[0]}))))
  {}

  /** The inner loop: from UNH to the UNT that closes it. */
  method ScanToEnd(segments: seq<Segment>, start: nat) returns (r: Result<nat, Error>)
    requires start < |segments| - 1
    ensures r == FindEnd(segments, start + 1)
  {
    var cursor := start + 1;
    while cursor < |segments| - 1 && segments[cursor].tag != "UNT"
      invariant start < cursor < |segments|
      invariant FindEnd(segments, start + 1) == FindEnd(segments, cursor)
    {
      if segments[cursor].tag == "UNH" {
        return Failure(NestedMessage);
      }
      cursor := cursor + 1;
    }
    if cursor >= |segments| - 1 {
      return Failure(Truncated);
    }
    return Success(cursor);
  }

  method CheckMessage(block: seq<Segment>, models: seq<SegmentInfo>, component: char, seen: set<string>)
    returns (r: Result<Message, Error>)
    requires 2 <= |block| && models == Infos(block)
    ensures r == ReadMessage(block, component, seen)
    ensures r.Success? ==> block[0].elements != []
  {
    var unh, unt := block[0].elements, block[|block| - 1].elements;
    if |unh| < 2 || |unt| < 2 {
      return Failure(MessageInvalid);
    }
    if unh[0] != unt[1] {
      return Failure(MessageReferenceMismatch);
    }
    if unh[0] in seen {
      return Failure(DuplicateReference);
    }
    var count := Integer(unt[0]);
    if count.None? {
      return Failure(CountInvalid);
    }
    if count.value != |block| {
      return Failure(SegmentCountMismatch);
    }
    var messageType := FirstComponent(unh[1], component);
    if !ReferenceFormat(unh[0]) || !NamePattern(messageType) || MAX_SEGMENTS < |block| {
      return Failure(FieldFormat);
    }
    return Success(Message(unh[0], messageType, models));
  }

  method ParseMessages(segments: seq<Segment>, component: char) returns (r: Result<seq<Message>, Error>)
    requires 2 <= |segments|
    ensures r == ReadMessages(segments, component, 1, {})
  {
    hide FindEnd, ReadMessage;
    var models: seq<SegmentInfo> := [];
    for i := 0 to |segments|
      invariant models == Infos(segments)[..i]
    {
      models := models + [Info(segments[i])];
    }
    assert models == Infos(segments);
    var messages: seq<Message> := [];
    var seen: set<string> := {};
    var cursor := 1;
    ghost var answer := ReadMessages(segments, component, 1, {});
    assert answer.Success? ==> messages + answer.value == answer.value;
    while cursor < |segments| - 1
      invariant 1 <= cursor < |segments|
      invariant var rest := ReadMessages(segments, component, cursor, seen);
                answer == Prepend(messages, rest)
    {
      if segments[cursor].tag != "UNH" {
        return Failure(MessageUnbalanced);
      }
      NextMessage(segments, component, cursor, seen);
      var end := ScanToEnd(segments, cursor);
      if end.Failure? {
        return Failure(end.error);
      }
      var block := segments[cursor..end.value + 1];
      InfosSlice(segments, cursor, end.value + 1);
      var message := CheckMessage(block, models[cursor..end.value + 1], component, seen);
      if message.Failure? {
        return Failure(message.error);
      }
      PrependMore(messages, message.value,
                  ReadMessages(segments, component, end.value + 1, seen + {block[0].elements[0]}));
      seen := seen + {block[0].elements[0]};
      messages := messages + [message.value];
      cursor := end.value + 1;
    }
    assert messages + [] == messages;
    return Success(messages);
  }

  method ParseEdifact(document: string) returns (r: Result<Envelope, Error>)
    ensures r == ReadDocument(document)
  {
    if exists i :: 0 <= i < |document| && !Allowed(document[i]) {
      return Failure(CharsetInvalid);
    }
    if MAX_BYTES < |document| {
      return Failure(TooLarge);
    }
    var header := ReadSeparators(document);
    if header.Failure? {
      return Failure(header.error);
    }
    var (separators, body) := header.value;
    var tokens := SplitSegments(body, separators);
    if tokens.Failure? {
      return Failure(tokens.error);
    }
    var segments := tokens.value;
    if MAX_SEGMENTS < |segments| {
      return Failure(TooManySegments);
    }
    if segments == [] || segments[0].tag != "UNB" || segments[|segments| - 1].tag != "UNZ" {
      return Failure(EnvelopeInvalid);
    }
    if exists i :: 1 <= i < |segments| - 1 && (segments[i].tag == "UNB" || segments[i].tag == "UNZ") {
      return Failure(NestedEnvelope);
    }
    var unb, unz := segments[0].elements, segments[|segments| - 1].elements;
    if |unb| < 5 || |unz| < 2 {
      return Failure(EnvelopeInvalid);
    }
    if FirstComponent(unb[0], separators.component) == [] {
      return Failure(EnvelopeInvalid);
    }
    if unz[1] != unb[4] {
      return Failure(ControlReferenceMismatch);
    }
    var count := Integer(unz[0]);
    if count.None? {
      return Failure(CountInvalid);
    }
    if exists i :: 0 <= i < |segments| && !InfoFormat(segments[i]) {
      return Failure(FieldFormat);
    }
    var messages := ParseMessages(segments, separators.component);
    if messages.Failure? {
      return Failure(messages.error);
    }
    if messages.value == [] {
      return Failure(MessageMissing);
    }
    if count.value != |messages.value| {
      return Failure(MessageCountMismatch);
    }
    r := IssueEnvelope(unb[0], unb[4], messages.value);
  }
}

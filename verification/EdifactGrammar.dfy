/**
 The interchange grammar stated on its own, and the proof that the cursor-driven parser accepts exactly
 that language: UNB, one or more blocks UNH body UNT, then UNZ, with their counts and references.
 */
module EdifactGrammar {
  import opened Wrappers
  import opened Edifact
  import T = EdifactRoundTrip

  function Flatten(blocks: seq<seq<Segment>>): seq<Segment> {
    if blocks == [] then [] else blocks[0] + Flatten(blocks[1..])
  }

  /** UNH, a body without further message envelopes, UNT. */
  predicate Shape(block: seq<Segment>) {
    && 2 <= |block| && block[0].tag == "UNH" && block[|block| - 1].tag == "UNT"
    && forall i | 1 <= i < |block| - 1 :: block[i].tag != "UNH" && block[i].tag != "UNT"
  }

  /** Matching references, a correct segment count, and fields within their formats. */
  predicate Block(block: seq<Segment>, component: char) {
    && Shape(block)
    && var unh, unt := block[0].elements, block[|block| - 1].elements;
    && 2 <= |unh| && 2 <= |unt| && unh[0] == unt[1]
    && CountPattern(unt[0]) && CountValue(unt[0]) == |block| <= MAX_SEGMENTS
    && ReferenceFormat(unh[0]) && NamePattern(FirstComponent(unh[1], component))
  }

  function Reference(block: seq<Segment>): string
    requires block != [] && block[0].elements != []
  {
    block[0].elements[0]
  }

  predicate Blocks(blocks: seq<seq<Segment>>, component: char) {
    && (forall i | 0 <= i < |blocks| :: Block(blocks[i], component))
    && (forall i, j | 0 <= i < j < |blocks| :: Reference(blocks[i]) != Reference(blocks[j]))
  }

  function MessageOf(block: seq<Segment>, component: char): Message
    requires Block(block, component)
  {
    Message(Reference(block), FirstComponent(block[0].elements[1], component), Infos(block))
  }

  function MessagesOf(blocks: seq<seq<Segment>>, component: char): seq<Message>
    requires Blocks(blocks, component)
  {
    seq(|blocks|, i requires 0 <= i < |blocks| => MessageOf(blocks[i], component))
  }

  /**
   The whole language. The segment limit is strict: the envelope records three segments more than its
   messages hold, one more than the wire carries, and that number must fit the limit too.
   */
  predicate Interchange(segments: seq<Segment>, blocks: seq<seq<Segment>>, component: char) {
    |segments| < MAX_SEGMENTS && WellFormed(segments, blocks, component)
  }

  /** Every clause of the grammar but the segment limit. */
  predicate WellFormed(segments: seq<Segment>, blocks: seq<seq<Segment>>, component: char) {
    && Framed(segments) && NoInnerEnvelope(segments)
    && segments[1..|segments| - 1] == Flatten(blocks) && blocks != [] && Blocks(blocks, component)
    && (forall i | 0 <= i < |segments| :: InfoFormat(segments[i]))
    && var unb, unz := segments[0].elements, segments[|segments| - 1].elements;
    && 5 <= |unb| && 2 <= |unz| && FirstComponent(unb[0], component) != [] && unz[1] == unb[4]
    && CountPattern(unz[0]) && CountValue(unz[0]) == |blocks|
    && ReferenceFormat(unb[0]) && ReferenceFormat(unb[4])
  }

  function EnvelopeOf(segments: seq<Segment>, blocks: seq<seq<Segment>>, component: char): Envelope
    requires Interchange(segments, blocks, component)
  {
    Envelope(segments[0].elements[0], segments[0].elements[4], |blocks|, |segments| + 1, MessagesOf(blocks, component))
  }

  // ---------------------------------------------------------------- from cursor to blocks

  ghost predicate Fresh(blocks: seq<seq<Segment>>, component: char, seen: set<string>)
    requires Blocks(blocks, component)
  {
    forall i | 0 <= i < |blocks| :: Reference(blocks[i]) !in seen
  }

  lemma BlocksCons(block: seq<Segment>, rest: seq<seq<Segment>>, component: char)
    requires Block(block, component) && Blocks(rest, component)
    requires forall i | 0 <= i < |rest| :: Reference(rest[i]) != Reference(block)
    ensures Blocks([block] + rest, component)
    ensures MessagesOf([block] + rest, component) == [MessageOf(block, component)] + MessagesOf(rest, component)
  {
    var blocks := [block] + rest;
    forall i | 0 <= i < |blocks| ensures Block(blocks[i], component) {
      assert 0 < i ==> blocks[i] == rest[i - 1];
    }
    forall i, j | 0 <= i < j < |blocks| ensures Reference(blocks[i]) != Reference(blocks[j]) {
      assert blocks[j] == rest[j - 1] && (0 < i ==> blocks[i] == rest[i - 1]);
    }
  }

  lemma BlocksUncons(blocks: seq<seq<Segment>>, component: char)
    requires blocks != [] && Blocks(blocks, component)
    ensures Block(blocks[0], component) && Blocks(blocks[1..], component)
    ensures forall i | 0 <= i < |blocks[1..]| :: Reference(blocks[1..][i]) != Reference(blocks[0])
    ensures MessagesOf(blocks, component) == [MessageOf(blocks[0], component)] + MessagesOf(blocks[1..], component)
  {
    var rest := blocks[1..];
    forall i | 0 <= i < |rest| ensures Block(rest[i], component) && Reference(rest[i]) != Reference(blocks[0]) {
      assert rest[i] == blocks[i + 1];
    }
    forall i, j | 0 <= i < j < |rest| ensures Reference(rest[i]) != Reference(rest[j]) {
      assert rest[i] == blocks[i + 1] && rest[j] == blocks[j + 1];
    }
    BlocksCons(blocks[0], rest, component);
    assert [blocks[0]] + rest == blocks;
  }

  lemma MessageIsBlock(block: seq<Segment>, component: char, seen: set<string>)
    requires Shape(block)
    ensures ReadMessage(block, component, seen).Success? <==>
              Block(block, component) && Reference(block) !in seen
    ensures Block(block, component) && Reference(block) !in seen ==>
              ReadMessage(block, component, seen).value == MessageOf(block, component)
  {}

  lemma FoundShape(segments: seq<Segment>, cursor: nat, end: nat)
    requires cursor < |segments| - 1 && segments[cursor].tag == "UNH"
    requires FindEnd(segments, cursor + 1) == Success(end)
    ensures cursor < end < |segments| - 1 && Shape(segments[cursor..end + 1])
  {}

  lemma NoMoreMessages(segments: seq<Segment>, component: char, cursor: nat, seen: set<string>)
    requires |segments| <= cursor + 1
    ensures ReadMessages(segments, component, cursor, seen) == Success([])
  {}

  lemma UnhAtCursor(segments: seq<Segment>, component: char, cursor: nat, seen: set<string>)
    requires cursor < |segments| - 1 && ReadMessages(segments, component, cursor, seen).Success?
    ensures segments[cursor].tag == "UNH"
  {
  }

  /** One turn of the parser's loop consumes one block. */
  lemma ReadStep(segments: seq<Segment>, component: char, cursor: nat, seen: set<string>) returns (end: nat)
    requires 1 <= cursor < |segments| - 1 && ReadMessages(segments, component, cursor, seen).Success?
    ensures cursor + 1 < end < |segments|
    ensures var block := segments[cursor..end];
            && Block(block, component) && Reference(block) !in seen
            && var rest := ReadMessages(segments, component, end, seen + {Reference(block)});
            && rest.Success?
            && ReadMessages(segments, component, cursor, seen).value == [MessageOf(block, component)] + rest.value
  {
    hide ReadMessage, FindEnd;
    UnhAtCursor(segments, component, cursor, seen);
    NextMessage(segments, component, cursor, seen);
    end := FindEnd(segments, cursor + 1).value + 1;
    FoundShape(segments, cursor, end - 1);
    MessageIsBlock(segments[cursor..end], component, seen);
  }

  /** Soundness of the cursor: what is read from `cursor` on is a list of blocks, in order and complete. */
  lemma {:induction false} ReadIsBlocks(segments: seq<Segment>, component: char, cursor: nat, seen: set<string>)
    returns (blocks: seq<seq<Segment>>)
    requires 1 <= cursor < |segments| && ReadMessages(segments, component, cursor, seen).Success?
    ensures Blocks(blocks, component) && Fresh(blocks, component, seen)
    ensures segments[cursor..|segments| - 1] == Flatten(blocks)
    ensures ReadMessages(segments, component, cursor, seen).value == MessagesOf(blocks, component)
    decreases |segments| - cursor
  {
    hide ReadMessages;
    if |segments| <= cursor + 1 {
      NoMoreMessages(segments, component, cursor, seen);
      blocks := [];
    } else {
      var end := ReadStep(segments, component, cursor, seen);
      var block := segments[cursor..end];
      var rest := ReadIsBlocks(segments, component, end, seen + {Reference(block)});
      BlocksCons(block, rest, component);
      blocks := [block] + rest;
      FreshCons(block, rest, component, seen);
      assert blocks[1..] == rest;
      assert segments[cursor..|segments| - 1] == block + segments[end..|segments| - 1];
    }
  }

  lemma FreshCons(block: seq<Segment>, rest: seq<seq<Segment>>, component: char, seen: set<string>)
    requires Blocks([block] + rest, component) && Blocks(rest, component)
    requires Reference(([block] + rest)[0]) == Reference(block)
    requires Reference(block) !in seen && Fresh(rest, component, seen + {Reference(block)})
    ensures Fresh([block] + rest, component, seen)
  {
    var blocks := [block] + rest;
    forall i | 0 <= i < |blocks| ensures Reference(blocks[i]) !in seen {
      assert 0 < i ==> blocks[i] == rest[i - 1];
    }
  }

  /** The first UNT after a block's UNH is the block's own. */
  lemma {:induction false} FindEndOfBlock(segments: seq<Segment>, block: seq<Segment>, cursor: nat, at: nat)
    requires Shape(block) && 1 <= at < |block| && cursor + |block| < |segments|
    requires segments[cursor..cursor + |block|] == block
    ensures FindEnd(segments, cursor + at) == Success(cursor + |block| - 1)
    decreases |block| - at
  {
    assert segments[cursor + at] == block[at];
    if at < |block| - 1 {
      FindEndOfBlock(segments, block, cursor, at + 1);
    }
  }

  lemma FreshUncons(blocks: seq<seq<Segment>>, component: char, seen: set<string>)
    requires blocks != [] && Blocks(blocks, component) && Blocks(blocks[1..], component)
    requires Fresh(blocks, component, seen)
    ensures Reference(blocks[0]) !in seen && Fresh(blocks[1..], component, seen + {Reference(blocks[0])})
  {
    var rest := blocks[1..];
    forall i | 0 <= i < |rest| ensures Reference(rest[i]) !in seen + {Reference(blocks[0])} {
      assert rest[i] == blocks[i + 1];
    }
  }

  /** One block at the cursor is one turn of the parser's loop. */
  lemma ReadBlockAt(segments: seq<Segment>, block: seq<Segment>, component: char, cursor: nat, seen: set<string>)
    requires Block(block, component) && Reference(block) !in seen && cursor + |block| < |segments|
    requires segments[cursor..cursor + |block|] == block
    ensures ReadMessages(segments, component, cursor, seen) ==
            Prepend([MessageOf(block, component)],
                    ReadMessages(segments, component, cursor + |block|, seen + {Reference(block)}))
  {
    assert segments[cursor] == block[0];
    FindEndOfBlock(segments, block, cursor, 1);
    NextMessage(segments, component, cursor, seen);
    MessageIsBlock(block, component, seen);
    assert segments[cursor..cursor + |block| - 1 + 1] == block;
  }

  lemma FlattenSplit(segments: seq<Segment>, blocks: seq<seq<Segment>>, cursor: nat)
    requires cursor < |segments| && blocks != [] && segments[cursor..|segments| - 1] == Flatten(blocks)
    ensures cursor + |blocks[0]| < |segments| && segments[cursor..cursor + |blocks[0]|] == blocks[0]
    ensures segments[cursor + |blocks[0]|..|segments| - 1] == Flatten(blocks[1..])
  {
    var inner, n := segments[cursor..|segments| - 1], |blocks[0]|;
    assert |inner| == n + |Flatten(blocks[1..])|;
    assert segments[cursor..cursor + n] == inner[..n];
    assert segments[cursor + n..|segments| - 1] == inner[n..];
  }

  /** Completeness of the cursor: a list of blocks before UNZ is read as exactly those blocks. */
  lemma {:induction false} BlocksAreRead(segments: seq<Segment>, blocks: seq<seq<Segment>>, component: char,
                                         cursor: nat, seen: set<string>)
    requires 1 <= cursor < |segments| && Blocks(blocks, component) && Fresh(blocks, component, seen)
    requires segments[cursor..|segments| - 1] == Flatten(blocks)
    ensures ReadMessages(segments, component, cursor, seen) == Success(MessagesOf(blocks, component))
    decreases blocks
  {
    hide ReadMessages;
    if blocks == [] {
      assert |segments[cursor..|segments| - 1]| == 0 && MessagesOf(blocks, component) == [];
      NoMoreMessages(segments, component, cursor, seen);
    } else {
      var block, rest := blocks[0], blocks[1..];
      assert Block(block, component) && Blocks(rest, component)
          && MessagesOf(blocks, component) == [MessageOf(block, component)] + MessagesOf(rest, component) by {
        BlocksUncons(blocks, component);
      }
      FreshUncons(blocks, component, seen);
      FlattenSplit(segments, blocks, cursor);
      BlocksAreRead(segments, rest, component, cursor + |block|, seen + {Reference(block)});
      ReadBlockAt(segments, block, component, cursor, seen);
    }
  }

  function AllSegments(messages: seq<Message>): seq<SegmentInfo> {
    if messages == [] then [] else messages[0].segments + AllSegments(messages[1..])
  }

  lemma InfosAppend(a: seq<Segment>, b: seq<Segment>)
    ensures Infos(a + b) == Infos(a) + Infos(b)
  {}

  lemma {:induction false} AllSegmentsOfBlocks(blocks: seq<seq<Segment>>, component: char)
    requires Blocks(blocks, component)
    ensures AllSegments(MessagesOf(blocks, component)) == Infos(Flatten(blocks))
  {
    if blocks != [] {
      var rest := blocks[1..];
      assert Blocks(rest, component);
      AllSegmentsOfBlocks(rest, component);
      InfosAppend(blocks[0], Flatten(rest));
      assert MessagesOf(blocks, component)[1..] == MessagesOf(rest, component);
      assert MessagesOf(blocks, component)[0].segments == Infos(blocks[0]);
    }
  }

  lemma {:induction false} TotalIsLength(messages: seq<Message>)
    ensures TotalSegments(messages) == |AllSegments(messages)|
  {
    if messages != [] {
      var init, last := messages[..|messages| - 1], messages[|messages| - 1];
      TotalIsLength(init);
      AllSegmentsAppend(init, last);
      assert init + [last] == messages;
    }
  }

  lemma {:induction false} AllSegmentsAppend(messages: seq<Message>, last: Message)
    ensures AllSegments(messages + [last]) == AllSegments(messages) + last.segments
  {
    if messages == [] {
      assert messages + [last] == [last];
      assert AllSegments([last]) == last.segments + AllSegments([]);
    } else {
      assert (messages + [last])[0] == messages[0] && (messages + [last])[1..] == messages[1..] + [last];
      AllSegmentsAppend(messages[1..], last);
    }
  }

  lemma InfosLength(segments: seq<Segment>)
    ensures |Infos(segments)| == |segments|
  {
  }

  lemma IssueOfBlocks(segments: seq<Segment>, blocks: seq<seq<Segment>>, component: char)
    requires 2 <= |segments| && segments[1..|segments| - 1] == Flatten(blocks) && Blocks(blocks, component)
    ensures TotalSegments(MessagesOf(blocks, component)) == |segments| - 2
    ensures DistinctReferences(MessagesOf(blocks, component))
    ensures |blocks| <= |segments|
  {
    hide Blocks, Block, Flatten, TotalSegments, AllSegments, Infos;
    AllSegmentsOfBlocks(blocks, component);
    TotalIsLength(MessagesOf(blocks, component));
    InfosLength(segments[1..|segments| - 1]);
    ReferencesDiffer(blocks, component);
    FlattenLonger(blocks, component);
  }

  lemma ReferencesDiffer(blocks: seq<seq<Segment>>, component: char)
    requires Blocks(blocks, component)
    ensures DistinctReferences(MessagesOf(blocks, component))
  {
    hide Infos, FirstComponent, CountValue;
    var messages := MessagesOf(blocks, component);
    forall i, j | 0 <= i < j < |messages| ensures messages[i].reference != messages[j].reference {
      assert Block(blocks[i], component) && Block(blocks[j], component);
      assert Reference(blocks[i]) != Reference(blocks[j]);
    }
  }

  lemma {:induction false} FlattenLonger(blocks: seq<seq<Segment>>, component: char)
    requires Blocks(blocks, component)
    ensures 2 * |blocks| <= |Flatten(blocks)|
  {
    if blocks != [] {
      BlocksUncons(blocks, component);
      FlattenLonger(blocks[1..], component);
    }
  }

  // ---------------------------------------------------------------- main results

  /** Soundness: whatever the parser accepts is an interchange of the grammar, and its messages are the blocks. */
  lemma ParserSound(segments: seq<Segment>, component: char) returns (blocks: seq<seq<Segment>>)
    requires ReadInterchange(segments, component).Success?
    ensures Interchange(segments, blocks, component)
    ensures ReadInterchange(segments, component).value == EnvelopeOf(segments, blocks, component)
  {
    hide ReadMessages;
    blocks := ReadIsBlocks(segments, component, 1, {});
    IssueOfBlocks(segments, blocks, component);
  }

  /** Completeness: every interchange of the grammar is accepted. */
  lemma ParserComplete(segments: seq<Segment>, blocks: seq<seq<Segment>>, component: char)
    requires Interchange(segments, blocks, component)
    ensures ReadInterchange(segments, component) == Success(EnvelopeOf(segments, blocks, component))
  {
    hide ReadMessages;
    BlocksAreRead(segments, blocks, component, 1, {});
    IssueOfBlocks(segments, blocks, component);
  }

  /** The parser accepts exactly the interchanges of the grammar. */
  lemma AcceptsExactlyTheGrammar(segments: seq<Segment>, component: char)
    ensures ReadInterchange(segments, component).Success? <==>
            exists blocks :: Interchange(segments, blocks, component)
  {
    if ReadInterchange(segments, component).Success? {
      var blocks := ParserSound(segments, component);
    }
    if blocks :| Interchange(segments, blocks, component) {
      ParserComplete(segments, blocks, component);
    }
  }

  /**
   The returned messages partition the inner segments, in order, and the recorded segment count is one
   more than the number of segments on the wire.
   */
  lemma MessagesPartitionInterior(segments: seq<Segment>, component: char)
    requires ReadInterchange(segments, component).Success?
    ensures var envelope := ReadInterchange(segments, component).value;
            && AllSegments(envelope.messages) == Infos(segments[1..|segments| - 1])
            && envelope.messageCount == |envelope.messages|
            && envelope.segmentCount == |segments| + 1
  {
    var blocks := ParserSound(segments, component);
    AllSegmentsOfBlocks(blocks, component);
  }

  /** The division into blocks is unique: the grammar is unambiguous. */
  lemma {:induction false} BlocksUnique(a: seq<seq<Segment>>, b: seq<seq<Segment>>)
    requires forall i | 0 <= i < |a| :: Shape(a[i])
    requires forall i | 0 <= i < |b| :: Shape(b[i])
    requires Flatten(a) == Flatten(b)
    ensures a == b
  {
    assert a != [] ==> |Flatten(a)| >= |a[0]| >= 2;
    assert b != [] ==> |Flatten(b)| >= |b[0]| >= 2;
    if a != [] && b != [] {
      FirstBlockLength(a[0], Flatten(a[1..]), b[0], Flatten(b[1..]));
      FirstBlockLength(b[0], Flatten(b[1..]), a[0], Flatten(a[1..]));
      assert a[0] == Flatten(a)[..|a[0]|] && b[0] == Flatten(b)[..|b[0]|];
      assert Flatten(a[1..]) == Flatten(a)[|a[0]|..] && Flatten(b[1..]) == Flatten(b)[|b[0]|..];
      BlocksUnique(a[1..], b[1..]);
      assert a == [a[0]] + a[1..] && b == [b[0]] + b[1..];
    }
  }

  lemma FirstBlockLength(a: seq<Segment>, restA: seq<Segment>, b: seq<Segment>, restB: seq<Segment>)
    requires Shape(a) && Shape(b) && a + restA == b + restB
    ensures |a| <= |b|
  {
    assert (a + restA)[|b| - 1] == b[|b| - 1];
  }

  // ---------------------------------------------------------------- from the wire to the envelope

  function Header(s: Separators): string {
    "UNA" + [s.component, s.element, s.decimal, s.release, ' ', s.terminator]
  }

  lemma ReadHeader(s: Separators, body: string)
    requires Distinct(s)
    ensures ReadSeparators(Header(s) + body) == Success((s, body))
  {
    var data := Header(s) + body;
    assert data[..3] == "UNA" && data[9..] == body;
  }

  /**
   End to end: an interchange of the grammar, written under separators announced by UNA, parses to the
   envelope of its blocks if the separators carry its segments, and is rejected if they do not.
   */
  lemma DocumentRoundTrip(segments: seq<Segment>, blocks: seq<seq<Segment>>, breaks: seq<string>, s: Separators)
    requires Distinct(s) && |breaks| == |segments| + 1
    requires Interchange(segments, blocks, s.component)
    requires forall i | 0 <= i < |segments| :: T.Printable(segments[i], s)
    requires forall i | 0 <= i < |breaks| :: T.OnlyBreaks(breaks[i])
    requires var document := Header(s) + T.Print(segments, breaks, s);
             |document| <= MAX_BYTES && forall i | 0 <= i < |document| :: Allowed(document[i])
    ensures var r := ReadDocument(Header(s) + T.Print(segments, breaks, s));
            if T.Carries(segments, s) then r == Success(EnvelopeOf(segments, blocks, s.component)) else r.Failure?
  {
    hide Tokenize, ReadInterchange;
    ReadHeader(s, T.Print(segments, breaks, s));
    T.RoundTrip(segments, breaks, s);
    ParserComplete(segments, blocks, s.component);
  }

  /** The same without UNA, under the default separators, which carry every segment. */
  lemma PlainDocumentRoundTrip(segments: seq<Segment>, blocks: seq<seq<Segment>>, breaks: seq<string>)
    requires |breaks| == |segments| + 1 && Interchange(segments, blocks, ':')
    requires forall i | 0 <= i < |segments| :: T.Printable(segments[i], DEFAULT_SEPARATORS)
    requires forall i | 0 <= i < |breaks| :: T.OnlyBreaks(breaks[i])
    requires var document := T.Print(segments, breaks, DEFAULT_SEPARATORS);
             |document| <= MAX_BYTES && forall i | 0 <= i < |document| :: Allowed(document[i])
    ensures ReadDocument(T.Print(segments, breaks, DEFAULT_SEPARATORS)) == Success(EnvelopeOf(segments, blocks, ':'))
  {
    hide Tokenize, ReadInterchange;
    NoServiceString(segments, breaks);
    T.RoundTrip(segments, breaks, DEFAULT_SEPARATORS);
    ParserComplete(segments, blocks, ':');
  }

  /** What is printed begins with a line break or with UNB, so it is not taken for a service string. */
  lemma NoServiceString(segments: seq<Segment>, breaks: seq<string>)
    requires |breaks| == |segments| + 1 && segments != [] && segments[0].tag == "UNB"
    requires T.OnlyBreaks(breaks[0])
    ensures !("UNA" <= T.Print(segments, breaks, DEFAULT_SEPARATORS))
  {
    var s := DEFAULT_SEPARATORS;
    assert "UNB"[1..] == "NB" && "NB"[1..] == "B" && "B"[1..] == "";
    assert T.Escape("UNB", s) == "UNB";
    var document := T.Print(segments, breaks, s);
    if breaks[0] == [] {
      assert document[2] == 'B';
    } else {
      assert document[0] == breaks[0][0];
    }
  }

  // ---------------------------------------------------------------- the segment limit

  /**
   A list that meets every clause of the grammar but its limit is accepted below 4096 segments, refused
   when its envelope is issued at exactly 4096, and refused as too long above.
   */
  lemma SizeDecides(segments: seq<Segment>, blocks: seq<seq<Segment>>, component: char)
    requires WellFormed(segments, blocks, component)
    ensures ReadInterchange(segments, component) ==
            if |segments| < MAX_SEGMENTS then Success(EnvelopeOf(segments, blocks, component))
            else if |segments| == MAX_SEGMENTS then Failure(FieldFormat)
            else Failure(TooManySegments)
  {
    if |segments| < MAX_SEGMENTS {
      ParserComplete(segments, blocks, component);
    } else if |segments| == MAX_SEGMENTS {
      hide ReadMessages;
      BlocksAreRead(segments, blocks, component, 1, {});
      IssueOfBlocks(segments, blocks, component);
    }
  }

  const FILLER := MAX_SEGMENTS - 4

  /** One message around 4092 plain segments: with its envelopes exactly 4096. */
  function FullBlock(): seq<Segment> {
    [Segment("UNH", ["1", "ORDERS"], 13)] + seq(FILLER, i requires 0 <= i < FILLER => Segment("AA", [], 3))
    + [Segment("UNT", ["4094", "1"], 11)]
  }

  function FullInterchange(): seq<Segment> {
    [Segment("UNB", ["UNOA", "S", "R", "D", "C"], 17)] + FullBlock() + [Segment("UNZ", ["1", "C"], 8)]
  }

  lemma FullBlockIsBlock()
    ensures |FullBlock()| == MAX_SEGMENTS - 2 && Block(FullBlock(), ':')
  {
    hide Shape, CountValue, FirstComponent;
    FullBlockHasShape();
    FullCount();
    FirstComponentOf("ORDERS");
  }

  lemma FullBlockHasShape()
    ensures Shape(FullBlock())
  {
    var block := FullBlock();
    assert block[0].tag == "UNH" && block[|block| - 1].tag == "UNT";
    forall i | 1 <= i < |block| - 1 ensures block[i].tag != "UNH" && block[i].tag != "UNT" {
      assert block[i] == Segment("AA", [], 3);
      assert "AA"[0] == 'A' && "UNH"[0] == 'U' && "UNT"[0] == 'U';
    }
  }

  lemma FullCount()
    ensures CountPattern("4094") && CountValue("4094") == 4094
  {
    assert "4094"[..3] == "409" && "409"[..2] == "40" && "40"[..1] == "4" && "4"[..0] == "";
    assert CountValue("4") == 4 && CountValue("40") == 40 && CountValue("409") == 409;
  }

  lemma {:induction false} FirstComponentOf(text: string)
    requires ':' !in text
    ensures FirstComponent(text, ':') == text
  {
    if text != [] {
      FirstComponentOf(text[1..]);
    }
  }

  /** There is such a list: it tokenizes, and its envelope is then refused. */
  lemma FullInterchangeIsRefused(breaks: seq<string>)
    requires |breaks| == MAX_SEGMENTS + 1 && forall i | 0 <= i < |breaks| :: T.OnlyBreaks(breaks[i])
    ensures var segments := FullInterchange();
            && |segments| == MAX_SEGMENTS && WellFormed(segments, [FullBlock()], ':')
            && Tokenize(T.Print(segments, breaks, DEFAULT_SEPARATORS), DEFAULT_SEPARATORS) == Success(segments)
            && ReadInterchange(segments, ':') == Failure(FieldFormat)
  {
    hide T.Print, T.Printable, Tokenize, ReadInterchange, FullInterchange, FullBlock, WellFormed;
    FullInterchangeIsWellFormed();
    FullInterchangeIsPrintable();
    T.RoundTrip(FullInterchange(), breaks, DEFAULT_SEPARATORS);
    SizeDecides(FullInterchange(), [FullBlock()], ':');
  }

  lemma FullInterchangeIsWellFormed()
    ensures |FullInterchange()| == MAX_SEGMENTS && WellFormed(FullInterchange(), [FullBlock()], ':')
  {
    hide Block, CountValue, FirstComponent;
    FullBlockIsBlock();
    FullInterchangeIsFramed();
    var block := FullBlock();
    assert Flatten([block]) == block by {
      assert [block][1..] == [] && Flatten([]) == [];
    }
    assert CountValue("1") == 1 && CountPattern("1") by { One(); }
    assert FirstComponent("UNOA", ':') == "UNOA" by { FirstComponentOf("UNOA"); }
  }

  lemma One()
    ensures CountPattern("1") && CountValue("1") == 1
  {
    assert "1"[..0] == "";
  }

  lemma FullInterchangeIsFramed()
    ensures var segments := FullInterchange();
            && |segments| == MAX_SEGMENTS && Framed(segments) && NoInnerEnvelope(segments)
            && segments[1..|segments| - 1] == FullBlock()
            && forall i | 0 <= i < |segments| :: InfoFormat(segments[i])
  {
    var segments, block := FullInterchange(), FullBlock();
    assert segments[1..|segments| - 1] == block;
    forall i | 1 <= i < |segments| - 1
      ensures segments[i].tag != "UNB" && segments[i].tag != "UNZ" && InfoFormat(segments[i])
    {
      assert segments[i] == block[i - 1];
      assert "UNH"[2] == 'H' && "UNT"[2] == 'T' && "UNB"[2] == 'B' && "UNZ"[2] == 'Z';
    }
  }

  lemma FullInterchangeIsPrintable()
    ensures forall i | 0 <= i < |FullInterchange()| :: T.Printable(FullInterchange()[i], DEFAULT_SEPARATORS)
  {
    hide T.Printable, FullInterchange, T.ElementsLength, NamePattern;
    var s, segments := DEFAULT_SEPARATORS, FullInterchange();
    FullSegments();
    assert NamePattern("AA") && NamePattern("UNB") && NamePattern("UNH") && NamePattern("UNT") && NamePattern("UNZ") by {
      FullTags();
    }
    assert "AA"[0] == 'A' && "UN"[0] == 'U';
    T.PrintsPlainly("AA", [], s);
    T.PrintsPlainly("UNB", ["UNOA", "S", "R", "D", "C"], s);
    T.PrintsPlainly("UNH", ["1", "ORDERS"], s);
    T.PrintsPlainly("UNT", ["4094", "1"], s);
    T.PrintsPlainly("UNZ", ["1", "C"], s);
    FullLengths();
    forall i | 0 <= i < |segments| ensures T.Printable(segments[i], s) {
      assert segments[i] in segments;
    }
  }

  lemma FullTags()
    ensures NamePattern("AA") && NamePattern("UNB") && NamePattern("UNH") && NamePattern("UNT") && NamePattern("UNZ")
  {
  }

  lemma FullSegments()
    ensures forall segment | segment in FullInterchange() ::
              || segment == Segment("AA", [], 3) || segment == Segment("UNB", ["UNOA", "S", "R", "D", "C"], 17)
              || segment == Segment("UNH", ["1", "ORDERS"], 13) || segment == Segment("UNT", ["4094", "1"], 11)
              || segment == Segment("UNZ", ["1", "C"], 8)
  {
    var segments, block := FullInterchange(), FullBlock();
    forall segment | segment in block
      ensures || segment == Segment("AA", [], 3) || segment == Segment("UNH", ["1", "ORDERS"], 13)
              || segment == Segment("UNT", ["4094", "1"], 11)
    {
      var i :| 0 <= i < |block| && block[i] == segment;
    }
  }

  lemma FullLengths()
    ensures T.ElementsLength([]) == 0
    ensures T.ElementsLength(["UNOA", "S", "R", "D", "C"]) == 13 && T.ElementsLength(["1", "ORDERS"]) == 9
    ensures T.ElementsLength(["4094", "1"]) == 7 && T.ElementsLength(["1", "C"]) == 4
  {
    T.LengthOfTwo("1", "ORDERS");
    T.LengthOfTwo("4094", "1");
    T.LengthOfTwo("1", "C");
    T.LengthOfTwo("D", "C");
    assert ["R", "D", "C"][1..] == ["D", "C"] && ["S", "R", "D", "C"][1..] == ["R", "D", "C"];
    assert ["UNOA", "S", "R", "D", "C"][1..] == ["S", "R", "D", "C"];
  }
}

/** The synthetic origin's event stream: the printer that the parser inverts. */
module OriginSimulator {
  import opened CodeUnits
  import opened Options
  import Json
  import opened SseFraming

  const ID_PREFIX: Text := ID_FIELD + [COLON, SPACE]
  const EVENT_PREFIX: Text := EVENT_FIELD + [COLON, SPACE]
  const DATA_PREFIX: Text := DATA_FIELD + [COLON, SPACE]
  const PING_LINE: Text := [COLON, SPACE, 112, 105, 110, 103] // : ping

  datatype Block = Notification(event: Text, data: Json.Value, id: nat) | Ping

  function Line(t: Text): Text {
    t + [LF]
  }

  function SseEventText(event: Text, data: Json.Value, id: nat): Text {
    Line(ID_PREFIX + Decimal(id)) + (Line(EVENT_PREFIX + event) + (Line(DATA_PREFIX + Json.Stringify(data)) + Line([])))
  }

  function BlockText(b: Block): Text {
    match b
    case Notification(event, data, id) => SseEventText(event, data, id)
    case Ping => Line(PING_LINE) + Line([])
  }

  function StreamText(blocks: seq<Block>): Text {
    if blocks == [] then [] else BlockText(blocks[0]) + StreamText(blocks[1..])
  }

  /** What a consumer should receive for the blocks. */
  function Notified(blocks: seq<Block>): seq<SseEvent> {
    if blocks == [] then []
    else
      match blocks[0]
      case Ping => Notified(blocks[1..])
      case Notification(event, data, id) =>
        [SseEvent(Some(Decimal(id)), Some(event), Json.Stringify(data))] + Notified(blocks[1..])
  }

  predicate OneLine(t: Text) {
    CR !in t && LF !in t
  }

  predicate CleanNames(blocks: seq<Block>) {
    forall b :: b in blocks && b.Notification? ==> OneLine(b.event)
  }

  // ---------------------------------------------------------------- printed JSON stays on one line

  predicate Printable(t: Text) {
    forall u :: u in t ==> u >= SPACE
  }

  lemma PrintableConcat(a: Text, b: Text)
    requires Printable(a) && Printable(b)
    ensures Printable(a + b)
  {
  }

  lemma {:induction false} EscapePrintable(s: Text)
    ensures Printable(Json.Escape(s))
    decreases |s|
  {
    if s == [] {
    } else if |s| > 1 && IsHighSurrogate(s[0]) && IsLowSurrogate(s[1]) {
      EscapePrintable(s[2..]);
      PrintableConcat([s[0], s[1]], Json.Escape(s[2..]));
    } else {
      EscapePrintable(s[1..]);
      PrintableConcat(Json.EscapeUnit(s[0]), Json.Escape(s[1..]));
    }
  }

  lemma QuotedPrintable(s: Text)
    ensures Printable(Json.Quoted(s))
  {
    EscapePrintable(s);
  }

  /** Whatever the value, its printed form has no control character in it. */
  lemma {:induction false} PrintPrintable(order: Json.Order, v: Json.Value)
    ensures Printable(Json.Print(order, v))
    decreases v, 1, 0
  {
    match v
    case Str(s) => QuotedPrintable(s);
    case Arr(items) => ItemsPrintable(order, v, items);
    case Obj(members) => MembersPrintable(order, v, Json.Arrange(order, members));
    case _ =>
  }

  lemma {:induction false} ItemsPrintable(order: Json.Order, parent: Json.Value, items: seq<Json.Value>)
    requires forall i :: 0 <= i < |items| ==> items[i] < parent
    ensures Printable(Json.PrintItems(order, parent, items))
    decreases parent, 0, |items|
  {
    if items != [] {
      PrintPrintable(order, items[0]);
      if |items| > 1 {
        ItemsPrintable(order, parent, items[1..]);
        PrintableConcat(Json.Print(order, items[0]) + [COMMA], Json.PrintItems(order, parent, items[1..]));
      }
    }
  }

  lemma {:induction false} MembersPrintable(order: Json.Order, parent: Json.Value, ms: seq<Json.Member>)
    requires forall m :: m in ms ==> m.value.Some? && m.value.value < parent
    ensures Printable(Json.PrintMembers(order, parent, ms))
    decreases parent, 0, |ms|
  {
    if ms != [] {
      QuotedPrintable(ms[0].key);
      PrintPrintable(order, ms[0].value.value);
      var first := Json.Quoted(ms[0].key) + [COLON] + Json.Print(order, ms[0].value.value);
      PrintableConcat(Json.Quoted(ms[0].key) + [COLON], Json.Print(order, ms[0].value.value));
      if |ms| > 1 {
        MembersPrintable(order, parent, ms[1..]);
        PrintableConcat(first + [COMMA], Json.PrintMembers(order, parent, ms[1..]));
      }
    }
  }

  // ---------------------------------------------------------------- the round trip

  lemma LineSplitsOff(line: Text, rest: Text)
    requires OneLine(line)
    ensures SplitLines(Line(line) + rest) == SplitLines(rest).After([line])
  {
    var t := Line(line) + rest;
    assert t[|line|] == LF;
    assert forall i :: 0 <= i < |line| ==> t[i] == line[i] && line[i] in line;
    assert FirstTerminator(t) == |line|;
    assert t[..|line|] == line && t[|line| + 1..] == rest;
  }

  function BlockLines(b: Block): seq<Text> {
    match b
    case Notification(event, data, id) =>
      [ID_PREFIX + Decimal(id), EVENT_PREFIX + event, DATA_PREFIX + Json.Stringify(data), []]
    case Ping => [PING_LINE, []]
  }

  lemma TwoLinesSplitOff(first: Text, second: Text, rest: Text)
    requires OneLine(first) && OneLine(second)
    ensures SplitLines(Line(first) + (Line(second) + rest)) == SplitLines(rest).After([first, second])
  {
    LineSplitsOff(second, rest);
    LineSplitsOff(first, Line(second) + rest);
    SplitLines(rest).AfterAssociative([first], [second]);
  }

  lemma FourLinesSplitOff(first: Text, second: Text, third: Text, rest: Text)
    requires OneLine(first) && OneLine(second) && OneLine(third)
    ensures SplitLines(Line(first) + (Line(second) + (Line(third) + Line([]))) + rest)
            == SplitLines(rest).After([first, second, third, []])
  {
    var tail := Line(third) + (Line([]) + rest);
    calc {
      SplitLines(Line(first) + (Line(second) + (Line(third) + Line([]))) + rest);
      { assert Line(first) + (Line(second) + (Line(third) + Line([]))) + rest == Line(first) + (Line(second) + tail); }
      SplitLines(Line(first) + (Line(second) + tail));
      { TwoLinesSplitOff(first, second, tail); TwoLinesSplitOff(third, [], rest); }
      SplitLines(rest).After([third, []]).After([first, second]);
      { SplitLines(rest).AfterAssociative([first, second], [third, []]); }
      SplitLines(rest).After([first, second] + [third, []]);
      { assert [first, second] + [third, []] == [first, second, third, []]; }
      SplitLines(rest).After([first, second, third, []]);
    }
  }

  lemma NotificationSplitsOff(event: Text, data: Json.Value, id: nat, rest: Text)
    requires OneLine(event)
    ensures SplitLines(SseEventText(event, data, id) + rest)
            == SplitLines(rest).After(
                 [ID_PREFIX + Decimal(id), EVENT_PREFIX + event, DATA_PREFIX + Json.Stringify(data), []])
  {
    PrintPrintable(Json.AsInserted, data);
    assert OneLine(ID_PREFIX + Decimal(id)) && OneLine(EVENT_PREFIX + event);
    assert OneLine(DATA_PREFIX + Json.Stringify(data));
    hide SplitLines, Line, Json.Stringify, Lines.After, OneLine;
    FourLinesSplitOff(ID_PREFIX + Decimal(id), EVENT_PREFIX + event, DATA_PREFIX + Json.Stringify(data), rest);
  }

  lemma BlockSplitsOff(b: Block, rest: Text)
    requires b.Notification? ==> OneLine(b.event)
    ensures SplitLines(BlockText(b) + rest) == SplitLines(rest).After(BlockLines(b))
  {
    hide SplitLines, Line, SseEventText, Json.Stringify, Lines.After;
    match b
    case Ping =>
      assert OneLine(PING_LINE) && OneLine([]);
      TwoLinesSplitOff(PING_LINE, [], rest);
      assert BlockText(b) + rest == Line(PING_LINE) + (Line([]) + rest);
    case Notification(event, data, id) => NotificationSplitsOff(event, data, id, rest);
  }

  lemma FieldLine(p: Pending, field: Text, value: Text)
    requires field != [] && COLON !in field
    ensures ProcessLine(p, field + [COLON, SPACE] + value) == Processed(WithField(p, field, value), [])
  {
    var line := field + [COLON, SPACE] + value;
    assert line[|field|] == COLON;
    assert forall i :: 0 <= i < |field| ==> line[i] == field[i] && field[i] in field;
    assert IndexOf(line, COLON) == |field|;
    assert line[..|field|] == field;
    assert line[|field| + 1..] == [SPACE] + value;
    assert ([SPACE] + value)[1..] == value;
  }

  /** Three fields and a blank line make one event. */
  lemma NotificationProcesses(id: Text, event: Text, data: Text)
    ensures ProcessLines(NOTHING_PENDING, [ID_PREFIX + id, EVENT_PREFIX + event, DATA_PREFIX + data, []])
            == Processed(NOTHING_PENDING, [SseEvent(Some(id), Some(event), data)])
  {
    var p1 := WithField(NOTHING_PENDING, ID_FIELD, id);
    var p2 := WithField(p1, EVENT_FIELD, event);
    var p3 := WithField(p2, DATA_FIELD, data);
    FieldsDiffer();
    assert p3 == Pending(Some(id), Some(event), [data], true);
    assert ProcessLine(p3, []) == Processed(NOTHING_PENDING, [SseEvent(Some(id), Some(event), data)]);
    FieldLine(NOTHING_PENDING, ID_FIELD, id);
    FieldLine(p1, EVENT_FIELD, event);
    FieldLine(p2, DATA_FIELD, data);
    ProcessSingle(p3, []);
    hide ProcessLine, WithField;
    ProcessLinesHead(p2, DATA_PREFIX + data, [[]]);
    ProcessLinesHead(p1, EVENT_PREFIX + event, [DATA_PREFIX + data, []]);
    ProcessLinesHead(NOTHING_PENDING, ID_PREFIX + id, [EVENT_PREFIX + event, DATA_PREFIX + data, []]);
  }

  lemma PingProcesses()
    ensures ProcessLines(NOTHING_PENDING, [PING_LINE, []]) == Processed(NOTHING_PENDING, [])
  {
    ProcessLinesHead(NOTHING_PENDING, PING_LINE, [[]]);
    ProcessSingle(NOTHING_PENDING, []);
    assert [PING_LINE] + [[]] == [PING_LINE, []];
  }

  lemma BlockProcesses(b: Block)
    ensures ProcessLines(NOTHING_PENDING, BlockLines(b)) == Processed(NOTHING_PENDING, Notified([b]))
  {
    hide ProcessLines;
    match b
    case Ping =>
      PingProcesses();
      assert Notified([b]) == [];
    case Notification(event, data, id) =>
      NotificationProcesses(Decimal(id), event, Json.Stringify(data));
      NotifiedOne(b);
  }

  lemma NotifiedOne(b: Block)
    requires b.Notification?
    ensures Notified([b]) == [SseEvent(Some(Decimal(b.id)), Some(b.event), Json.Stringify(b.data))]
  {
    assert Notified([b][1..]) == [];
  }

  lemma FieldsDiffer()
    ensures ID_FIELD != EVENT_FIELD && ID_FIELD != DATA_FIELD && EVENT_FIELD != DATA_FIELD
    ensures COLON !in ID_FIELD && COLON !in EVENT_FIELD && COLON !in DATA_FIELD
  {
    assert ID_FIELD[0] != EVENT_FIELD[0] && ID_FIELD[0] != DATA_FIELD[0] && EVENT_FIELD[0] != DATA_FIELD[0];
  }

  lemma StreamHead(blocks: seq<Block>)
    requires blocks != []
    ensures StreamText(blocks) == BlockText(blocks[0]) + StreamText(blocks[1..])
  {
    hide BlockText;
  }

  lemma NotifiedHead(blocks: seq<Block>)
    requires blocks != []
    ensures Notified(blocks) == Notified([blocks[0]]) + Notified(blocks[1..])
  {
    hide Decimal, Json.Stringify;
    assert [blocks[0]][1..] == [];
    assert Notified([]) == [];
  }

  /** A block in front of a text puts its notification in front of the events. */
  lemma BlockInFront(b: Block, rest: Text)
    requires b.Notification? ==> OneLine(b.event)
    ensures ParsedText(BlockText(b) + rest) == Parsed(ParsedText(rest).parser, Notified([b]) + ParsedText(rest).events)
  {
    BlockSplitsOff(b, rest);
    BlockProcesses(b);
    ProcessLinesCompose(NOTHING_PENDING, BlockLines(b), SplitLines(rest).complete);
    hide BlockText, BlockLines, Notified, ProcessLines, SplitLines;
  }

  lemma {:induction false} StreamParses(blocks: seq<Block>)
    requires CleanNames(blocks)
    ensures ParsedText(StreamText(blocks)) == Parsed(FRESH_PARSER, Notified(blocks))
    decreases |blocks|
  {
    if blocks != [] {
      assert forall c :: c in blocks[1..] ==> c in blocks;
      StreamParses(blocks[1..]);
      BlockInFront(blocks[0], StreamText(blocks[1..]));
      StreamHead(blocks);
      NotifiedHead(blocks);
      hide *;
    }
  }

  lemma {:induction false} StreamHasNoCr(blocks: seq<Block>)
    requires CleanNames(blocks)
    ensures CR !in StreamText(blocks)
    decreases |blocks|
  {
    if blocks != [] {
      assert forall c :: c in blocks[1..] ==> c in blocks;
      StreamHasNoCr(blocks[1..]);
      BlockHasNoCr(blocks[0]);
    }
  }

  lemma BlockHasNoCr(b: Block)
    requires b.Notification? ==> OneLine(b.event)
    ensures CR !in BlockText(b)
  {
    match b
    case Ping =>
    case Notification(event, data, id) =>
      PrintPrintable(Json.AsInserted, data);
      assert CR !in Line(ID_PREFIX + Decimal(id));
      assert CR !in Line(EVENT_PREFIX + event);
      assert CR !in Line(DATA_PREFIX + Json.Stringify(data)) + Line([]);
  }

  /** The origin's stream, cut into chunks in any way, parses back to exactly
      its notifications in order, with nothing left over. */
  lemma {:induction false} RoundTrip(blocks: seq<Block>, chunks: seq<Text>)
    requires CleanNames(blocks)
    requires Concat(chunks) == StreamText(blocks)
    ensures PushAll(FRESH_PARSER, chunks) == Parsed(FRESH_PARSER, Notified(blocks))
  {
    StreamHasNoCr(blocks);
    assert !LfAfterLoneCr(Concat(chunks));
    EventsDependOnTextOnly(chunks);
    StreamParses(blocks);
  }

  // ---------------------------------------------------------------- and no further

  ghost predicate PendingOneLine(p: Pending) {
    p.event.Some? ==> OneLine(p.event.value)
  }

  ghost predicate NamesOneLine(events: seq<SseEvent>) {
    forall e :: e in events && e.event.Some? ==> OneLine(e.event.value)
  }

  lemma LineNames(p: Pending, line: Text)
    requires PendingOneLine(p) && OneLine(line)
    ensures PendingOneLine(ProcessLine(p, line).pending)
    ensures NamesOneLine(ProcessLine(p, line).events)
  {
    hide JoinLines;
    var colon := IndexOf(line, COLON);
    assert colon < |line| ==> forall u :: u in FieldValue(line[colon + 1..]) ==> u in line;
  }

  lemma {:induction false} EventNamesOneLine(p: Pending, lines: seq<Text>)
    requires PendingOneLine(p)
    requires forall line :: line in lines ==> OneLine(line)
    ensures NamesOneLine(ProcessLines(p, lines).events)
    decreases |lines|
  {
    if lines != [] {
      assert lines[0] in lines;
      assert forall l :: l in lines[1..] ==> l in lines;
      LineNames(p, lines[0]);
      hide ProcessLine, OneLine, PendingOneLine;
      EventNamesOneLine(ProcessLine(p, lines[0]).pending, lines[1..]);
    }
  }

  lemma {:induction false} SplitLinesOneLine(t: Text)
    ensures forall line :: line in SplitLines(t).complete ==> OneLine(line)
    decreases |t|
  {
    match FirstCut(t)
    case NoCut =>
    case Cut(end, next) => SplitLinesOneLine(t[next..]);
  }

  lemma {:induction false} NotifiedHasNames(blocks: seq<Block>, b: Block)
    requires b in blocks && b.Notification?
    ensures SseEvent(Some(Decimal(b.id)), Some(b.event), Json.Stringify(b.data)) in Notified(blocks)
    decreases |blocks|
  {
    if blocks[0] != b {
      NotifiedHasNames(blocks[1..], b);
    }
  }

  /** The exact condition: every chunking gives the notifications back if and
      only if no event name has a line break in it. */
  lemma RoundTripExactly(blocks: seq<Block>)
    ensures (forall chunks :: Concat(chunks) == StreamText(blocks)
                              ==> PushAll(FRESH_PARSER, chunks).events == Notified(blocks))
            <==> CleanNames(blocks)
  {
    if CleanNames(blocks) {
      forall chunks | Concat(chunks) == StreamText(blocks)
        ensures PushAll(FRESH_PARSER, chunks).events == Notified(blocks)
      {
        RoundTrip(blocks, chunks);
      }
    } else {
      var b :| b in blocks && b.Notification? && !OneLine(b.event);
      NotifiedHasNames(blocks, b);
      var t := StreamText(blocks);
      SingletonsConcat(t);
      SingletonsSplit([], t);
      assert [] + t == t;
      PushAllProcessesLines(FRESH_PARSER, Singletons(t));
      SplitLinesOneLine(t);
      EventNamesOneLine(NOTHING_PENDING, SplitLines(t).complete);
      assert PushAll(FRESH_PARSER, Singletons(t)).events != Notified(blocks);
    }
  }

  // ---------------------------------------------------------------- the ticking stream

  /** The k-th tick sends a keep-alive when k is a multiple of three. */
  function TickBlock(k: nat, category: Text, notification: Json.Value): Block {
    if k % 3 == 0 then Ping else Notification(category, notification, k)
  }

  ghost predicate IsTick(b: Block, k: nat, category: Text) {
    if k % 3 == 0 then b == Ping else b.Notification? && b.event == category && b.id == k
  }

  ghost predicate AllTicks(blocks: seq<Block>, category: Text) {
    forall i :: 0 <= i < |blocks| ==> IsTick(blocks[i], i + 1, category)
  }

  lemma AllTicksSnoc(blocks: seq<Block>, b: Block, category: Text)
    requires AllTicks(blocks, category) && IsTick(b, |blocks| + 1, category)
    ensures AllTicks(blocks + [b], category)
  {
    hide IsTick;
  }

  lemma TickText(k: nat, category: Text, notification: Json.Value)
    ensures var b := TickBlock(k, category, notification);
            && IsTick(b, k, category)
            && BlockText(b)
               == if k % 3 == 0 then Line(PING_LINE) + Line([]) else SseEventText(category, notification, k)
  {
    hide Line, SseEventText;
  }

  class SubscriptionStream {
    const category: Text
    var seqNo: nat
    var closed: bool
    var enqueued: Text
    ghost var blocks: seq<Block>

    ghost predicate Valid()
      reads this
    {
      && enqueued == StreamText(blocks)
      && |blocks| == seqNo
      && AllTicks(blocks, category)
    }

    constructor (category: Text)
      ensures Valid() && !closed && seqNo == 0 && this.category == category
    {
      this.category := category;
      seqNo, closed, enqueued, blocks := 0, false, [], [];
    }

    method Tick(notification: Json.Value)
      requires Valid()
      modifies this
      ensures Valid() && closed == old(closed)
      ensures closed ==> blocks == old(blocks)
      ensures !closed ==> seqNo == old(seqNo) + 1
      ensures !closed ==> blocks == old(blocks) + [if seqNo % 3 == 0 then Ping
                                                   else Notification(category, notification, seqNo)]
    {
      if closed {
        return;
      }
      seqNo := seqNo + 1;
      ghost var block := TickBlock(seqNo, category, notification);
      StreamTextSnoc(blocks, block);
      TickText(seqNo, category, notification);
      AllTicksSnoc(blocks, block, category);
      hide StreamText, Line, SseEventText, BlockText, TickBlock, IsTick, AllTicks;
      if seqNo % 3 == 0 {
        enqueued := enqueued + (Line(PING_LINE) + Line([]));
      } else {
        enqueued := enqueued + SseEventText(category, notification, seqNo);
      }
      blocks := blocks + [block];
    }

    method Cancel()
      requires Valid()
      modifies this`closed
      ensures Valid() && closed
    {
      closed := true;
    }
  }

  lemma {:induction false} StreamTextSnoc(blocks: seq<Block>, b: Block)
    ensures StreamText(blocks + [b]) == StreamText(blocks) + BlockText(b)
    decreases |blocks|
  {
    hide BlockText;
    if blocks == [] {
      assert StreamText([b]) == BlockText(b) + StreamText([]);
    } else {
      assert (blocks + [b])[1..] == blocks[1..] + [b];
      StreamTextSnoc(blocks[1..], b);
    }
  }
}

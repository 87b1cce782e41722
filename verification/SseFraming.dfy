/** The incremental parser for server-sent events: line extraction that may be
    cut anywhere, and the assembly of lines into events. */
module SseFraming {
  import opened CodeUnits
  import opened Options

  // Field names the parser gives a meaning to.
  const EVENT_FIELD: Text := [101, 118, 101, 110, 116] // event
  const ID_FIELD: Text := [105, 100]                   // id
  const DATA_FIELD: Text := [100, 97, 116, 97]         // data

  datatype SseEvent = SseEvent(id: Option<Text>, event: Option<Text>, data: Text)

  datatype Pending = Pending(id: Option<Text>, event: Option<Text>, dataLines: seq<Text>, touched: bool)

  const NOTHING_PENDING := Pending(None, None, [], false)

  datatype Parser = Parser(raw: Text, pending: Pending)

  const FRESH_PARSER := Parser([], NOTHING_PENDING)

  /** Lines taken off the front of a buffer, and what is left in it. */
  datatype Lines = Lines(complete: seq<Text>, rest: Text) {
    function After(earlier: seq<Text>): Lines {
      Lines(earlier + complete, rest)
    }

    lemma AfterAssociative(a: seq<Text>, b: seq<Text>)
      ensures After(b).After(a) == After(a + b)
    {
      assert a + (b + complete) == (a + b) + complete;
    }
  }

  // ---------------------------------------------------------------- line extraction

  function IndexOf(t: Text, u: CodeUnit): (k: nat)
    ensures k <= |t|
    ensures forall i :: 0 <= i < k ==> t[i] != u
    ensures k < |t| ==> t[k] == u
  {
    if t == [] || t[0] == u then 0 else 1 + IndexOf(t[1..], u)
  }

  /** Where a line ends and where the text after its terminator begins. */
  datatype Cut = NoCut | Cut(end: nat, next: nat)

  /** The cut the extraction loop makes next: it looks for a line feed anywhere
      first, and for a carriage return only when there is none. */
  function ExtractCut(buf: Text, flush: bool): (c: Cut)
    ensures c.Cut? ==> c.end < c.next <= |buf|
  {
    var nl := IndexOf(buf, LF);
    var cr := IndexOf(buf, CR);
    if nl < |buf| then Cut(if nl > 0 && buf[nl - 1] == CR then nl - 1 else nl, nl + 1)
    else if cr < |buf| && (cr + 1 < |buf| || flush) then Cut(cr, cr + 1)
    else NoCut
  }

  function Extract(buf: Text, flush: bool): Lines
    decreases |buf|
  {
    match ExtractCut(buf, flush)
    case NoCut => Lines([], buf)
    case Cut(end, next) => Extract(buf[next..], flush).After([buf[..end]])
  }

  lemma ExtractUnfolds(buf: Text, flush: bool, taken: seq<Text>)
    requires ExtractCut(buf, flush).Cut?
    ensures var cut := ExtractCut(buf, flush);
            Extract(buf, flush).After(taken) == Extract(buf[cut.next..], flush).After(taken + [buf[..cut.end]])
  {
    var cut := ExtractCut(buf, flush);
    Extract(buf[cut.next..], flush).AfterAssociative(taken, [buf[..cut.end]]);
  }

  lemma ExtractHead(buf: Text, flush: bool)
    requires ExtractCut(buf, flush).Cut?
    ensures var cut := ExtractCut(buf, flush);
            Extract(buf, flush).complete == [buf[..cut.end]] + Extract(buf[cut.next..], flush).complete
  {
  }

  lemma ExtractStops(buf: Text, flush: bool, taken: seq<Text>)
    requires ExtractCut(buf, flush).NoCut?
    ensures Extract(buf, flush).After(taken) == Lines(taken, buf)
  {
  }

  // ---------------------------------------------------------------- the standard's line split

  function FirstTerminator(t: Text): (k: nat)
    ensures k <= |t|
    ensures forall i :: 0 <= i < k ==> t[i] != LF && t[i] != CR
    ensures k < |t| ==> t[k] == LF || t[k] == CR
  {
    if t == [] || t[0] == LF || t[0] == CR then 0 else 1 + FirstTerminator(t[1..])
  }

  /** Section 9.2.5 of the WHATWG HTML Standard read left to right: a line ends
      at CRLF, LF or CR, whichever comes first. A carriage return that ends the
      text may still become a CRLF, so it makes no cut yet. */
  function FirstCut(t: Text): (c: Cut)
    ensures c.Cut? ==> c.end < c.next <= |t|
  {
    var k := FirstTerminator(t);
    if k == |t| || (t[k] == CR && k + 1 == |t|) then NoCut
    else if t[k] == CR && t[k + 1] == LF then Cut(k, k + 2)
    else Cut(k, k + 1)
  }

  function SplitLines(t: Text): Lines
    decreases |t|
  {
    match FirstCut(t)
    case NoCut => Lines([], t)
    case Cut(end, next) => SplitLines(t[next..]).After([t[..end]])
  }

  /** The line that the end of the stream completes, if any. */
  function HeldBackLine(rest: Text): seq<Text> {
    if rest != [] && rest[|rest| - 1] == CR then [rest[..|rest| - 1]] else []
  }

  /** Every line of a finished stream. */
  function SplitAll(t: Text): seq<Text> {
    SplitLines(t).complete + HeldBackLine(SplitLines(t).rest)
  }

  /** The trap: a line feed somewhere after a carriage return that does not
      itself begin a CRLF. */
  ghost predicate LfAfterLoneCr(t: Text) {
    exists i, j :: LoneCrAt(t, i) && i < j < |t| && t[j] == LF
  }

  ghost predicate LoneCrAt(t: Text, i: int) {
    0 <= i && i + 1 < |t| && t[i] == CR && t[i + 1] != LF
  }

  /** The shape of a buffer between two pushes. */
  ghost predicate NoTerminatorButFinalCr(t: Text) {
    forall i :: 0 <= i < |t| ==> t[i] != LF && (t[i] == CR ==> i == |t| - 1)
  }

  lemma {:induction false} SplitLeavesNoTerminator(t: Text)
    ensures NoTerminatorButFinalCr(SplitLines(t).rest)
    ensures |SplitLines(t).rest| <= |t| && SplitLines(t).rest == t[|t| - |SplitLines(t).rest|..]
    decreases |t|
  {
    match FirstCut(t)
    case NoCut =>
    case Cut(end, next) => SplitLeavesNoTerminator(t[next..]);
  }

  lemma {:induction false} SplitLinesHaveNoCr(t: Text, line: Text)
    requires line in SplitAll(t)
    ensures CR !in line
    decreases |t|
  {
    match FirstCut(t)
    case NoCut =>
    case Cut(end, next) =>
      assert SplitAll(t) == [t[..end]] + SplitAll(t[next..]);
      if line != t[..end] {
        SplitLinesHaveNoCr(t[next..], line);
      }
  }

  lemma CutStable(a: Text, b: Text)
    requires FirstCut(a).Cut?
    ensures FirstCut(a + b) == FirstCut(a)
  {
    var f, k := FirstTerminator(a + b), FirstTerminator(a);
    assert (a + b)[k] == a[k];
    assert f < |a| && (a + b)[f] == a[f];
  }

  /** Splitting is compositional: what is held back and the next piece are split
      as if they had arrived together. */
  lemma {:induction false} SplitCompose(a: Text, b: Text)
    ensures var first := SplitLines(a);
            SplitLines(a + b) == SplitLines(first.rest + b).After(first.complete)
    decreases |a|
  {
    match FirstCut(a)
    case NoCut =>
    case Cut(end, next) =>
      CutStable(a, b);
      assert (a + b)[next..] == a[next..] + b;
      assert (a + b)[..end] == a[..end];
      SplitCompose(a[next..], b);
      var inner := SplitLines(a[next..]);
      SplitLines(inner.rest + b).AfterAssociative([a[..end]], inner.complete);
  }

  /** Off the trap, the loop's search order makes no difference. */
  lemma {:induction false} ExtractIsSplit(t: Text)
    requires !LfAfterLoneCr(t)
    ensures Extract(t, false) == SplitLines(t)
    decreases |t|
  {
    CutsAgree(t);
    match FirstCut(t)
    case NoCut =>
    case Cut(end, next) =>
      SuffixTrap(t, next);
      ExtractIsSplit(t[next..]);
  }

  lemma CutsAgree(t: Text)
    requires !LfAfterLoneCr(t)
    ensures ExtractCut(t, false) == FirstCut(t)
  {
    var nl, cr, k := IndexOf(t, LF), IndexOf(t, CR), FirstTerminator(t);
    if nl < |t| {
      assert cr < nl - 1 ==> LoneCrAt(t, cr);
      assert k == if cr < nl then cr else nl;
    } else {
      assert k == cr;
    }
  }

  lemma SuffixTrap(t: Text, n: nat)
    requires n <= |t|
    ensures LfAfterLoneCr(t[n..]) ==> LfAfterLoneCr(t)
  {
    var s := t[n..];
    if LfAfterLoneCr(s) {
      var i, j :| LoneCrAt(s, i) && i < j < |s| && s[j] == LF;
      assert LoneCrAt(t, n + i) && t[n + j] == LF;
    }
  }

  lemma PrefixTrap(a: Text, b: Text)
    ensures LfAfterLoneCr(a) ==> LfAfterLoneCr(a + b)
  {
    if LfAfterLoneCr(a) {
      var i, j :| LoneCrAt(a, i) && i < j < |a| && a[j] == LF;
      assert LoneCrAt(a + b, i) && (a + b)[j] == LF;
    }
  }

  lemma FlushOfHeldBack(rest: Text)
    requires NoTerminatorButFinalCr(rest)
    ensures Extract(rest, true).complete == HeldBackLine(rest)
  {
    var cr := IndexOf(rest, CR);
    if cr < |rest| {
      assert rest[cr + 1..] == [];
      assert Extract([], true) == Lines([], []);
    }
  }

  // ---------------------------------------------------------------- chunked streams

  function Concat(chunks: seq<Text>): Text {
    if chunks == [] then [] else chunks[0] + Concat(chunks[1..])
  }

  /** The lines a sequence of pushes emits, starting from a buffer. */
  function PushLines(raw: Text, chunks: seq<Text>): Lines
    decreases |chunks|
  {
    if chunks == [] then Lines([], raw)
    else
      var first := Extract(raw + chunks[0], false);
      PushLines(first.rest, chunks[1..]).After(first.complete)
  }

  lemma PushLinesUnfold(raw: Text, chunk: Text, chunks: seq<Text>)
    ensures var first := Extract(raw + chunk, false);
            PushLines(raw, [chunk] + chunks) == PushLines(first.rest, chunks).After(first.complete)
  {
    assert ([chunk] + chunks)[1..] == chunks;
  }

  /** The lines of a whole stream: its pushes and the final flush. */
  function StreamLines(chunks: seq<Text>): seq<Text> {
    var pushed := PushLines([], chunks);
    pushed.complete + Extract(pushed.rest, true).complete
  }

  lemma {:induction false} PushLinesFollowSplit(raw: Text, chunks: seq<Text>)
    requires SplitLines(raw) == Lines([], raw)
    requires !LfAfterLoneCr(raw + Concat(chunks))
    ensures PushLines(raw, chunks) == SplitLines(raw + Concat(chunks))
    decreases |chunks|
  {
    if chunks == [] {
      assert raw + Concat(chunks) == raw;
    } else {
      var first, others := raw + chunks[0], Concat(chunks[1..]);
      assert raw + Concat(chunks) == first + others;
      PrefixTrap(first, others);
      ExtractIsSplit(first);
      SplitCompose(first, others);
      var rest := SplitLines(first).rest;
      SplitLeavesNoTerminator(first);
      RestSplitsToItself(rest);
      RestTrap(first, others);
      PushLinesFollowSplit(rest, chunks[1..]);
    }
  }

  lemma RestTrap(first: Text, others: Text)
    ensures LfAfterLoneCr(SplitLines(first).rest + others) ==> LfAfterLoneCr(first + others)
  {
    SplitLeavesNoTerminator(first);
    hide SplitLines, LfAfterLoneCr;
    var rest := SplitLines(first).rest;
    assert rest + others == (first + others)[|first| - |rest|..];
    SuffixTrap(first + others, |first| - |rest|);
  }

  lemma RestSplitsToItself(rest: Text)
    requires NoTerminatorButFinalCr(rest)
    ensures SplitLines(rest) == Lines([], rest)
  {
    var k := FirstTerminator(rest);
  }

  /** Off the trap, the pushes of any chunking emit the standard's lines and
      leave the same buffer; the flush completes them. */
  lemma ChunkIndependence(chunks: seq<Text>)
    requires !LfAfterLoneCr(Concat(chunks))
    ensures PushLines([], chunks) == SplitLines(Concat(chunks))
    ensures StreamLines(chunks) == SplitAll(Concat(chunks))
  {
    assert [] + Concat(chunks) == Concat(chunks);
    PushLinesFollowSplit([], chunks);
    SplitLeavesNoTerminator(Concat(chunks));
    FlushOfHeldBack(SplitLines(Concat(chunks)).rest);
  }

  /** The finest chunking: one code unit at a time. */
  function Singletons(t: Text): (chunks: seq<Text>)
    ensures |chunks| == |t|
  {
    if t == [] then [] else [[t[0]]] + Singletons(t[1..])
  }

  lemma {:induction false} SingletonsConcat(t: Text)
    ensures Concat(Singletons(t)) == t
  {
    if t != [] {
      SingletonsConcat(t[1..]);
      assert Singletons(t)[1..] == Singletons(t[1..]);
      assert [t[0]] + t[1..] == t;
    }
  }

  lemma {:induction false} OneMoreUnit(raw: Text, u: CodeUnit)
    requires NoTerminatorButFinalCr(raw)
    ensures Extract(raw + [u], false) == SplitLines(raw + [u])
    ensures NoTerminatorButFinalCr(SplitLines(raw + [u]).rest)
  {
    ExtractIsSplit(raw + [u]);
    SplitLeavesNoTerminator(raw + [u]);
  }

  /** One code unit at a time, the parser always agrees with the standard. */
  lemma {:induction false} SingletonsSplit(raw: Text, t: Text)
    requires NoTerminatorButFinalCr(raw)
    ensures PushLines(raw, Singletons(t)) == SplitLines(raw + t)
    decreases |t|
  {
    if t == [] {
      RestSplitsToItself(raw);
      assert raw + t == raw;
    } else {
      var first := raw + [t[0]];
      calc {
        PushLines(raw, Singletons(t));
        { PushLinesUnfold(raw, [t[0]], Singletons(t[1..])); OneMoreUnit(raw, t[0]); }
        PushLines(SplitLines(first).rest, Singletons(t[1..])).After(SplitLines(first).complete);
        { OneMoreUnit(raw, t[0]); SingletonsSplit(SplitLines(first).rest, t[1..]); }
        SplitLines(SplitLines(first).rest + t[1..]).After(SplitLines(first).complete);
        { SplitCompose(first, t[1..]); }
        SplitLines(first + t[1..]);
        { assert first + t[1..] == raw + t; }
        SplitLines(raw + t);
      }
    }
  }

  /** The first line a push takes off holds the lone carriage return, or the
      trap is still ahead. */
  lemma TrapInHeadOrAhead(t: Text)
    requires LfAfterLoneCr(t)
    ensures ExtractCut(t, false).Cut?
    ensures var cut := ExtractCut(t, false);
            CR in t[..cut.end] || LfAfterLoneCr(t[cut.next..])
  {
    var i, j :| LoneCrAt(t, i) && i < j < |t| && t[j] == LF;
    var nl := IndexOf(t, LF);
    var end := if nl > 0 && t[nl - 1] == CR then nl - 1 else nl;
    if i < nl {
      assert t[..end][i] == CR;
    } else {
      var s := t[nl + 1..];
      var i', j' := i - nl - 1, j - nl - 1;
      assert LoneCrAt(s, i') && s[j'] == LF;
    }
  }

  /** In the trap, a single push emits a line with a carriage return inside. */
  lemma {:induction false} OnePushKeepsLoneCr(t: Text) returns (line: Text)
    requires LfAfterLoneCr(t)
    ensures line in Extract(t, false).complete && CR in line
    decreases |t|
  {
    TrapInHeadOrAhead(t);
    ExtractHead(t, false);
    hide Extract, ExtractCut, LfAfterLoneCr;
    var cut := ExtractCut(t, false);
    line := t[..cut.end];
    if CR !in line {
      line := OnePushKeepsLoneCr(t[cut.next..]);
    }
  }

  lemma TrapSplitsChunkings(t: Text)
    requires LfAfterLoneCr(t)
    ensures Concat([t]) == t == Concat(Singletons(t))
    ensures StreamLines([t]) != StreamLines(Singletons(t))
    ensures PushLines([], [t]).complete != PushLines([], Singletons(t)).complete
  {
    SingletonsConcat(t);
    assert Concat([t]) == t + Concat([]) == t;
    SingletonsSplit([], t);
    assert [] + t == t;
    SplitLeavesNoTerminator(t);
    FlushOfHeldBack(SplitLines(t).rest);
    assert StreamLines(Singletons(t)) == SplitAll(t);
    var line := OnePushKeepsLoneCr(t);
    assert PushLines([], [t]).complete == Extract(t, false).complete;
    assert line in StreamLines([t]);
    if line in SplitAll(t) {
      SplitLinesHaveNoCr(t, line);
    }
  }

  /** The exact condition: every chunking of a stream emits the same lines if
      and only if no line feed comes after a lone carriage return. */
  lemma ChunkIndependenceExactly(t: Text)
    ensures (forall chunks :: Concat(chunks) == t ==> StreamLines(chunks) == StreamLines([t]))
            <==> !LfAfterLoneCr(t)
  {
    assert Concat([t]) == t + Concat([]) == t;
    if LfAfterLoneCr(t) {
      TrapSplitsChunkings(t);
    } else {
      forall chunks | Concat(chunks) == t
        ensures StreamLines(chunks) == StreamLines([t])
      {
        ChunkIndependence(chunks);
        ChunkIndependence([t]);
      }
    }
  }

  /** Such a text: a, a lone carriage return, b, a line feed. */
  const TRAPPED: Text := [97, CR, 98, LF]

  /** In one push it is one line with a carriage return inside; cut before the
      line feed it is two lines. */
  lemma PushNotSafeAnywhere()
    ensures LfAfterLoneCr(TRAPPED) && Concat([TRAPPED]) == Concat([[97, CR, 98], [LF]]) == TRAPPED
    ensures StreamLines([TRAPPED]) == [[97, CR, 98]]
    ensures StreamLines([[97, CR, 98], [LF]]) == [[97], [98]]
  {
    assert LoneCrAt(TRAPPED, 1) && TRAPPED[3] == LF;
    assert [[97, CR, 98], [LF]][1..] == [[LF]] && [[LF]][1..] == [];
    assert [97, CR, 98] + ([LF] + []) == TRAPPED && TRAPPED + [] == TRAPPED;
    OneLinePushed();
    TwoLinesPushed();
  }

  lemma NothingExtracted(flush: bool)
    ensures Extract([], flush) == Lines([], [])
  {
  }

  lemma OneLinePushed()
    ensures StreamLines([TRAPPED]) == [[97, CR, 98]]
  {
    assert ExtractCut(TRAPPED, false) == Cut(3, 4) by {
      assert TRAPPED[3] == LF && IndexOf(TRAPPED, LF) == 3;
    }
    assert TRAPPED[4..] == [] && TRAPPED[..3] == [97, CR, 98];
    NothingExtracted(false);
    NothingExtracted(true);
    hide IndexOf, ExtractCut;
    assert Extract(TRAPPED, false) == Lines([[97, CR, 98]], []);
    assert [] + TRAPPED == TRAPPED && [TRAPPED][1..] == [];
    assert PushLines([], [TRAPPED]) == Lines([[97, CR, 98]], []);
  }

  lemma TwoLinesPushed()
    ensures StreamLines([[97, CR, 98], [LF]]) == [[97], [98]]
  {
    var first: Text := [97, CR, 98];
    assert ExtractCut(first, false) == Cut(1, 2) by {
      assert first[1] == CR && IndexOf(first, CR) == 1 && IndexOf(first, LF) == 3;
    }
    assert first[2..] == [98] && first[..1] == [97];
    assert ExtractCut([98], false) == NoCut by { assert IndexOf([98], LF) == 1 && IndexOf([98], CR) == 1; }
    var second: Text := [98, LF];
    assert ExtractCut(second, false) == Cut(1, 2) by { assert second[1] == LF && IndexOf(second, LF) == 1; }
    assert second[2..] == [] && second[..1] == [98];
    NothingExtracted(false);
    NothingExtracted(true);
    hide IndexOf, ExtractCut;
    assert Extract(first, false) == Lines([[97]], [98]);
    assert Extract(second, false) == Lines([[98]], []);
    assert [] + first == first && [98] + [LF] == second;
    assert [first, [LF]][1..] == [[LF]] && [[LF]][1..] == [];
    assert PushLines([98], [[LF]]) == Lines([[98]], []);
    assert PushLines([], [first, [LF]]) == Lines([[97], [98]], []);
  }

  // ---------------------------------------------------------------- events from lines

  /** What follows a field's colon, without one leading space. */
  function FieldValue(afterColon: Text): Text {
    if afterColon != [] && afterColon[0] == SPACE then afterColon[1..] else afterColon
  }

  function WithField(p: Pending, field: Text, value: Text): Pending {
    var q := p.(touched := true);
    if field == EVENT_FIELD then q.(event := Some(value))
    else if field == ID_FIELD then q.(id := Some(value))
    else if field == DATA_FIELD then q.(dataLines := q.dataLines + [value])
    else q
  }

  function JoinLines(lines: seq<Text>): Text {
    if lines == [] then []
    else if |lines| == 1 then lines[0]
    else lines[0] + [LF] + JoinLines(lines[1..])
  }

  datatype Processed = Processed(pending: Pending, events: seq<SseEvent>)

  function ProcessLine(p: Pending, line: Text): Processed {
    if line == [] then
      if p.touched then Processed(Pending(None, None, [], false), [SseEvent(p.id, p.event, JoinLines(p.dataLines))])
      else Processed(p, [])
    else if line[0] == COLON then Processed(p, [])
    else
      var colon := IndexOf(line, COLON);
      if colon < |line| then Processed(WithField(p, line[..colon], FieldValue(line[colon + 1..])), [])
      else Processed(WithField(p, line, []), [])
  }

  /** One step after another. */
  function Then(first: Processed, more: Processed): Processed {
    Processed(more.pending, first.events + more.events)
  }

  function ProcessLines(p: Pending, lines: seq<Text>): Processed
    decreases |lines|
  {
    if lines == [] then Processed(p, [])
    else
      var first := ProcessLine(p, lines[0]);
      Then(first, ProcessLines(first.pending, lines[1..]))
  }

  lemma ProcessLinesHead(p: Pending, line: Text, lines: seq<Text>)
    ensures var first := ProcessLine(p, line);
            ProcessLines(p, [line] + lines) == Then(first, ProcessLines(first.pending, lines))
  {
    hide ProcessLine;
    assert ([line] + lines)[1..] == lines;
  }

  lemma ThenAssociative(a: Processed, b: Processed, c: Processed)
    ensures Then(Then(a, b), c) == Then(a, Then(b, c))
  {
    assert (a.events + b.events) + c.events == a.events + (b.events + c.events);
  }

  lemma {:induction false} ProcessLinesCompose(p: Pending, a: seq<Text>, b: seq<Text>)
    ensures var first := ProcessLines(p, a);
            ProcessLines(p, a + b) == Then(first, ProcessLines(first.pending, b))
    decreases |a|
  {
    if a == [] {
      assert a + b == b;
    } else {
      var line, lines := a[0], a[1..];
      var head := ProcessLine(p, line);
      var rest := ProcessLines(head.pending, lines);
      assert [line] + lines == a && [line] + (lines + b) == a + b;
      ProcessLinesHead(p, line, lines);
      ProcessLinesHead(p, line, lines + b);
      ProcessLinesCompose(head.pending, lines, b);
      ThenAssociative(head, rest, ProcessLines(rest.pending, b));
      hide ProcessLine;
    }
  }

  lemma ProcessLinesSnoc(p: Pending, lines: seq<Text>, i: nat)
    requires i < |lines|
    ensures var before := ProcessLines(p, lines[..i]);
            var last := ProcessLine(before.pending, lines[i]);
            ProcessLines(p, lines[..i + 1]) == Then(before, last)
  {
    assert lines[..i + 1] == lines[..i] + [lines[i]];
    ProcessLinesCompose(p, lines[..i], [lines[i]]);
    ProcessSingle(ProcessLines(p, lines[..i]).pending, lines[i]);
  }

  lemma ProcessSingle(p: Pending, line: Text)
    ensures ProcessLines(p, [line]) == ProcessLine(p, line)
  {
    hide ProcessLine;
  }

  datatype Parsed = Parsed(parser: Parser, events: seq<SseEvent>)

  function Push(p: Parser, chunk: Text): Parsed {
    var lines := Extract(p.raw + chunk, false);
    var step := ProcessLines(p.pending, lines.complete);
    Parsed(Parser(lines.rest, step.pending), step.events)
  }

  function PushAll(p: Parser, chunks: seq<Text>): Parsed
    decreases |chunks|
  {
    if chunks == [] then Parsed(p, [])
    else
      var first := Push(p, chunks[0]);
      var more := PushAll(first.parser, chunks[1..]);
      Parsed(more.parser, first.events + more.events)
  }

  lemma {:induction false} PushAllProcessesLines(p: Parser, chunks: seq<Text>)
    ensures var lines := PushLines(p.raw, chunks);
            var step := ProcessLines(p.pending, lines.complete);
            PushAll(p, chunks) == Parsed(Parser(lines.rest, step.pending), step.events)
    decreases |chunks|
  {
    if chunks != [] {
      var first := Push(p, chunks[0]);
      PushAllProcessesLines(first.parser, chunks[1..]);
      ProcessLinesCompose(p.pending, Extract(p.raw + chunks[0], false).complete,
                          PushLines(first.parser.raw, chunks[1..]).complete);
    }
  }

  /** The events and the parser state a connection is left with, as a function
      of its text alone. */
  function ParsedText(t: Text): Parsed {
    var lines := SplitLines(t);
    var step := ProcessLines(NOTHING_PENDING, lines.complete);
    Parsed(Parser(lines.rest, step.pending), step.events)
  }

  lemma EventsDependOnTextOnly(chunks: seq<Text>)
    requires !LfAfterLoneCr(Concat(chunks))
    ensures PushAll(FRESH_PARSER, chunks) == ParsedText(Concat(chunks))
  {
    ChunkIndependence(chunks);
    PushAllProcessesLines(FRESH_PARSER, chunks);
  }

  lemma {:induction false} NoBlankNoEvent(p: Pending, lines: seq<Text>)
    ensures ProcessLines(p, lines).events != [] ==> [] in lines
    decreases |lines|
  {
    if lines != [] {
      hide JoinLines, IndexOf;
      NoBlankNoEvent(ProcessLine(p, lines[0]).pending, lines[1..]);
      assert forall line :: line in lines[1..] ==> line in lines;
    }
  }

  lemma {:induction false} ExtractLeavesNoTerminator(t: Text)
    ensures NoTerminatorButFinalCr(Extract(t, false).rest)
    decreases |t|
  {
    match ExtractCut(t, false)
    case NoCut =>
    case Cut(_, next) => ExtractLeavesNoTerminator(t[next..]);
  }

  lemma {:induction false} PushesLeaveNoTerminator(p: Parser, chunks: seq<Text>)
    requires NoTerminatorButFinalCr(p.raw)
    ensures NoTerminatorButFinalCr(PushAll(p, chunks).parser.raw)
    decreases |chunks|
  {
    if chunks != [] {
      ExtractLeavesNoTerminator(p.raw + chunks[0]);
      hide NoTerminatorButFinalCr, Extract, ProcessLines;
      PushesLeaveNoTerminator(Push(p, chunks[0]).parser, chunks[1..]);
    }
  }

  lemma LineCompletesNothing(p: Pending, line: Text)
    ensures ProcessLines(p, [line]).events
            == if line == [] && p.touched then [SseEvent(p.id, p.event, JoinLines(p.dataLines))] else []
  {
    ProcessSingle(p, line);
  }

  /** After any pushes, a flush dispatches the pending event if all that is
      buffered is the carriage return of its blank line, and otherwise nothing:
      an event with no blank line after it is never made up. */
  lemma FlushDispatchesOnlyBlank(chunks: seq<Text>)
    ensures var p := PushAll(FRESH_PARSER, chunks).parser;
            ProcessLines(p.pending, Extract(p.raw, true).complete).events
            == if p.raw == [CR] && p.pending.touched
               then [SseEvent(p.pending.id, p.pending.event, JoinLines(p.pending.dataLines))] else []
  {
    var p := PushAll(FRESH_PARSER, chunks).parser;
    PushesLeaveNoTerminator(FRESH_PARSER, chunks);
    FlushOfHeldBack(p.raw);
    HeldBackCompletes(p);
    hide *;
  }

  lemma HeldBackCompletes(p: Parser)
    ensures ProcessLines(p.pending, HeldBackLine(p.raw)).events
            == if p.raw == [CR] && p.pending.touched
               then [SseEvent(p.pending.id, p.pending.event, JoinLines(p.pending.dataLines))] else []
  {
    if HeldBackLine(p.raw) != [] {
      var line := p.raw[..|p.raw| - 1];
      assert line == [] ==> p.raw == [CR];
      LineCompletesNothing(p.pending, line);
      hide ProcessLine, JoinLines;
    }
  }

  // ---------------------------------------------------------------- the parser object

  class SseParser {
    var raw: Text
    var id: Option<Text>
    var event: Option<Text>
    var dataLines: seq<Text>
    var touched: bool

    function PendingState(): Pending
      reads this
    {
      Pending(id, event, dataLines, touched)
    }

    function State(): Parser
      reads this
    {
      Parser(raw, PendingState())
    }

    constructor ()
      ensures State() == FRESH_PARSER
    {
      raw, id, event, dataLines, touched := [], None, None, [], false;
    }

    /** Drains every line that is complete; each round shrinks the buffer. */
    method ExtractLines(flush: bool) returns (lines: seq<Text>)
      modifies this`raw
      ensures Lines(lines, raw) == Extract(old(raw), flush)
    {
      lines := [];
      assert Extract(raw, flush) == Extract(raw, flush).After([]);
      hide Extract, Lines.After, IndexOf;
      while true
        invariant Extract(old(raw), flush) == Extract(raw, flush).After(lines)
        decreases |raw|
      {
        ghost var before := raw;
        var nl := IndexOf(raw, LF);
        if nl < |raw| {
          var end := if nl > 0 && raw[nl - 1] == CR then nl - 1 else nl;
          ExtractUnfolds(before, flush, lines);
          lines := lines + [raw[..end]];
          raw := raw[nl + 1..];
          continue;
        }
        var cr := IndexOf(raw, CR);
        if cr < |raw| {
          var moreAfterCr := cr + 1 < |raw|;
          if moreAfterCr || flush {
            ExtractUnfolds(before, flush, lines);
            lines := lines + [raw[..cr]];
            raw := raw[cr + 1..];
            continue;
          }
        }
        break;
      }
      ExtractStops(raw, flush, lines);
    }

    method Dispatch() returns (evt: Option<SseEvent>)
      modifies this`id, this`event, this`dataLines, this`touched
      ensures Processed(PendingState(), if evt.Some? then [evt.value] else []) == ProcessLine(old(PendingState()), [])
    {
      if !touched {
        return None;
      }
      evt := Some(SseEvent(id, event, JoinLines(dataLines)));
      id, event, dataLines, touched := None, None, [], false;
    }

    method ProcessEach(lines: seq<Text>) returns (events: seq<SseEvent>)
      modifies this`id, this`event, this`dataLines, this`touched
      ensures Processed(PendingState(), events) == ProcessLines(old(PendingState()), lines)
    {
      events := [];
      for i := 0 to |lines|
        invariant ProcessLines(old(PendingState()), lines[..i]) == Processed(PendingState(), events)
      {
        ProcessLinesSnoc(old(PendingState()), lines, i);
        var more := ProcessOne(lines[i]);
        hide *;
        events := events + more;
      }
      assert lines[..|lines|] == lines;
    }

    method ProcessOne(line: Text) returns (events: seq<SseEvent>)
      modifies this`id, this`event, this`dataLines, this`touched
      ensures Processed(PendingState(), events) == ProcessLine(old(PendingState()), line)
    {
      hide JoinLines, IndexOf, FieldValue;
      events := [];
      if line == [] {
        var evt := Dispatch();
        if evt.Some? {
          events := [evt.value];
        }
        return;
      }
      if line[0] == COLON {
        return;
      }
      var colon := IndexOf(line, COLON);
      var field, value := line, [];
      if colon < |line| {
        field, value := line[..colon], FieldValue(line[colon + 1..]);
      }
      touched := true;
      if field == EVENT_FIELD {
        event := Some(value);
      } else if field == ID_FIELD {
        id := Some(value);
      } else if field == DATA_FIELD {
        dataLines := dataLines + [value];
      }
    }

    method PushChunk(chunk: Text) returns (events: seq<SseEvent>)
      modifies this
      ensures Parsed(State(), events) == Push(old(State()), chunk)
    {
      raw := raw + chunk;
      var lines := ExtractLines(false);
      events := ProcessEach(lines);
    }

    method Flush() returns (events: seq<SseEvent>)
      modifies this
      ensures raw == Extract(old(raw), true).rest
      ensures Processed(PendingState(), events) == ProcessLines(old(PendingState()), Extract(old(raw), true).complete)
      ensures events != [] ==> [] in Extract(old(raw), true).complete
    {
      var lines := ExtractLines(true);
      assert lines == Extract(old(raw), true).complete;
      NoBlankNoEvent(PendingState(), lines);
      events := ProcessEach(lines);
    }
  }
}

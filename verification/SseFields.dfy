/** What an event is made of, for every block of field lines in every notation,
    however it is cut into chunks. */
module SseFields {
  import opened CodeUnits
  import opened Options
  import opened SseFraming
  import opened OriginSimulator
  import Json

  // ---------------------------------------------------------------- data lines

  /** A text cut at its line feeds. */
  function CutLines(t: Text): seq<Text>
    decreases |t|
  {
    var k := IndexOf(t, LF);
    if k == |t| then [t] else [t[..k]] + CutLines(t[k + 1..])
  }

  lemma CutOne(line: Text)
    requires LF !in line
    ensures CutLines(line) == [line]
  {
    assert forall i :: 0 <= i < |line| ==> line[i] in line;
  }

  lemma CutFirst(line: Text, rest: Text)
    requires LF !in line
    ensures CutLines(line + [LF] + rest) == [line] + CutLines(rest)
  {
    var t := line + [LF] + rest;
    assert forall i :: 0 <= i < |line| ==> t[i] == line[i] && line[i] in line;
    assert t[|line|] == LF;
    assert IndexOf(t, LF) == |line|;
    assert t[..|line|] == line && t[|line| + 1..] == rest;
  }

  /** Data lines, joined, come apart again at the line feeds. */
  lemma {:induction false} JoinedCutsBack(lines: seq<Text>)
    requires lines != [] && forall line :: line in lines ==> LF !in line
    ensures CutLines(JoinLines(lines)) == lines
    decreases |lines|
  {
    assert lines[0] in lines;
    assert forall line :: line in lines[1..] ==> line in lines;
    JoinHead(lines);
    hide *;
    if |lines| == 1 {
      CutOne(lines[0]);
      assert lines == [lines[0]];
    } else {
      JoinedCutsBack(lines[1..]);
      CutFirst(lines[0], JoinLines(lines[1..]));
      assert lines == [lines[0]] + lines[1..];
    }
  }

  lemma JoinHead(lines: seq<Text>)
    requires lines != []
    ensures JoinLines(lines) == if |lines| == 1 then lines[0] else lines[0] + [LF] + JoinLines(lines[1..])
  {
  }

  // ---------------------------------------------------------------- line endings

  datatype Ending = Lf | CrLf | LoneCr

  datatype EndedLine = EndedLine(line: Text, ending: Ending)

  function EndingText(e: Ending): Text {
    match e
    case Lf => [LF]
    case CrLf => [CR, LF]
    case LoneCr => [CR]
  }

  /** Lines, each with its own ending, and what follows them. */
  function Ended(lines: seq<EndedLine>, rest: Text): Text {
    if lines == [] then rest else lines[0].line + EndingText(lines[0].ending) + Ended(lines[1..], rest)
  }

  function LinesOf(lines: seq<EndedLine>): (r: seq<Text>)
    ensures |r| == |lines|
    ensures forall i :: 0 <= i < |r| ==> r[i] == lines[i].line
  {
    if lines == [] then [] else [lines[0].line] + LinesOf(lines[1..])
  }

  /** Lines without terminators in them, where a carriage return that ends one is
      followed by something that is not a line feed. */
  ghost predicate WellEnded(lines: seq<EndedLine>, rest: Text) {
    lines == []
    || (OneLine(lines[0].line)
        && WellEnded(lines[1..], rest)
        && var more := Ended(lines[1..], rest);
           (lines[0].ending.LoneCr? ==> more != [] && more[0] != LF))
  }

  lemma FirstEnds(line: Text, ending: Ending, more: Text)
    requires OneLine(line) && (ending.LoneCr? ==> more != [] && more[0] != LF)
    ensures SplitLines(line + EndingText(ending) + more) == SplitLines(more).After([line])
  {
    var n, t := |line|, line + EndingText(ending) + more;
    assert forall i :: 0 <= i < n ==> t[i] == line[i] && line[i] in line;
    assert t[n] == EndingText(ending)[0];
    assert FirstTerminator(t) == n;
    match ending
    case Lf => assert FirstCut(t) == Cut(n, n + 1) && t[..n] == line && t[n + 1..] == more;
    case CrLf => assert t[n + 1] == LF && FirstCut(t) == Cut(n, n + 2) && t[..n] == line && t[n + 2..] == more;
    case LoneCr => assert t[n + 1] == more[0] && FirstCut(t) == Cut(n, n + 1) && t[..n] == line && t[n + 1..] == more;
  }

  /** Lines with any endings split into those lines. */
  lemma {:induction false} EndedSplits(lines: seq<EndedLine>, rest: Text)
    requires WellEnded(lines, rest) && OneLine(rest)
    ensures SplitLines(Ended(lines, rest)) == Lines(LinesOf(lines), rest)
    decreases |lines|
  {
    if lines == [] {
      assert forall i :: 0 <= i < |rest| ==> rest[i] in rest;
      assert FirstCut(rest).NoCut?;
    } else {
      EndedSplits(lines[1..], rest);
      FirstEnds(lines[0].line, lines[0].ending, Ended(lines[1..], rest));
      hide SplitLines, OneLine;
    }
  }

  // ---------------------------------------------------------------- fields

  /** A line of a block, in each way it may be written. */
  datatype Field =
    | Comment(rest: Text)
    | Bare(name: Text)
    | Tight(name: Text, value: Text)
    | Spaced(name: Text, value: Text)

  function Written(f: Field): Text {
    match f
    case Comment(rest) => [COLON] + rest
    case Bare(name) => name
    case Tight(name, value) => name + [COLON] + value
    case Spaced(name, value) => name + [COLON, SPACE] + value
  }

  /** Names are not empty and have no colon; a value right after the colon does
      not begin with the space that would be taken off. */
  predicate Proper(f: Field) {
    match f
    case Comment(_) => true
    case Bare(name) => name != [] && COLON !in name
    case Tight(name, value) => name != [] && COLON !in name && (value == [] || value[0] != SPACE)
    case Spaced(name, _) => name != [] && COLON !in name
  }

  function ValueOf(f: Field): Text
    requires !f.Comment?
  {
    if f.Bare? then [] else f.value
  }

  /** Every line that is not blank is one of these. */
  lemma EveryLineIsField(line: Text) returns (f: Field)
    requires line != []
    ensures Proper(f) && Written(f) == line
  {
    var k := IndexOf(line, COLON);
    if k == 0 {
      f := Comment(line[1..]);
      assert [COLON] + line[1..] == line;
    } else if k == |line| {
      f := Bare(line);
    } else if k + 1 < |line| && line[k + 1] == SPACE {
      f := Spaced(line[..k], line[k + 2..]);
      assert line[..k] + [COLON, SPACE] + line[k + 2..] == line;
    } else {
      f := Tight(line[..k], line[k + 1..]);
      assert line[..k] + [COLON] + line[k + 1..] == line;
    }
  }

  /** The values a block gives a name, in order. */
  function ValuesOf(fs: seq<Field>, name: Text): seq<Text> {
    if fs == [] then []
    else
      var init, last := ValuesOf(fs[..|fs| - 1], name), fs[|fs| - 1];
      if !last.Comment? && last.name == name then init + [ValueOf(last)] else init
  }

  function LastOf(values: seq<Text>): Option<Text> {
    if values == [] then None else Some(values[|values| - 1])
  }

  predicate Touches(fs: seq<Field>) {
    exists i :: 0 <= i < |fs| && !fs[i].Comment?
  }

  function AllWritten(fs: seq<Field>): (r: seq<Text>)
    ensures |r| == |fs|
  {
    if fs == [] then [] else AllWritten(fs[..|fs| - 1]) + [Written(fs[|fs| - 1])]
  }

  lemma NameEndsAt(name: Text, rest: Text)
    requires COLON !in name
    ensures IndexOf(name + [COLON] + rest, COLON) == |name|
    ensures IndexOf(name, COLON) == |name|
  {
    var line := name + [COLON] + rest;
    assert forall i :: 0 <= i < |name| ==> line[i] == name[i] && name[i] in name;
    assert line[|name|] == COLON;
  }

  /** One field line, as the parser takes it. */
  lemma FieldProcesses(p: Pending, f: Field)
    requires Proper(f)
    ensures Written(f) != []
    ensures ProcessLine(p, Written(f)) == Processed(if f.Comment? then p else WithField(p, f.name, ValueOf(f)), [])
  {
    match f
    case Comment(_) =>
    case Bare(name) => BareProcesses(p, name);
    case Tight(name, value) => ColonProcesses(p, name, value);
    case Spaced(name, value) =>
      assert name + [COLON, SPACE] + value == name + [COLON] + ([SPACE] + value);
      assert ([SPACE] + value)[1..] == value;
      ColonProcesses(p, name, [SPACE] + value);
      hide ProcessLine, WithField;
  }

  lemma BareProcesses(p: Pending, name: Text)
    requires name != [] && COLON !in name
    ensures ProcessLine(p, name) == Processed(WithField(p, name, []), [])
  {
    NameEndsAt(name, []);
    assert name[0] in name;
    hide WithField;
  }

  lemma ColonProcesses(p: Pending, name: Text, rest: Text)
    requires name != [] && COLON !in name
    ensures ProcessLine(p, name + [COLON] + rest) == Processed(WithField(p, name, FieldValue(rest)), [])
  {
    var line := name + [COLON] + rest;
    NameEndsAt(name, rest);
    assert name[0] in name && line[0] == name[0];
    assert line[..|name|] == name && line[|name| + 1..] == rest;
    hide WithField, IndexOf;
  }

  /** What is pending after a block so far. */
  ghost predicate PendingOf(p: Pending, fs: seq<Field>) {
    && p.id == LastOf(ValuesOf(fs, ID_FIELD))
    && p.event == LastOf(ValuesOf(fs, EVENT_FIELD))
    && p.dataLines == ValuesOf(fs, DATA_FIELD)
    && (p.touched <==> Touches(fs))
  }

  lemma TouchesSnoc(fs: seq<Field>, f: Field)
    ensures Touches(fs + [f]) <==> Touches(fs) || !f.Comment?
  {
    var longer := fs + [f];
    assert longer[|fs|] == f;
    if i :| 0 <= i < |fs| && !fs[i].Comment? { assert !longer[i].Comment?; }
    if i :| 0 <= i < |longer| && !longer[i].Comment? { assert i < |fs| ==> !fs[i].Comment?; }
  }

  lemma ValuesSnoc(fs: seq<Field>, f: Field, name: Text)
    ensures ValuesOf(fs + [f], name)
            == ValuesOf(fs, name) + (if !f.Comment? && f.name == name then [ValueOf(f)] else [])
  {
    assert (fs + [f])[..|fs|] == fs;
  }

  lemma PendingSnoc(p: Pending, fs: seq<Field>, f: Field)
    requires PendingOf(p, fs)
    ensures PendingOf(if f.Comment? then p else WithField(p, f.name, ValueOf(f)), fs + [f])
  {
    FieldsDiffer();
    TouchesSnoc(fs, f);
    ValuesSnoc(fs, f, ID_FIELD);
    ValuesSnoc(fs, f, EVENT_FIELD);
    ValuesSnoc(fs, f, DATA_FIELD);
    hide ValuesOf, ValueOf, Touches;
  }

  lemma {:induction false} FieldsProcess(fs: seq<Field>)
    requires forall f :: f in fs ==> Proper(f)
    ensures var processed := ProcessLines(NOTHING_PENDING, AllWritten(fs));
            processed.events == [] && PendingOf(processed.pending, fs)
    decreases |fs|
  {
    if fs != [] {
      var init, f := fs[..|fs| - 1], fs[|fs| - 1];
      assert fs == init + [f];
      assert forall g :: g in init ==> g in fs;
      FieldsProcess(init);
      var p := ProcessLines(NOTHING_PENDING, AllWritten(init)).pending;
      FieldProcesses(p, f);
      PendingSnoc(p, init, f);
      ProcessSingle(p, Written(f));
      ProcessLinesCompose(NOTHING_PENDING, AllWritten(init), [Written(f)]);
      hide ProcessLines, ProcessLine, PendingOf, WithField, Written, Proper;
    } else {
      NothingPendingYet();
      hide PendingOf;
    }
  }

  lemma NothingPendingYet()
    ensures PendingOf(NOTHING_PENDING, [])
  {
  }

  // ---------------------------------------------------------------- events

  /** The one event of a block that has a field: its id and its name are the last
      ones given, and its data, cut at the line feeds, is the data lines. */
  ghost predicate EventOf(e: SseEvent, fs: seq<Field>) {
    && e.id == LastOf(ValuesOf(fs, ID_FIELD))
    && e.event == LastOf(ValuesOf(fs, EVENT_FIELD))
    && (if ValuesOf(fs, DATA_FIELD) == [] then e.data == [] else CutLines(e.data) == ValuesOf(fs, DATA_FIELD))
  }

  predicate OnOneLine(f: Field) {
    OneLine(Written(f))
  }

  lemma {:induction false} ValuesOnOneLine(fs: seq<Field>, name: Text)
    requires forall f :: f in fs ==> OnOneLine(f)
    ensures forall v :: v in ValuesOf(fs, name) ==> LF !in v
    decreases |fs|
  {
    if fs != [] {
      var init, f := fs[..|fs| - 1], fs[|fs| - 1];
      assert forall g :: g in init ==> g in fs;
      ValuesOnOneLine(init, name);
      assert f in fs && OnOneLine(f);
      if !f.Comment? { ValueOnOneLine(f); }
    }
  }

  lemma ValueOnOneLine(f: Field)
    requires !f.Comment? && OnOneLine(f)
    ensures LF !in ValueOf(f)
  {
    assert f.Tight? || f.Spaced? ==> forall u :: u in f.value ==> u in Written(f);
  }

  /** A block of field lines and a blank line makes that event, and only if it has
      a line that is no comment; nothing is left pending. */
  lemma {:induction false} BlockMakesEvent(fs: seq<Field>)
    requires forall f :: f in fs ==> Proper(f) && OnOneLine(f)
    ensures var processed := ProcessLines(NOTHING_PENDING, AllWritten(fs) + [[]]);
            && processed.pending == NOTHING_PENDING
            && (if Touches(fs) then |processed.events| == 1 && EventOf(processed.events[0], fs)
                else processed.events == [])
  {
    FieldsProcess(fs);
    var p := ProcessLines(NOTHING_PENDING, AllWritten(fs)).pending;
    ProcessLinesCompose(NOTHING_PENDING, AllWritten(fs), [[]]);
    ProcessSingle(p, []);
    ValuesOnOneLine(fs, DATA_FIELD);
    DispatchMakesEvent(p, fs);
    hide ProcessLines, ProcessLine, EventOf, PendingOf, Touches;
  }

  lemma DispatchMakesEvent(p: Pending, fs: seq<Field>)
    requires PendingOf(p, fs)
    requires forall v :: v in ValuesOf(fs, DATA_FIELD) ==> LF !in v
    ensures var processed := ProcessLine(p, []);
            && processed.pending == NOTHING_PENDING
            && (if Touches(fs) then |processed.events| == 1 && EventOf(processed.events[0], fs)
                else processed.events == [])
  {
    if p.dataLines != [] { JoinedCutsBack(p.dataLines); }
    if !Touches(fs) {
      UntouchedGivesNothing(fs, ID_FIELD);
      UntouchedGivesNothing(fs, EVENT_FIELD);
      UntouchedGivesNothing(fs, DATA_FIELD);
    }
    hide CutLines, ValuesOf, Touches;
  }

  lemma {:induction false} UntouchedGivesNothing(fs: seq<Field>, name: Text)
    requires !Touches(fs)
    ensures ValuesOf(fs, name) == []
    decreases |fs|
  {
    if fs != [] {
      var init, f := fs[..|fs| - 1], fs[|fs| - 1];
      assert fs == init + [f];
      TouchesSnoc(init, f);
      UntouchedGivesNothing(init, name);
    }
  }

  // ---------------------------------------------------------------- in any chunking

  function BlockOf(fs: seq<Field>): Text {
    if fs == [] then [] else BlockOf(fs[..|fs| - 1]) + Line(Written(fs[|fs| - 1]))
  }

  lemma BlockSnoc(fs: seq<Field>, rest: Text)
    requires fs != []
    ensures var init, w := fs[..|fs| - 1], Written(fs[|fs| - 1]);
            && BlockOf(fs) + rest == BlockOf(init) + (Line(w) + rest)
            && AllWritten(fs) == AllWritten(init) + [w]
  {
    hide Line, Written;
  }

  lemma NoBlockSplits(rest: Text)
    ensures SplitLines(BlockOf([]) + rest) == SplitLines(rest).After(AllWritten([]))
  {
    assert BlockOf([]) + rest == rest && AllWritten([]) == [];
    assert [] + SplitLines(rest).complete == SplitLines(rest).complete;
    hide *;
  }

  lemma {:induction false} BlockSplits(fs: seq<Field>, rest: Text)
    requires forall f :: f in fs ==> OnOneLine(f)
    ensures SplitLines(BlockOf(fs) + rest) == SplitLines(rest).After(AllWritten(fs))
    decreases |fs|
  {
    if fs == [] {
      NoBlockSplits(rest);
      hide *;
    } else {
      var init, w := fs[..|fs| - 1], Written(fs[|fs| - 1]);
      assert fs[|fs| - 1] in fs && OnOneLine(fs[|fs| - 1]);
      assert forall g :: g in init ==> g in fs;
      BlockSplits(init, Line(w) + rest);
      LineSplitsOff(w, rest);
      SplitLines(rest).AfterAssociative(AllWritten(init), [w]);
      BlockSnoc(fs, rest);
      hide *;
    }
  }

  lemma {:induction false} BlockHasNoCr(fs: seq<Field>)
    requires forall f :: f in fs ==> OnOneLine(f)
    ensures CR !in BlockOf(fs)
    decreases |fs|
  {
    if fs != [] {
      assert forall g :: g in fs[..|fs| - 1] ==> g in fs;
      BlockHasNoCr(fs[..|fs| - 1]);
      assert OnOneLine(fs[|fs| - 1]);
    }
  }

  /** The text of the block and its blank line, pushed in any chunking. */
  lemma {:induction false} BlockParses(fs: seq<Field>, chunks: seq<Text>)
    requires forall f :: f in fs ==> Proper(f) && OnOneLine(f)
    requires Concat(chunks) == BlockOf(fs) + Line([])
    ensures var parsed := PushAll(FRESH_PARSER, chunks);
            && parsed.parser == FRESH_PARSER
            && (if Touches(fs) then |parsed.events| == 1 && EventOf(parsed.events[0], fs) else parsed.events == [])
  {
    BlockHasNoCr(fs);
    assert !LfAfterLoneCr(Concat(chunks));
    EventsDependOnTextOnly(chunks);
    BlockSplits(fs, Line([]));
    BlankSplits();
    BlockMakesEvent(fs);
    hide PushAll, ProcessLines, EventOf, Touches, SplitLines, BlockOf, AllWritten, Proper, OnOneLine;
  }

  lemma {:induction false} ThreeLines(a: Field, b: Field, c: Field, rest: Text)
    ensures BlockOf([a, b, c]) + rest == Line(Written(a)) + (Line(Written(b)) + (Line(Written(c)) + rest))
  {
    BlockSnoc([a, b, c], rest);
    BlockSnoc([a, b], Line(Written(c)) + rest);
    BlockSnoc([a], Line(Written(b)) + (Line(Written(c)) + rest));
    assert [a, b, c][..2] == [a, b] && [a, b][..1] == [a] && [a][..0] == [];
    assert BlockOf([]) == [];
    hide BlockOf, Line, Written;
  }

  const PING: Field := Comment([' ' as int, 'p' as int, 'i' as int, 'n' as int, 'g' as int])

  /** The origin's notification is a block of its id, its name and its data, in this
      order; a keep-alive is a block of a comment. */
  lemma {:induction false} NotificationIsBlock(event: Text, data: Json.Value, id: nat)
    ensures BlockText(Notification(event, data, id))
            == BlockOf([Spaced(ID_FIELD, Decimal(id)), Spaced(EVENT_FIELD, event),
                        Spaced(DATA_FIELD, Json.Stringify(data))]) + Line([])
  {
    hide Decimal, Json.Stringify, Line, BlockOf;
    ThreeLines(Spaced(ID_FIELD, Decimal(id)), Spaced(EVENT_FIELD, event), Spaced(DATA_FIELD, Json.Stringify(data)),
               Line([]));
  }

  lemma PingIsBlock()
    ensures BlockText(Ping) == BlockOf([PING]) + Line([])
  {
    assert Written(PING) == PING_LINE;
    BlockSnoc([PING], Line([]));
  }

  lemma BlankSplits()
    ensures SplitLines(Line([])) == Lines([[]], [])
  {
    LineSplitsOff([], []);
    assert Line([]) + [] == Line([]);
    assert SplitLines([]) == Lines([], []);
    hide SplitLines;
  }

  /** Data lines, each with a space after its colon. */
  function DataFields(values: seq<Text>): (fs: seq<Field>)
    ensures |fs| == |values|
    ensures forall i :: 0 <= i < |fs| ==> fs[i] == Spaced(DATA_FIELD, values[i])
  {
    if values == [] then []
    else DataFields(values[..|values| - 1]) + [Spaced(DATA_FIELD, values[|values| - 1])]
  }

  lemma {:induction false} DataValues(values: seq<Text>)
    ensures ValuesOf(DataFields(values), DATA_FIELD) == values
    decreases |values|
  {
    if values != [] {
      var init, v := values[..|values| - 1], values[|values| - 1];
      DataValues(init);
      ValuesSnoc(DataFields(init), Spaced(DATA_FIELD, v), DATA_FIELD);
      hide ValuesOf;
    }
  }

  /** One or more data lines and a blank line, in any chunking, are one event whose
      data, cut at the line feeds, is the lines. */
  lemma {:induction false} DataLinesKept(values: seq<Text>, chunks: seq<Text>)
    requires values != [] && forall v :: v in values ==> OneLine(v)
    requires Concat(chunks) == BlockOf(DataFields(values)) + Line([])
    ensures var events := PushAll(FRESH_PARSER, chunks).events;
            |events| == 1 && CutLines(events[0].data) == values
  {
    var fs := DataFields(values);
    FieldsDiffer();
    forall f | f in fs ensures Proper(f) && OnOneLine(f) {
      var i :| 0 <= i < |fs| && fs[i] == f;
      assert values[i] in values;
      DataOnOneLine(values[i]);
    }
    assert !fs[0].Comment?;
    DataValues(values);
    BlockParses(fs, chunks);
    hide PushAll, BlockOf, ValuesOf, CutLines, DataFields;
  }

  lemma DataOnOneLine(v: Text)
    requires OneLine(v)
    ensures OnOneLine(Spaced(DATA_FIELD, v))
  {
  }

  /** The names the parser knows. */
  lemma NamesSpelled()
    ensures |ID_FIELD| == 2 && ID_FIELD[0] == 'i' as int && ID_FIELD[1] == 'd' as int
    ensures EVENT_FIELD == ['e' as int, 'v' as int, 'e' as int, 'n' as int, 't' as int]
    ensures DATA_FIELD == ['d' as int, 'a' as int, 't' as int, 'a' as int]
  {
  }
}

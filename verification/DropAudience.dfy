/** Who hears of a drop: the sockets open when it is announced, and nobody else. */
module DropAudience {
  import opened Options
  import opened Protocol
  import opened ReplayStore
  import opened FeedRelay
  import opened RelayTurns
  import opened RelayRuns
  import opened RelayStreams
  import opened RelaySafety
  import opened RelayDrops
  import opened Subscribers
  import opened EndToEnd

  // ---------------------------------------------------------------- open and closed sockets

  lemma ClosedStepSilent(sys: System, step: Step, ws: SocketId)
    requires SocketsInOrder(sys) && Enabled(sys, step)
    requires ws in sys.relay.durable.wire && ws !in sys.relay.durable.sockets
    ensures ws in Next(sys, step).relay.durable.wire && ws !in Next(sys, step).relay.durable.sockets
    ensures Wire(Next(sys, step), ws) == Wire(sys, ws)
  {
    StepSends(sys, step, ws);
    StepSockets(sys, step, ws);
    assert SentBy(sys, step, ws) == [];
    hide *;
  }

  /** A closed socket is never sent anything again. */
  lemma {:induction false} ClosedIsSilent(steps: seq<Step>, more: seq<Step>, ws: SocketId)
    requires IsRun(steps) && IsRun(steps + more)
    requires ws in After(steps).relay.durable.wire && ws !in After(steps).relay.durable.sockets
    ensures ws in After(steps + more).relay.durable.wire && ws !in After(steps + more).relay.durable.sockets
    ensures Wire(After(steps + more), ws) == Wire(After(steps), ws)
    decreases |more|
  {
    hide *;
    if more == [] {
      assert steps + more == steps;
    } else {
      var init, last := more[..|more| - 1], more[|more| - 1];
      assert steps + more == (steps + init) + [last];
      RunPrefix(steps + init, last);
      ClosedIsSilent(steps, init, ws);
      SocketsInRun(steps + init);
      ClosedStepSilent(After(steps + init), last, ws);
    }
  }

  /** The gap for a drop stands in a socket's stream, right after what the socket
      had been sent before the drop. */
  ghost predicate HoldsGap(before: System, later: System, ws: SocketId) {
    && ws in before.relay.durable.wire
    && |Wire(before, ws)| < |Wire(later, ws)|
    && Wire(later, ws)[|Wire(before, ws)|] == Gap(|before.history| + 1)
  }

  lemma GapHeld(before: System, after: System, later: System, ws: SocketId)
    requires ws in before.relay.durable.wire
    requires Wire(after, ws) == Wire(before, ws) + [Gap(|before.history| + 1)] && Wire(after, ws) <= Wire(later, ws)
    ensures HoldsGap(before, later, ws)
  {
    hide Wire;
  }

  lemma AnnouncedTo(sys: System, step: Step, ws: SocketId)
    requires SocketsInOrder(sys) && sys.relay.nextSeq == |sys.history| + 1
    requires Enabled(sys, step) && AnnouncesDrop(sys, step)
    ensures Wire(Next(sys, step), ws)
            == Wire(sys, ws) + (if ws in sys.relay.durable.sockets then [Gap(|sys.history| + 1)] else [])
    ensures ws in Next(sys, step).relay.durable.sockets <==> ws in sys.relay.durable.sockets
    ensures ws in Next(sys, step).relay.durable.wire <==> ws in sys.relay.durable.wire
    ensures ws in sys.relay.durable.sockets ==> ws in sys.relay.durable.wire
  {
    StepSends(sys, step, ws);
    StepSockets(sys, step, ws);
    hide Next, Wire, Quiet, Distinct, Enabled;
  }

  /** For every announced drop, every socket, and however the run goes on: the
      drop's gap is in the socket's stream if and only if the socket was open when
      the drop was announced. One closed by then is sent nothing any more, and one
      opened later begins with its own answer. */
  lemma {:induction false} DropHeardExactly(steps: seq<Step>, step: Step, more: seq<Step>, ws: SocketId)
    requires IsRun(steps) && Enabled(After(steps), step) && AnnouncesDrop(After(steps), step)
    requires IsRun(steps + [step]) && IsRun(steps + [step] + more)
    ensures HoldsGap(After(steps), After(steps + [step] + more), ws) <==> ws in After(steps).relay.durable.sockets
  {
    SocketsInRun(steps);
    RunSnoc(steps, step);
    hide IsRun, After, Next, Enabled, Wire, SocketsInOrder, AnnouncesDrop;
    AnnouncedTo(After(steps), step, ws);
    if ws in After(steps).relay.durable.sockets {
      RunOnlyAdds(steps + [step], more, ws);
      GapHeld(After(steps), After(steps + [step]), After(steps + [step] + more), ws);
    } else if ws in After(steps).relay.durable.wire {
      ClosedIsSilent(steps + [step], more, ws);
    }
  }

  // ---------------------------------------------------------------- a reader that was away

  lemma HappeningSnoc(steps: seq<WorldStep>, s: WorldStep)
    requires IsHappening(steps) && Possible(WorldAfter(steps), s)
    ensures IsHappening(steps + [s]) && WorldAfter(steps + [s]) == Turn(WorldAfter(steps), s)
  {
    hide Turn, Possible;
    assert (steps + [s])[..|steps|] == steps;
  }

  /** What there is to know of a relay with at most the sockets 0 and 1. */
  ghost predicate Is(sys: System, loops: seq<Phase>, sockets: seq<SocketId>, h: seq<BufferedEvent>,
                     w0: seq<Message>, w1: seq<Message>) {
    && Inv(sys) && sys.loops == loops && sys.relay.durable.sockets == sockets && sys.history == h
    && Wire(sys, 0) == w0 && Wire(sys, 1) == w1
    && !sys.relay.outageSignaled && !sys.relay.intentionalTeardown
  }

  ghost predicate Calm(sys: System, step: Step)
    requires Enabled(sys, step)
  {
    !Next(sys, step).relay.outageSignaled && !Next(sys, step).relay.intentionalTeardown
  }

  lemma IsParts(sys: System, loops: seq<Phase>, sockets: seq<SocketId>, h: seq<BufferedEvent>,
                w0: seq<Message>, w1: seq<Message>)
    requires Is(sys, loops, sockets, h, w0, w1)
    ensures Inv(sys) && OneLoop(sys) && SocketsInOrder(sys) && Retains(sys.relay, h)
    ensures IsHistory(h) && sys.relay.nextSeq == |h| + 1 && sys.relay.buf == LastN(h, REPLAY_CAPACITY)
  {
    hide OneLoop, IdleWatched, OutagesInOrder, LogInOrder, SocketsInOrder, StreamsOk, Wire;
  }

  lemma IsFacts(sys: System, loops: seq<Phase>, sockets: seq<SocketId>, h: seq<BufferedEvent>,
                w0: seq<Message>, w1: seq<Message>)
    requires Is(sys, loops, sockets, h, w0, w1)
    ensures Inv(sys) && sys.loops == loops && sys.relay.durable.sockets == sockets && sys.history == h
    ensures Wire(sys, 0) == w0 && Wire(sys, 1) == w1
    ensures !sys.relay.outageSignaled && !sys.relay.intentionalTeardown
    ensures (0 in sys.relay.durable.wire <==> w0 != []) && (1 in sys.relay.durable.wire <==> w1 != [])
  {
    hide Inv, Wire;
    AnsweredIsKnown(sys, 0);
    AnsweredIsKnown(sys, 1);
  }

  /** A socket has been sent something exactly when it is known. */
  lemma AnsweredIsKnown(sys: System, ws: SocketId)
    requires Inv(sys)
    ensures ws in sys.relay.durable.wire <==> Wire(sys, ws) != []
  {
    if ws in sys.relay.durable.wire {
      InvStream(sys, ws);
    }
    hide Inv, Legal, CursorAfter, Greeting;
  }

  /** A step, from what it does to loops, sockets, history and the two streams. */
  lemma IsNext(sys: System, step: Step, loops: seq<Phase>, sockets: seq<SocketId>, h: seq<BufferedEvent>,
               w0: seq<Message>, w1: seq<Message>)
    requires Inv(sys) && Enabled(sys, step) && Calm(sys, step)
    requires Next(sys, step).loops == loops && Next(sys, step).relay.durable.sockets == sockets
    requires Next(sys, step).history == h
    requires Wire(sys, 0) + SentBy(sys, step, 0) == w0 && Wire(sys, 1) + SentBy(sys, step, 1) == w1
    ensures Is(Next(sys, step), loops, sockets, h, w0, w1)
  {
    InvKept(sys, step);
    InvSockets(sys);
    hide Inv, Next, Enabled, Wire, SentBy, SocketsInOrder;
    StepSends(sys, step, 0);
    StepSends(sys, step, 1);
  }

  lemma InvSockets(sys: System)
    requires Inv(sys)
    ensures SocketsInOrder(sys)
  {
    hide OneLoop, IdleWatched, OutagesInOrder, LogInOrder, SocketsInOrder, StreamsOk, Retains;
  }

  lemma IsNextSends(sys: System, step: Step, was: seq<Phase>, open: seq<SocketId>, loops: seq<Phase>,
                    sockets: seq<SocketId>, h: seq<BufferedEvent>, later: seq<BufferedEvent>,
                    w0: seq<Message>, w1: seq<Message>, s0: seq<Message>, s1: seq<Message>)
    requires Is(sys, was, open, h, w0, w1) && Enabled(sys, step) && Calm(sys, step)
    requires Next(sys, step).loops == loops && Next(sys, step).relay.durable.sockets == sockets
    requires Next(sys, step).history == later
    requires SentBy(sys, step, 0) == s0 && SentBy(sys, step, 1) == s1
    ensures Is(Next(sys, step), loops, sockets, later, w0 + s0, w1 + s1)
  {
    hide *;
    IsFacts(sys, was, open, h, w0, w1);
    IsNext(sys, step, loops, sockets, later, w0 + s0, w1 + s1);
  }

  lemma IsSilently(sys: System, step: Step, was: seq<Phase>, open: seq<SocketId>, loops: seq<Phase>,
                   sockets: seq<SocketId>, h: seq<BufferedEvent>, w0: seq<Message>, w1: seq<Message>)
    requires Is(sys, was, open, h, w0, w1) && Enabled(sys, step) && Calm(sys, step)
    requires Next(sys, step).loops == loops && Next(sys, step).relay.durable.sockets == sockets
    requires Next(sys, step).history == h
    requires SentBy(sys, step, 0) == [] && SentBy(sys, step, 1) == []
    ensures Is(Next(sys, step), loops, sockets, h, w0, w1)
  {
    hide *;
    assert w0 + [] == w0 && w1 + [] == w1;
    IsNextSends(sys, step, was, open, loops, sockets, h, h, w0, w1, [], []);
  }

  lemma SubscribeStarts(sys: System, ws: SocketId, seen: nat)
    requires OneLoop(sys) && sys.loops == [] && ws !in sys.relay.durable.wire && ws !in sys.relay.durable.sockets
    requires !sys.relay.outageSignaled && !sys.relay.intentionalTeardown
    ensures Enabled(sys, Subscribe(ws, seen)) && Calm(sys, Subscribe(ws, seen))
    ensures var next := Next(sys, Subscribe(ws, seen));
            && next.loops == [Connecting] && next.history == sys.history
            && next.relay.durable.sockets == sys.relay.durable.sockets + [ws]
  {
    hide Greeting, SendTo;
  }

  lemma SubscribeSends(sys: System, ws: SocketId, other: SocketId, h: seq<BufferedEvent>)
    requires Enabled(sys, Subscribe(ws, |h|)) && other != ws
    requires IsHistory(h) && sys.relay.buf == LastN(h, REPLAY_CAPACITY)
    ensures SentBy(sys, Subscribe(ws, |h|), ws) == [Replay([])] && SentBy(sys, Subscribe(ws, |h|), other) == []
  {
    GreetingExact(h, REPLAY_CAPACITY, |h|);
    hide Greeting, LastN, Enabled, IsHistory;
  }

  lemma Subscribed(sys: System, ws: SocketId, sockets: seq<SocketId>, h: seq<BufferedEvent>,
                   w0: seq<Message>, w1: seq<Message>)
    requires Is(sys, [], sockets, h, w0, w1) && ws <= 1 && ws !in sockets && (if ws == 0 then w0 else w1) == []
    ensures Enabled(sys, Subscribe(ws, |h|))
    ensures Is(Next(sys, Subscribe(ws, |h|)), [Connecting], sockets + [ws], h,
               if ws == 0 then [Replay([])] else w0, if ws == 1 then [Replay([])] else w1)
  {
    hide *;
    var step := Subscribe(ws, |h|);
    IsParts(sys, [], sockets, h, w0, w1);
    IsFacts(sys, [], sockets, h, w0, w1);
    SubscribeStarts(sys, ws, |h|);
    SubscribeSends(sys, ws, 1 - ws, h);
    assert [] + [Replay([])] == [Replay([])];
    if ws == 0 {
      assert w1 + [] == w1;
      IsNextSends(sys, step, [], sockets, [Connecting], sockets + [ws], h, h, w0, w1, [Replay([])], []);
    } else {
      assert w0 + [] == w0;
      IsNextSends(sys, step, [], sockets, [Connecting], sockets + [ws], h, h, w0, w1, [], [Replay([])]);
    }
  }

  lemma FetchConnects(sys: System)
    requires sys.loops == [Connecting] && !sys.relay.outageSignaled && !sys.relay.intentionalTeardown
    ensures var step := FetchSucceeded(0);
            && Enabled(sys, step) && Calm(sys, step) && SentBy(sys, step, 0) == [] && SentBy(sys, step, 1) == []
            && Next(sys, step).loops == [Reading(false)] && Next(sys, step).history == sys.history
            && Next(sys, step).relay.durable.sockets == sys.relay.durable.sockets
  {
    hide Logged;
  }

  lemma Fetched(sys: System, sockets: seq<SocketId>, h: seq<BufferedEvent>, w0: seq<Message>, w1: seq<Message>)
    requires Is(sys, [Connecting], sockets, h, w0, w1)
    ensures Enabled(sys, FetchSucceeded(0))
    ensures Is(Next(sys, FetchSucceeded(0)), [Reading(false)], sockets, h, w0, w1)
  {
    hide *;
    IsFacts(sys, [Connecting], sockets, h, w0, w1);
    FetchConnects(sys);
    IsSilently(sys, FetchSucceeded(0), [Connecting], sockets, [Reading(false)], sockets, h, w0, w1);
  }

  lemma BlankBatch(n: nat)
    ensures NumberFrom(n, [BLANK]) == [Number(n, BLANK)]
    ensures Burst([Number(n, BLANK)]) == [Live(Number(n, BLANK))]
  {
    assert [BLANK][..0] == [];
    assert NumberFrom(n, []) == [];
    assert LiveMessages([Number(n, BLANK)][1..]) == [];
  }

  lemma ChunkKeepsLoop(sys: System)
    requires sys.loops == [Reading(false)] && !sys.relay.outageSignaled && !sys.relay.intentionalTeardown
    ensures Enabled(sys, Chunk(0, [BLANK])) && Calm(sys, Chunk(0, [BLANK]))
    ensures var next := Next(sys, Chunk(0, [BLANK]));
            && next.loops == [Reading(false)] && next.relay.durable.sockets == sys.relay.durable.sockets
            && next.history == sys.history + [Number(sys.relay.nextSeq, BLANK)]
  {
    IngestedFrame(sys.relay, [BLANK]);
    BlankBatch(sys.relay.nextSeq);
    hide Ingested, FlushAll, NumberFrom;
  }

  lemma ChunkSends(sys: System, ws: SocketId)
    requires Enabled(sys, Chunk(0, [BLANK]))
    ensures SentBy(sys, Chunk(0, [BLANK]), ws)
            == if ws in sys.relay.durable.sockets then [Live(Number(sys.relay.nextSeq, BLANK))] else []
  {
    BlankBatch(sys.relay.nextSeq);
    hide Enabled, Burst, NumberFrom, Number;
  }

  /** What one event comes to, when one socket is open. */
  lemma ChunkSendsTo(sys: System, ws: SocketId, other: SocketId, h: seq<BufferedEvent>)
    requires sys.loops == [Reading(false)] && !sys.relay.outageSignaled && !sys.relay.intentionalTeardown
    requires sys.relay.durable.sockets == [ws] && ws != other && sys.history == h && sys.relay.nextSeq == |h| + 1
    ensures var step, e := Chunk(0, [BLANK]), Number(|h| + 1, BLANK);
            && Enabled(sys, step) && Calm(sys, step)
            && SentBy(sys, step, ws) == [Live(e)] && SentBy(sys, step, other) == []
            && Next(sys, step).loops == [Reading(false)] && Next(sys, step).history == h + [e]
            && Next(sys, step).relay.durable.sockets == [ws]
  {
    ChunkKeepsLoop(sys);
    ChunkSends(sys, ws);
    ChunkSends(sys, other);
    assert ws in [ws] && other !in [ws];
    hide *;
  }

  lemma ReadOne(sys: System, ws: SocketId, h: seq<BufferedEvent>, w0: seq<Message>, w1: seq<Message>)
    requires Is(sys, [Reading(false)], [ws], h, w0, w1) && ws <= 1
    ensures Enabled(sys, Chunk(0, [BLANK]))
    ensures var e := Number(|h| + 1, BLANK);
            Is(Next(sys, Chunk(0, [BLANK])), [Reading(false)], [ws], h + [e],
               if ws == 0 then w0 + [Live(e)] else w0, if ws == 1 then w1 + [Live(e)] else w1)
  {
    hide *;
    var step, live := Chunk(0, [BLANK]), [Live(Number(|h| + 1, BLANK))];
    var later := h + [Number(|h| + 1, BLANK)];
    IsParts(sys, [Reading(false)], [ws], h, w0, w1);
    IsFacts(sys, [Reading(false)], [ws], h, w0, w1);
    ChunkSendsTo(sys, ws, 1 - ws, h);
    if ws == 0 {
      assert w1 + [] == w1;
      IsNextSends(sys, step, [Reading(false)], [ws], [Reading(false)], [ws], h, later, w0, w1, live, []);
    } else {
      assert w0 + [] == w0;
      IsNextSends(sys, step, [Reading(false)], [ws], [Reading(false)], [ws], h, later, w0, w1, [], live);
    }
  }

  lemma LastLeaves(sys: System)
    requires sys.loops == [Reading(false)] && sys.relay.durable.sockets == [0]
    requires !sys.relay.outageSignaled && !sys.relay.intentionalTeardown
    ensures var step := SocketClosed(0);
            && Enabled(sys, step) && Calm(sys, step) && SentBy(sys, step, 0) == [] && SentBy(sys, step, 1) == []
            && Next(sys, step).loops == [Reading(false)] && Next(sys, step).history == sys.history
            && Next(sys, step).relay.durable.sockets == []
  {
    assert Without([0][1..], 0) == [];
  }

  lemma ReadingEnds(sys: System)
    requires sys.loops == [Reading(false)] && sys.relay.durable.sockets == []
    requires !sys.relay.outageSignaled && !sys.relay.intentionalTeardown
    ensures var step := ConnectionEnded(0);
            && Enabled(sys, step) && Calm(sys, step) && SentBy(sys, step, 0) == [] && SentBy(sys, step, 1) == []
            && Next(sys, step).loops == [Returned(false, true)] && Next(sys, step).history == sys.history
            && Next(sys, step).relay.durable.sockets == []
  {
  }

  lemma ReactionStops(sys: System)
    requires sys.loops == [Returned(false, true)] && sys.relay.durable.sockets == []
    requires !sys.relay.outageSignaled && !sys.relay.intentionalTeardown
    ensures var step := AttemptHandled(0);
            && Enabled(sys, step) && AnnouncesDrop(sys, step) && Calm(sys, step)
            && SentBy(sys, step, 0) == [] && SentBy(sys, step, 1) == []
            && Next(sys, step).loops == [] && Next(sys, step).history == sys.history
            && Next(sys, step).relay.durable.sockets == []
  {
    hide SendToAll, Logged;
  }

  lemma Left(sys: System, h: seq<BufferedEvent>, w0: seq<Message>)
    requires Is(sys, [Reading(false)], [0], h, w0, [])
    ensures Enabled(sys, SocketClosed(0))
    ensures Is(Next(sys, SocketClosed(0)), [Reading(false)], [], h, w0, [])
  {
    hide *;
    IsFacts(sys, [Reading(false)], [0], h, w0, []);
    LastLeaves(sys);
    IsSilently(sys, SocketClosed(0), [Reading(false)], [0], [Reading(false)], [], h, w0, []);
  }

  lemma Ended(sys: System, h: seq<BufferedEvent>, w0: seq<Message>)
    requires Is(sys, [Reading(false)], [], h, w0, [])
    ensures Enabled(sys, ConnectionEnded(0))
    ensures Is(Next(sys, ConnectionEnded(0)), [Returned(false, true)], [], h, w0, [])
  {
    hide *;
    IsFacts(sys, [Reading(false)], [], h, w0, []);
    ReadingEnds(sys);
    IsSilently(sys, ConnectionEnded(0), [Reading(false)], [], [Returned(false, true)], [], h, w0, []);
  }

  lemma Announced(sys: System, h: seq<BufferedEvent>, w0: seq<Message>)
    requires Is(sys, [Returned(false, true)], [], h, w0, [])
    ensures Enabled(sys, AttemptHandled(0)) && AnnouncesDrop(sys, AttemptHandled(0))
    ensures Is(Next(sys, AttemptHandled(0)), [], [], h, w0, [])
  {
    hide *;
    IsFacts(sys, [Returned(false, true)], [], h, w0, []);
    ReactionStops(sys);
    IsSilently(sys, AttemptHandled(0), [Returned(false, true)], [], [], [], h, w0, []);
  }

  const FIRST := Number(1, BLANK)
  const SECOND := Number(2, BLANK)

  /** A reader hears the first event and leaves. The connection drops, the drop is
      announced, and the reader comes back for the second event. */
  const BEFORE_DROP: seq<WorldStep> :=
    [ReaderConnects(0, 0), RelayMoves(FetchSucceeded(0)), RelayMoves(Chunk(0, [BLANK])), ReaderReads(0), ReaderReads(0),
     RelayMoves(SocketClosed(0)), RelayMoves(ConnectionEnded(0))]
  const DROP: WorldStep := RelayMoves(AttemptHandled(0))
  const AFTER_DROP: seq<WorldStep> :=
    [ReaderConnects(0, 1), RelayMoves(FetchSucceeded(0)), RelayMoves(Chunk(0, [BLANK])), ReaderReads(0), ReaderReads(0)]

  ghost predicate At(steps: seq<WorldStep>, loops: seq<Phase>, sockets: seq<SocketId>, h: seq<BufferedEvent>,
                     w0: seq<Message>, w1: seq<Message>, r: Reader) {
    IsHappening(steps)
    && Is(WorldAfter(steps).sys, loops, sockets, h, w0, w1) && ReaderOf(WorldAfter(steps), 0) == r
  }

  lemma Moves(steps: seq<WorldStep>, step: Step)
    requires IsHappening(steps) && Enabled(WorldAfter(steps).sys, step)
    ensures IsHappening(steps + [RelayMoves(step)])
    ensures WorldAfter(steps + [RelayMoves(step)]).sys == Next(WorldAfter(steps).sys, step)
    ensures ReaderOf(WorldAfter(steps + [RelayMoves(step)]), 0) == ReaderOf(WorldAfter(steps), 0)
  {
    HappeningSnoc(steps, RelayMoves(step));
    hide IsHappening, WorldAfter, Next, Enabled;
  }

  lemma Connects(steps: seq<WorldStep>, ws: SocketId)
    requires IsHappening(steps)
    requires Enabled(WorldAfter(steps).sys, Subscribe(ws, Seen(ReaderOf(WorldAfter(steps), 0).heard)))
    ensures IsHappening(steps + [ReaderConnects(0, ws)])
    ensures var heard, later := ReaderOf(WorldAfter(steps), 0).heard, WorldAfter(steps + [ReaderConnects(0, ws)]);
            && later.sys == Next(WorldAfter(steps).sys, Subscribe(ws, Seen(heard)))
            && ReaderOf(later, 0) == Reader(heard, Some(ws), 0)
  {
    HappeningSnoc(steps, ReaderConnects(0, ws));
    hide IsHappening, WorldAfter, Next, Enabled, Seen;
  }

  lemma Reads(steps: seq<WorldStep>, r: Reader)
    requires IsHappening(steps) && ReaderOf(WorldAfter(steps), 0) == r
    requires r.ws.Some? && r.pos < |Wire(WorldAfter(steps).sys, r.ws.value)|
    ensures IsHappening(steps + [ReaderReads(0)])
    ensures WorldAfter(steps + [ReaderReads(0)]).sys == WorldAfter(steps).sys
    ensures ReaderOf(WorldAfter(steps + [ReaderReads(0)]), 0)
            == Reader(r.heard + [Wire(WorldAfter(steps).sys, r.ws.value)[r.pos]], r.ws, r.pos + 1)
  {
    HappeningSnoc(steps, ReaderReads(0));
    hide IsHappening, WorldAfter, Wire;
  }

  lemma AtParts(steps: seq<WorldStep>, loops: seq<Phase>, sockets: seq<SocketId>, h: seq<BufferedEvent>,
                w0: seq<Message>, w1: seq<Message>, r: Reader)
    ensures At(steps, loops, sockets, h, w0, w1, r)
            <==> IsHappening(steps)
                 && Is(WorldAfter(steps).sys, loops, sockets, h, w0, w1) && ReaderOf(WorldAfter(steps), 0) == r
  {
    hide IsHappening, WorldAfter, Is, ReaderOf;
  }

  /** The reader comes, with everything so far behind it. */
  lemma Comes(steps: seq<WorldStep>, ws: SocketId, h: seq<BufferedEvent>, w0: seq<Message>, w1: seq<Message>, r: Reader)
    requires ws <= 1 && At(steps, [], [], h, w0, w1, r) && Seen(r.heard) == |h| && (if ws == 0 then w0 else w1) == []
    ensures At(steps + [ReaderConnects(0, ws)], [Connecting], [ws], h,
               if ws == 0 then [Replay([])] else w0, if ws == 1 then [Replay([])] else w1, Reader(r.heard, Some(ws), 0))
  {
    hide *;
    AtParts(steps, [], [], h, w0, w1, r);
    AtParts(steps + [ReaderConnects(0, ws)], [Connecting], [ws], h,
            if ws == 0 then [Replay([])] else w0, if ws == 1 then [Replay([])] else w1, Reader(r.heard, Some(ws), 0));
    Subscribed(WorldAfter(steps).sys, ws, [], h, w0, w1);
    assert [] + [ws] == [ws];
    Connects(steps, ws);
  }

  /** The relay takes a step that is known to lead from one state to another. */
  lemma RelayGoes(steps: seq<WorldStep>, step: Step, loops: seq<Phase>, sockets: seq<SocketId>, h: seq<BufferedEvent>,
                  w0: seq<Message>, w1: seq<Message>, r: Reader)
    requires IsHappening(steps) && ReaderOf(WorldAfter(steps), 0) == r && Enabled(WorldAfter(steps).sys, step)
    requires Is(Next(WorldAfter(steps).sys, step), loops, sockets, h, w0, w1)
    ensures At(steps + [RelayMoves(step)], loops, sockets, h, w0, w1, r)
  {
    hide *;
    AtParts(steps + [RelayMoves(step)], loops, sockets, h, w0, w1, r);
    Moves(steps, step);
  }

  /** The reader reads the next message of its socket. */
  lemma Hears(steps: seq<WorldStep>, loops: seq<Phase>, sockets: seq<SocketId>, h: seq<BufferedEvent>,
              w0: seq<Message>, w1: seq<Message>, r: Reader, ws: SocketId)
    requires At(steps, loops, sockets, h, w0, w1, r) && ws <= 1 && r.ws == Some(ws)
    requires r.pos < |if ws == 0 then w0 else w1|
    ensures At(steps + [ReaderReads(0)], loops, sockets, h, w0, w1,
               Reader(r.heard + [(if ws == 0 then w0 else w1)[r.pos]], r.ws, r.pos + 1))
  {
    hide *;
    AtParts(steps, loops, sockets, h, w0, w1, r);
    AtParts(steps + [ReaderReads(0)], loops, sockets, h, w0, w1,
            Reader(r.heard + [(if ws == 0 then w0 else w1)[r.pos]], r.ws, r.pos + 1));
    IsStream(WorldAfter(steps).sys, loops, sockets, h, w0, w1, ws);
    Reads(steps, r);
  }

  lemma FetchGoes(steps: seq<WorldStep>, sockets: seq<SocketId>, h: seq<BufferedEvent>,
                  w0: seq<Message>, w1: seq<Message>, r: Reader)
    requires At(steps, [Connecting], sockets, h, w0, w1, r)
    ensures At(steps + [RelayMoves(FetchSucceeded(0))], [Reading(false)], sockets, h, w0, w1, r)
  {
    hide *;
    AtParts(steps, [Connecting], sockets, h, w0, w1, r);
    Fetched(WorldAfter(steps).sys, sockets, h, w0, w1);
    RelayGoes(steps, FetchSucceeded(0), [Reading(false)], sockets, h, w0, w1, r);
  }

  lemma ChunkGoes(steps: seq<WorldStep>, ws: SocketId, h: seq<BufferedEvent>,
                  w0: seq<Message>, w1: seq<Message>, r: Reader)
    requires At(steps, [Reading(false)], [ws], h, w0, w1, r) && ws <= 1
    ensures var e := Number(|h| + 1, BLANK);
            At(steps + [RelayMoves(Chunk(0, [BLANK]))], [Reading(false)], [ws], h + [e],
               if ws == 0 then w0 + [Live(e)] else w0, if ws == 1 then w1 + [Live(e)] else w1, r)
  {
    hide *;
    var e := Number(|h| + 1, BLANK);
    AtParts(steps, [Reading(false)], [ws], h, w0, w1, r);
    ReadOne(WorldAfter(steps).sys, ws, h, w0, w1);
    RelayGoes(steps, Chunk(0, [BLANK]), [Reading(false)], [ws], h + [e],
              if ws == 0 then w0 + [Live(e)] else w0, if ws == 1 then w1 + [Live(e)] else w1, r);
  }

  /** The socket's messages, and the reader that has heard them. */
  lemma HearsBoth(steps: seq<WorldStep>, ws: SocketId, h: seq<BufferedEvent>,
                  w0: seq<Message>, w1: seq<Message>, heard: seq<Message>, e: BufferedEvent)
    requires ws <= 1 && (if ws == 0 then w0 else w1) == [Replay([]), Live(e)]
    requires At(steps, [Reading(false)], [ws], h, w0, w1, Reader(heard, Some(ws), 0))
    ensures At(steps + [ReaderReads(0)] + [ReaderReads(0)], [Reading(false)], [ws], h, w0, w1,
               Reader(heard + [Replay([]), Live(e)], Some(ws), 2))
  {
    hide *;
    Hears(steps, [Reading(false)], [ws], h, w0, w1, Reader(heard, Some(ws), 0), ws);
    Hears(steps + [ReaderReads(0)], [Reading(false)], [ws], h, w0, w1, Reader(heard + [Replay([])], Some(ws), 1), ws);
    assert heard + [Replay([])] + [Live(e)] == heard + [Replay([]), Live(e)];
  }

  /** Connecting, one event, and both messages read. */
  lemma Visit(steps: seq<WorldStep>, ws: SocketId, h: seq<BufferedEvent>, w0: seq<Message>, w1: seq<Message>, r: Reader)
    requires ws <= 1 && At(steps, [], [], h, w0, w1, r) && Seen(r.heard) == |h| && (if ws == 0 then w0 else w1) == []
    ensures var e := Number(|h| + 1, BLANK);
            var stream := [Replay([]), Live(e)];
            At(steps + [ReaderConnects(0, ws)] + [RelayMoves(FetchSucceeded(0))] + [RelayMoves(Chunk(0, [BLANK]))]
               + [ReaderReads(0)] + [ReaderReads(0)],
               [Reading(false)], [ws], h + [e], if ws == 0 then stream else w0, if ws == 1 then stream else w1,
               Reader(r.heard + stream, Some(ws), 2))
  {
    hide *;
    var e := Number(|h| + 1, BLANK);
    var s1 := steps + [ReaderConnects(0, ws)];
    var s2 := s1 + [RelayMoves(FetchSucceeded(0))];
    var g0, g1 := if ws == 0 then [Replay([])] else w0, if ws == 1 then [Replay([])] else w1;
    var stream := [Replay([]), Live(e)];
    Comes(steps, ws, h, w0, w1, r);
    FetchGoes(s1, [ws], h, g0, g1, Reader(r.heard, Some(ws), 0));
    ChunkGoes(s2, ws, h, g0, g1, Reader(r.heard, Some(ws), 0));
    assert [Replay([])] + [Live(e)] == stream;
    HearsBoth(s2 + [RelayMoves(Chunk(0, [BLANK]))], ws, h + [e],
              if ws == 0 then stream else w0, if ws == 1 then stream else w1, r.heard, e);
  }

  /** The reader leaves, and the connection ends unheard. */
  lemma Leaves(steps: seq<WorldStep>, h: seq<BufferedEvent>, w0: seq<Message>, r: Reader)
    requires At(steps, [Reading(false)], [0], h, w0, [], r)
    ensures At(steps + [RelayMoves(SocketClosed(0))] + [RelayMoves(ConnectionEnded(0))],
               [Returned(false, true)], [], h, w0, [], r)
  {
    hide *;
    AtParts(steps, [Reading(false)], [0], h, w0, [], r);
    Left(WorldAfter(steps).sys, h, w0);
    RelayGoes(steps, SocketClosed(0), [Reading(false)], [], h, w0, [], r);
    var left := steps + [RelayMoves(SocketClosed(0))];
    AtParts(left, [Reading(false)], [], h, w0, [], r);
    Ended(WorldAfter(left).sys, h, w0);
    RelayGoes(left, ConnectionEnded(0), [Returned(false, true)], [], h, w0, [], r);
  }

  lemma Drops(steps: seq<WorldStep>, h: seq<BufferedEvent>, w0: seq<Message>, r: Reader)
    requires At(steps, [Returned(false, true)], [], h, w0, [], r)
    ensures IsHappening(steps) && Enabled(WorldAfter(steps).sys, AttemptHandled(0))
    ensures AnnouncesDrop(WorldAfter(steps).sys, AttemptHandled(0))
    ensures At(steps + [DROP], [], [], h, w0, [], r)
  {
    assert DROP == RelayMoves(AttemptHandled(0));
    hide *;
    AtParts(steps, [Returned(false, true)], [], h, w0, [], r);
    Announced(WorldAfter(steps).sys, h, w0);
    RelayGoes(steps, AttemptHandled(0), [], [], h, w0, [], r);
  }

  lemma IsStream(sys: System, loops: seq<Phase>, sockets: seq<SocketId>, h: seq<BufferedEvent>,
                 w0: seq<Message>, w1: seq<Message>, ws: SocketId)
    requires Is(sys, loops, sockets, h, w0, w1) && ws <= 1
    ensures Wire(sys, ws) == if ws == 0 then w0 else w1
  {
    hide Inv, Wire;
  }

  lemma EmptyWorldIs()
    ensures At([], [], [], [], [], [], Reader([], None, 0))
  {
    InvInitially();
    hide Inv;
  }

  lemma SeenFirst()
    ensures Seen([Replay([]), Live(FIRST)]) == 1
  {
    assert [Replay([]), Live(FIRST)][..1] == [Replay([])] && [Replay([])][..0] == [];
  }

  const FIRST_VISIT: seq<WorldStep> :=
    [] + [ReaderConnects(0, 0)] + [RelayMoves(FetchSucceeded(0))] + [RelayMoves(Chunk(0, [BLANK]))]
    + [ReaderReads(0)] + [ReaderReads(0)]

  lemma Scripts()
    ensures FIRST_VISIT + [RelayMoves(SocketClosed(0))] + [RelayMoves(ConnectionEnded(0))] == BEFORE_DROP
    ensures BEFORE_DROP + [DROP] + [ReaderConnects(0, 1)] + [RelayMoves(FetchSucceeded(0))]
            + [RelayMoves(Chunk(0, [BLANK]))] + [ReaderReads(0)] + [ReaderReads(0)]
            == BEFORE_DROP + [DROP] + AFTER_DROP
  {
  }

  const HEARD_FIRST: seq<Message> := [Replay([]), Live(FIRST)]

  lemma BeforeTheDrop()
    ensures At(BEFORE_DROP, [Returned(false, true)], [], [FIRST], HEARD_FIRST, [], Reader(HEARD_FIRST, Some(0), 2))
  {
    var r := Reader(HEARD_FIRST, Some(0), 2);
    SeenNothing();
    EmptyWorldIs();
    Scripts();
    assert FIRST == Number(1, BLANK) && HEARD_FIRST == [Replay([]), Live(FIRST)];
    assert FIRST_VISIT == [] + [ReaderConnects(0, 0)] + [RelayMoves(FetchSucceeded(0))]
                          + [RelayMoves(Chunk(0, [BLANK]))] + [ReaderReads(0)] + [ReaderReads(0)];
    assert [] + [FIRST] == [FIRST] && [] + HEARD_FIRST == HEARD_FIRST;
    hide *;
    Visit([], 0, [], [], [], Reader([], None, 0));
    Leaves(FIRST_VISIT, [FIRST], HEARD_FIRST, r);
  }

  lemma AfterTheDrop()
    ensures At(BEFORE_DROP + [DROP] + AFTER_DROP, [Reading(false)], [1], [FIRST] + [SECOND], HEARD_FIRST,
               [Replay([]), Live(SECOND)], Reader(HEARD_FIRST + [Replay([]), Live(SECOND)], Some(1), 2))
  {
    var r := Reader(HEARD_FIRST, Some(0), 2);
    BeforeTheDrop();
    SeenFirst();
    Scripts();
    assert SECOND == Number(2, BLANK) && HEARD_FIRST == [Replay([]), Live(FIRST)];
    hide *;
    Drops(BEFORE_DROP, [FIRST], HEARD_FIRST, r);
    Visit(BEFORE_DROP + [DROP], 1, [FIRST], HEARD_FIRST, [], r);
  }

  /** The drop is announced while nobody listens, and the reader's log spans it
      without a gap: what it missed of the upstream, it is never told. */
  lemma AwayFromDrop()
    ensures IsHappening(BEFORE_DROP) && Enabled(WorldAfter(BEFORE_DROP).sys, AttemptHandled(0))
    ensures AnnouncesDrop(WorldAfter(BEFORE_DROP).sys, AttemptHandled(0))
    ensures IsHappening(BEFORE_DROP + [DROP] + AFTER_DROP)
    ensures ReaderOf(WorldAfter(BEFORE_DROP), 0).heard == [Replay([]), Live(FIRST)]
    ensures ReaderOf(WorldAfter(BEFORE_DROP + [DROP] + AFTER_DROP), 0).heard
            == [Replay([]), Live(FIRST), Replay([]), Live(SECOND)]
  {
    var r := Reader(HEARD_FIRST, Some(0), 2);
    BeforeTheDrop();
    AfterTheDrop();
    assert HEARD_FIRST == [Replay([]), Live(FIRST)];
    assert HEARD_FIRST + [Replay([]), Live(SECOND)] == [Replay([]), Live(FIRST), Replay([]), Live(SECOND)];
    hide *;
    AtParts(BEFORE_DROP, [Returned(false, true)], [], [FIRST], HEARD_FIRST, [], r);
    Drops(BEFORE_DROP, [FIRST], HEARD_FIRST, r);
    AtParts(BEFORE_DROP + [DROP] + AFTER_DROP, [Reading(false)], [1], [FIRST] + [SECOND], HEARD_FIRST,
            [Replay([]), Live(SECOND)], Reader(HEARD_FIRST + [Replay([]), Live(SECOND)], Some(1), 2));
  }

  lemma SeenNothing()
    ensures Seen([]) == 0
  {
  }
}

/** What one socket is sent over a whole run, and why a reader of any prefix of
    it can always tell what it has missed. */
module RelayStreams {
  import opened Protocol
  import opened ReplayStore
  import opened FeedRelay
  import opened RelayTurns
  import opened RelayRuns

  // ---------------------------------------------------------------- legal streams

  /** What a subscriber can expect next, from what it has been sent: the seq, and
      whether the next live event must carry exactly it. */
  datatype Cursor = Cursor(next: nat, exact: bool)

  function FirstCursor(base: nat, m: Message): Cursor {
    match m
    case Replay(events) => Cursor(base + |events| + 1, true)
    case Gap(k) => Cursor(k, false)
    case Live(e) => Cursor(e.seqNo + 1, true)
  }

  function Advance(c: Cursor, m: Message): Cursor {
    match m
    case Replay(_) => Cursor(c.next, true)
    case Gap(k) => Cursor(k, true)
    case Live(e) => Cursor(e.seqNo + 1, true)
  }

  function CursorAfter(base: nat, sent: seq<Message>): Cursor {
    if sent == [] then Cursor(base + 1, false)
    else if |sent| == 1 then FirstCursor(base, sent[0])
    else Advance(CursorAfter(base, sent[..|sent| - 1]), sent[|sent| - 1])
  }

  /** A message that may follow: a gap never goes back, a live event is the one
      expected and is the event the history has under that seq. */
  predicate MayFollow(c: Cursor, m: Message, h: seq<BufferedEvent>) {
    match m
    case Replay(_) => false
    case Gap(k) => c.next <= k <= |h| + 1
    case Live(e) =>
      && 0 < e.seqNo <= |h| && h[e.seqNo - 1] == e
      && (if c.exact then e.seqNo == c.next else c.next <= e.seqNo)
  }

  /** Every message after the first is one that may follow those before it. */
  ghost predicate Legal(base: nat, sent: seq<Message>, h: seq<BufferedEvent>) {
    forall p :: 0 < p < |sent| ==> MayFollow(CursorAfter(base, sent[..p]), sent[p], h)
  }

  lemma LegalSnoc(base: nat, sent: seq<Message>, m: Message, h: seq<BufferedEvent>)
    requires sent != [] && Legal(base, sent, h) && MayFollow(CursorAfter(base, sent), m, h)
    ensures Legal(base, sent + [m], h)
    ensures CursorAfter(base, sent + [m]) == Advance(CursorAfter(base, sent), m)
  {
    hide MayFollow, CursorAfter;
    var longer := sent + [m];
    forall p | 0 < p < |longer| ensures MayFollow(CursorAfter(base, longer[..p]), longer[p], h) {
      assert longer[..p] == sent[..p];
      assert p == |sent| ==> sent[..p] == sent;
    }
    CursorSnoc(base, sent, m);
  }

  lemma CursorSnoc(base: nat, sent: seq<Message>, m: Message)
    requires sent != []
    ensures CursorAfter(base, sent + [m]) == Advance(CursorAfter(base, sent), m)
  {
    assert (sent + [m])[..|sent + [m]| - 1] == sent;
  }

  lemma FollowsInLonger(c: Cursor, m: Message, h: seq<BufferedEvent>, more: seq<BufferedEvent>)
    requires MayFollow(c, m, h)
    ensures MayFollow(c, m, h + more)
  {
  }

  lemma LegalInLonger(base: nat, sent: seq<Message>, h: seq<BufferedEvent>, more: seq<BufferedEvent>)
    requires Legal(base, sent, h)
    ensures Legal(base, sent, h + more)
  {
    hide MayFollow, CursorAfter;
    forall p | 0 < p < |sent| ensures MayFollow(CursorAfter(base, sent[..p]), sent[p], h + more) {
      FollowsInLonger(CursorAfter(base, sent[..p]), sent[p], h, more);
    }
  }

  predicate Ready(c: Cursor, next: nat) {
    c.next <= next && (c.exact ==> c.next == next)
  }

  lemma NextMayFollow(c: Cursor, h: seq<BufferedEvent>, from: nat)
    requires IsHistory(h) && from < |h| && Ready(c, from + 1)
    ensures MayFollow(c, Live(h[from]), h)
    ensures Ready(Advance(c, Live(h[from])), from + 2)
  {
  }

  lemma LivesSplit(sent: seq<Message>, h: seq<BufferedEvent>, from: nat)
    requires from < |h|
    ensures sent + LiveMessages(h[from..]) == (sent + [Live(h[from])]) + LiveMessages(h[from + 1..])
  {
    assert h[from..][1..] == h[from + 1..];
    assert LiveMessages(h[from..]) == [Live(h[from])] + LiveMessages(h[from + 1..]);
  }

  /** The rest of a history may be sent live to whoever is ready for it. */
  lemma {:induction false} LivesFollow(base: nat, sent: seq<Message>, h: seq<BufferedEvent>, from: nat)
    requires IsHistory(h) && from <= |h|
    requires sent != [] && Legal(base, sent, h) && Ready(CursorAfter(base, sent), from + 1)
    ensures Legal(base, sent + LiveMessages(h[from..]), h)
    ensures Ready(CursorAfter(base, sent + LiveMessages(h[from..])), |h| + 1)
    decreases |h| - from
  {
    if from == |h| {
      hide Legal, CursorAfter, IsHistory;
      assert sent + LiveMessages(h[from..]) == sent;
    } else {
      hide Legal, CursorAfter, IsHistory, MayFollow, Ready, LiveMessages;
      NextMayFollow(CursorAfter(base, sent), h, from);
      LegalSnoc(base, sent, Live(h[from]), h);
      LivesFollow(base, sent + [Live(h[from])], h, from + 1);
      LivesSplit(sent, h, from);
    }
  }

  // ---------------------------------------------------------------- one socket's stream

  function Base(since: nat, joined: nat): nat {
    if since <= joined then since else joined
  }

  /** The first message answers the socket's claim out of the window retained
      when it connected; the rest is legal; and an open socket that must be sent
      an exact seq next is waiting for the one the relay numbers next. */
  ghost predicate StreamOk(sent: seq<Message>, isOpen: bool, since: nat, joined: nat, h: seq<BufferedEvent>) {
    && joined <= |h|
    && sent != []
    && sent[0] == Greeting(LastN(h[..joined], REPLAY_CAPACITY), since)
    && Legal(Base(since, joined), sent, h)
    && CursorAfter(Base(since, joined), sent).next <= |h| + 1
    && (isOpen ==> Ready(CursorAfter(Base(since, joined), sent), |h| + 1))
  }

  lemma StreamGreeted(since: nat, h: seq<BufferedEvent>)
    requires IsHistory(h)
    ensures StreamOk([Greeting(LastN(h, REPLAY_CAPACITY), since)], true, since, |h|, h)
  {
    GreetingExact(h, REPLAY_CAPACITY, since);
    assert h[..|h|] == h;
  }

  lemma StreamClosed(sent: seq<Message>, isOpen: bool, since: nat, joined: nat, h: seq<BufferedEvent>)
    requires StreamOk(sent, isOpen, since, joined, h)
    ensures StreamOk(sent, false, since, joined, h)
  {
  }

  lemma StreamInLonger(sent: seq<Message>, since: nat, joined: nat, h: seq<BufferedEvent>, more: seq<BufferedEvent>)
    requires StreamOk(sent, false, since, joined, h)
    ensures StreamOk(sent, false, since, joined, h + more)
  {
    hide Legal, CursorAfter, Greeting;
    LegalInLonger(Base(since, joined), sent, h, more);
    assert (h + more)[..joined] == h[..joined];
  }

  lemma StreamGapped(sent: seq<Message>, since: nat, joined: nat, h: seq<BufferedEvent>)
    requires StreamOk(sent, true, since, joined, h)
    ensures StreamOk(sent + [Gap(|h| + 1)], true, since, joined, h)
  {
    hide Legal, CursorAfter, Greeting;
    LegalSnoc(Base(since, joined), sent, Gap(|h| + 1), h);
  }

  lemma {:induction false} BurstSplit(sent: seq<Message>, h: seq<BufferedEvent>, batch: seq<BufferedEvent>)
    requires IsHistory(h + batch)
    ensures var longer := h + batch;
            var from := |longer| - OUTBOUND_BURST_CAPACITY;
            sent + Burst(batch)
            == if |batch| > OUTBOUND_BURST_CAPACITY then (sent + [Gap(from + 1)]) + LiveMessages(longer[from..])
               else sent + LiveMessages(longer[|h|..])
  {
    hide LiveMessages;
    var longer := h + batch;
    assert batch == longer[|h|..];
    if |batch| > OUTBOUND_BURST_CAPACITY {
      var from := |longer| - OUTBOUND_BURST_CAPACITY;
      assert longer[from..] == batch[|batch| - OUTBOUND_BURST_CAPACITY..];
      assert longer[from].seqNo == from + 1;
    }
  }

  lemma BurstFollows(base: nat, sent: seq<Message>, h: seq<BufferedEvent>, batch: seq<BufferedEvent>)
    requires IsHistory(h + batch)
    requires sent != [] && Legal(base, sent, h + batch) && Ready(CursorAfter(base, sent), |h| + 1)
    ensures Legal(base, sent + Burst(batch), h + batch)
    ensures Ready(CursorAfter(base, sent + Burst(batch)), |h + batch| + 1)
  {
    hide Legal, CursorAfter, IsHistory, LiveMessages, Burst;
    BurstSplit(sent, h, batch);
    var longer := h + batch;
    if |batch| > OUTBOUND_BURST_CAPACITY {
      var from := |longer| - OUTBOUND_BURST_CAPACITY;
      LegalSnoc(base, sent, Gap(from + 1), longer);
      LivesFollow(base, sent + [Gap(from + 1)], longer, from);
    } else {
      LivesFollow(base, sent, longer, |h|);
    }
  }

  lemma StreamBurst(sent: seq<Message>, since: nat, joined: nat, h: seq<BufferedEvent>, batch: seq<BufferedEvent>)
    requires IsHistory(h + batch) && StreamOk(sent, true, since, joined, h)
    ensures StreamOk(sent + Burst(batch), true, since, joined, h + batch)
  {
    hide Legal, CursorAfter, Greeting, Burst;
    LegalInLonger(Base(since, joined), sent, h, batch);
    BurstFollows(Base(since, joined), sent, h, batch);
    assert (h + batch)[..joined] == h[..joined];
  }

  // ---------------------------------------------------------------- what one step sends

  /** Sockets are distinct, nothing is queued between turns, and the observer
      knows every socket that was ever answered. */
  ghost predicate SocketsInOrder(sys: System) {
    && Distinct(sys.relay.durable.sockets)
    && Quiet(sys.relay.queues)
    && (forall ws :: ws in sys.relay.durable.sockets ==> ws in sys.relay.durable.wire)
    && (forall ws :: ws in sys.relay.durable.wire ==> ws in sys.since && ws in sys.joined)
  }

  /** Whether a returning attempt tells everybody about a drop. */
  predicate AnnouncesDrop(sys: System, step: Step)
    requires Enabled(sys, step)
  {
    step.AttemptHandled? && !sys.loops[step.i].intentional && !sys.relay.outageSignaled
  }

  /** What a step sends to one socket. */
  function SentBy(sys: System, step: Step, ws: SocketId): seq<Message>
    requires Enabled(sys, step)
  {
    if step.Subscribe? && step.ws == ws then [Greeting(sys.relay.buf, step.lastSeen)]
    else if step.Chunk? && ws in sys.relay.durable.sockets then Burst(NumberFrom(sys.relay.nextSeq, step.events))
    else if AnnouncesDrop(sys, step) && ws in sys.relay.durable.sockets then [Gap(sys.relay.nextSeq)]
    else []
  }

  function Wire(sys: System, ws: SocketId): seq<Message> {
    WireOf(sys.relay.durable.wire, ws)
  }

  lemma AttemptWire(r: Relay, intentional: bool)
    ensures AttemptReturned(r, intentional).durable.wire
            == if !intentional && !r.outageSignaled then SendToAll(r.durable.wire, r.durable.sockets, Gap(r.nextSeq))
               else r.durable.wire
  {
    hide SendToAll;
  }

  lemma AttemptSends(r: Relay, intentional: bool, ws: SocketId)
    requires Distinct(r.durable.sockets)
    requires forall w :: w in r.durable.sockets ==> w in r.durable.wire
    ensures var s := AttemptReturned(r, intentional);
            && WireOf(s.durable.wire, ws)
               == WireOf(r.durable.wire, ws)
                  + (if !intentional && !r.outageSignaled && ws in r.durable.sockets then [Gap(r.nextSeq)] else [])
            && (ws in s.durable.wire <==> ws in r.durable.wire)
  {
    SendToAllAt(r.durable.wire, r.durable.sockets, Gap(r.nextSeq), ws);
    AttemptWire(r, intentional);
    assert WireOf(r.durable.wire, ws) + [] == WireOf(r.durable.wire, ws);
    hide *;
  }

  lemma ConnectedSends(r: Relay, w: SocketId, lastSeen: nat, ws: SocketId)
    ensures var s := Connected(r, w, lastSeen);
            && WireOf(s.durable.wire, ws)
               == WireOf(r.durable.wire, ws) + (if w == ws then [Greeting(r.buf, lastSeen)] else [])
            && (ws in s.durable.wire <==> ws in r.durable.wire || w == ws)
  {
    hide Greeting;
  }

  /** Exactly what every step adds to every socket's stream. */
  lemma StepSends(sys: System, step: Step, ws: SocketId)
    requires SocketsInOrder(sys) && Enabled(sys, step)
    ensures Wire(Next(sys, step), ws) == Wire(sys, ws) + SentBy(sys, step, ws)
    ensures ws in Next(sys, step).relay.durable.wire
            <==> ws in sys.relay.durable.wire || (step.Subscribe? && step.ws == ws)
  {
    hide Quiet, Distinct, Burst, ChunkRead, NumberFrom, AttemptReturned, Connected, Logged, CancelReads, LoopIs;
    hide WireOf, Greeting;
    assert Wire(sys, ws) + [] == Wire(sys, ws);
    if step.Chunk? {
      BurstCap(sys.relay, step.events, ws);
    } else if step.AttemptHandled? {
      AttemptSends(sys.relay, sys.loops[step.i].intentional, ws);
    } else if step.Subscribe? {
      ConnectedSends(sys.relay, step.ws, step.lastSeen, ws);
    }
  }

  /** Which sockets are listed after a step. */
  lemma StepLists(sys: System, step: Step)
    requires Enabled(sys, step)
    ensures Next(sys, step).relay.durable.sockets
            == if step.Subscribe? then sys.relay.durable.sockets + [step.ws]
               else if step.SocketClosed? then Without(sys.relay.durable.sockets, step.ws)
               else sys.relay.durable.sockets
  {
    if step.Chunk? {
      hide Ingested, FlushAll;
      IngestedFrame(sys.relay, step.events);
    } else if step.AttemptHandled? {
      hide SendToAll, Logged;
    } else if step.Subscribe? {
      hide SendTo, Greeting;
    } else {
      hide ChunkRead, Connected, AttemptReturned, CancelReads, Logged, SelectBySeq, LoopIs;
    }
  }

  /** Exactly who is listening after a step. */
  lemma StepSockets(sys: System, step: Step, ws: SocketId)
    requires Enabled(sys, step)
    ensures ws in Next(sys, step).relay.durable.sockets
            <==> if step.Subscribe? && step.ws == ws then true
                 else if step.SocketClosed? && step.ws == ws then false
                 else ws in sys.relay.durable.sockets
  {
    StepLists(sys, step);
    hide Next, Enabled;
  }

  lemma StepRecords(sys: System, step: Step)
    requires Enabled(sys, step)
    ensures var next := Next(sys, step);
            && next.history == sys.history + (if step.Chunk? then NumberFrom(sys.relay.nextSeq, step.events) else [])
            && next.since == (if step.Subscribe? then sys.since[step.ws := step.lastSeen] else sys.since)
            && next.joined == (if step.Subscribe? then sys.joined[step.ws := |sys.history|] else sys.joined)
  {
    hide NumberFrom, ChunkRead, Connected, AttemptReturned;
  }

  lemma DistinctSnoc(sockets: seq<SocketId>, ws: SocketId)
    requires Distinct(sockets) && ws !in sockets
    ensures Distinct(sockets + [ws])
  {
  }

  lemma StepQuiets(sys: System, step: Step)
    requires SocketsInOrder(sys) && Enabled(sys, step)
    ensures Quiet(Next(sys, step).relay.queues)
  {
    if step.Chunk? {
      hide Quiet, Distinct, ChunkRead;
      ChunkQuiet(sys.relay, step.events);
    } else if step.AttemptHandled? {
      hide Quiet, Distinct, SendToAll, Logged;
    } else {
      hide Quiet, Distinct, ChunkRead, AttemptReturned, SendTo, Greeting, CancelReads, Logged, SelectBySeq;
      hide LoopIs, Without;
      assert step.Evicted? ==> Quiet(map[]) by { NothingQueued(); }
    }
  }

  lemma NothingQueued()
    ensures Quiet(map[])
  {
  }

  lemma DistinctKept(sys: System, step: Step)
    requires SocketsInOrder(sys) && Enabled(sys, step)
    ensures Distinct(Next(sys, step).relay.durable.sockets)
    ensures Quiet(Next(sys, step).relay.queues)
  {
    StepLists(sys, step);
    StepQuiets(sys, step);
    if step.Subscribe? { DistinctSnoc(sys.relay.durable.sockets, step.ws); }
    hide Next, Quiet, Distinct;
  }

  lemma SocketsKept(sys: System, step: Step)
    requires SocketsInOrder(sys) && Enabled(sys, step)
    ensures SocketsInOrder(Next(sys, step))
  {
    var next := Next(sys, step);
    DistinctKept(sys, step);
    StepRecords(sys, step);
    forall ws ensures (ws in next.relay.durable.sockets ==> ws in next.relay.durable.wire)
                      && (ws in next.relay.durable.wire ==> ws in next.since && ws in next.joined) {
      hide Next, Quiet, Distinct, SentBy, Wire;
      StepSockets(sys, step, ws);
      StepSends(sys, step, ws);
    }
  }

  // ---------------------------------------------------------------- the window

  predicate SameStore(r: Relay, s: Relay) {
    && s.buf == r.buf && s.nextSeq == r.nextSeq
    && s.durable.table == r.durable.table && s.durable.nextSeqMeta == r.durable.nextSeqMeta
  }

  lemma AttemptStores(r: Relay, intentional: bool)
    ensures SameStore(r, AttemptReturned(r, intentional))
  {
  }

  lemma ConnectedStores(r: Relay, ws: SocketId, lastSeen: nat)
    ensures SameStore(r, Connected(r, ws, lastSeen))
  {
    hide Greeting, SendTo;
  }

  /** Only a chunk and an eviction touch what is retained. */
  lemma StepStores(sys: System, step: Step)
    requires Enabled(sys, step) && !step.Chunk? && !step.Evicted?
    ensures SameStore(sys.relay, Next(sys, step).relay)
  {
    if step.AttemptHandled? {
      hide AttemptReturned, SameStore;
      AttemptStores(sys.relay, sys.loops[step.i].intentional);
    } else if step.Subscribe? {
      hide Connected, SameStore;
      ConnectedStores(sys.relay, step.ws, step.lastSeen);
    } else {
      hide ChunkRead, Connected, AttemptReturned, CancelReads, Logged, Without, LoopIs;
    }
  }

  lemma RetainsOf(r: Relay, s: Relay, h: seq<BufferedEvent>)
    requires Retains(r, h) && SameStore(r, s)
    ensures Retains(s, h)
  {
  }

  lemma RetainsKept(sys: System, step: Step)
    requires Retains(sys.relay, sys.history) && Enabled(sys, step)
    ensures Retains(Next(sys, step).relay, Next(sys, step).history)
  {
    StepRecords(sys, step);
    if step.Chunk? {
      hide Retains, ChunkRead;
      ChunkRetained(sys.relay, step.events, sys.history);
    } else if step.Evicted? {
      hide Retains, Hydrated;
      EvictionRestores(sys.relay, sys.history);
    } else {
      StepStores(sys, step);
      hide Retains, Next, SameStore;
      RetainsOf(sys.relay, Next(sys, step).relay, sys.history);
    }
  }

  // ---------------------------------------------------------------- all streams

  ghost predicate StreamsOk(sys: System)
    requires SocketsInOrder(sys)
  {
    forall ws :: ws in sys.relay.durable.wire ==>
      StreamOk(Wire(sys, ws), ws in sys.relay.durable.sockets, sys.since[ws], sys.joined[ws], sys.history)
  }

  /** What one step does to the stream of a socket that is already there. */
  lemma SentKeepsStream(sys: System, step: Step, ws: SocketId, since: nat, joined: nat)
    requires Enabled(sys, step) && !(step.Subscribe? && step.ws == ws)
    requires sys.relay.nextSeq == |sys.history| + 1
    requires step.Chunk? ==> IsHistory(sys.history + NumberFrom(sys.relay.nextSeq, step.events))
    requires StreamOk(Wire(sys, ws), ws in sys.relay.durable.sockets, since, joined, sys.history)
    ensures var more := if step.Chunk? then NumberFrom(sys.relay.nextSeq, step.events) else [];
            StreamOk(Wire(sys, ws) + SentBy(sys, step, ws), ws in sys.relay.durable.sockets,
                     since, joined, sys.history + more)
  {
    hide StreamOk, Burst, Greeting, NumberFrom, IsHistory, Enabled, Wire;
    var isOpen := ws in sys.relay.durable.sockets;
    if step.Chunk? && isOpen {
      StreamBurst(Wire(sys, ws), since, joined, sys.history, NumberFrom(sys.relay.nextSeq, step.events));
    } else {
      assert Wire(sys, ws) + [] == Wire(sys, ws);
      assert sys.history + [] == sys.history;
      if step.Chunk? {
        StreamInLonger(Wire(sys, ws), since, joined, sys.history, NumberFrom(sys.relay.nextSeq, step.events));
      } else if AnnouncesDrop(sys, step) && isOpen {
        StreamGapped(Wire(sys, ws), since, joined, sys.history);
      }
    }
  }

  lemma OneStreamKept(sys: System, step: Step, ws: SocketId)
    requires SocketsInOrder(sys) && StreamsOk(sys) && Retains(sys.relay, sys.history) && Enabled(sys, step)
    requires SocketsInOrder(Next(sys, step)) && ws in Next(sys, step).relay.durable.wire
    ensures var next := Next(sys, step);
            StreamOk(Wire(next, ws), ws in next.relay.durable.sockets, next.since[ws], next.joined[ws], next.history)
  {
    StepSends(sys, step, ws);
    StepSockets(sys, step, ws);
    StepRecords(sys, step);
    RetainsKept(sys, step);
    if step.Subscribe? && step.ws == ws {
      hide Next, SocketsInOrder, StreamOk, Greeting;
      StreamGreeted(step.lastSeen, sys.history);
      assert [] + SentBy(sys, step, ws) == SentBy(sys, step, ws);
      assert sys.history + [] == sys.history;
    } else {
      hide Next, StreamOk, SentBy, NumberFrom, Wire, Enabled, LastN;
      SentKeepsStream(sys, step, ws, sys.since[ws], sys.joined[ws]);
      if step.SocketClosed? {
        StreamClosed(Wire(Next(sys, step), ws), ws in sys.relay.durable.sockets,
                     sys.since[ws], sys.joined[ws], Next(sys, step).history);
      }
    }
  }

  lemma StreamsKept(sys: System, step: Step)
    requires SocketsInOrder(sys) && StreamsOk(sys) && Retains(sys.relay, sys.history) && Enabled(sys, step)
    ensures SocketsInOrder(Next(sys, step)) && StreamsOk(Next(sys, step))
  {
    SocketsKept(sys, step);
    hide Next, SocketsInOrder, StreamOk, Retains;
    forall ws | ws in Next(sys, step).relay.durable.wire
      ensures var next := Next(sys, step);
              StreamOk(Wire(next, ws), ws in next.relay.durable.sockets, next.since[ws], next.joined[ws], next.history)
    {
      OneStreamKept(sys, step, ws);
    }
  }

  // ---------------------------------------------------------------- every run

  /** Everything every reachable system satisfies. */
  ghost predicate Inv(sys: System) {
    && OneLoop(sys)
    && IdleWatched(sys)
    && OutagesInOrder(sys)
    && LogInOrder(sys)
    && Retains(sys.relay, sys.history)
    && SocketsInOrder(sys)
    && StreamsOk(sys)
  }

  lemma InvInitially()
    ensures Inv(INITIAL)
  {
  }

  lemma InvKept(sys: System, step: Step)
    requires Inv(sys) && Enabled(sys, step)
    ensures Inv(Next(sys, step))
  {
    hide Next, OneLoop, IdleWatched, OutagesInOrder, LogInOrder, Retains, SocketsInOrder, StreamsOk;
    OneLoopKept(sys, step);
    IdleWatchedKept(sys, step);
    OutagesKept(sys, step);
    LogKept(sys, step);
    RetainsKept(sys, step);
    StreamsKept(sys, step);
  }

  lemma {:induction false} InvAlways(steps: seq<Step>)
    requires IsRun(steps)
    ensures Inv(After(steps))
    decreases |steps|
  {
    hide Inv, Next, Enabled;
    if steps == [] {
      InvInitially();
    } else {
      var init := steps[..|steps| - 1];
      InvAlways(init);
      InvKept(After(init), steps[|steps| - 1]);
    }
  }
}

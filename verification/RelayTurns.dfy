/** What one turn of the relay does, in closed form: to every socket, to the
    retained window, and to its stored mirror. */
module RelayTurns {
  import opened CodeUnits
  import opened Options
  import opened SseFraming
  import opened Protocol
  import opened ReplayStore
  import opened FeedRelay

  // ---------------------------------------------------------------- every socket at once

  lemma {:induction false} SendToAllAt(
    wire: map<SocketId, seq<Message>>, sockets: seq<SocketId>, m: Message, ws: SocketId)
    requires Distinct(sockets)
    ensures WireOf(SendToAll(wire, sockets, m), ws)
            == if ws in sockets then WireOf(wire, ws) + [m] else WireOf(wire, ws)
    ensures ws in SendToAll(wire, sockets, m) <==> ws in wire || ws in sockets
    decreases |sockets|
  {
    if sockets != [] {
      var init := sockets[..|sockets| - 1];
      assert sockets == init + [sockets[|sockets| - 1]];
      SendToAllAt(wire, init, m, ws);
      SendToAllAt(wire, init, m, sockets[|sockets| - 1]);
    }
  }

  lemma {:induction false} EnqueuedAt(
    queues: map<SocketId, Outbound>, sockets: seq<SocketId>, e: BufferedEvent, ws: SocketId)
    requires Distinct(sockets)
    ensures QueueOf(EnqueuedForAll(queues, sockets, e), ws)
            == if ws in sockets then Enqueued(QueueOf(queues, ws), e) else QueueOf(queues, ws)
    decreases |sockets|
  {
    hide Enqueued;
    if sockets != [] {
      var init := sockets[..|sockets| - 1];
      assert sockets == init + [sockets[|sockets| - 1]];
      EnqueuedAt(queues, init, e, ws);
    }
  }

  /** What a flush leaves for and has sent to one socket. */
  predicate FlushedTo(o: Outlet, after: Outlet, ws: SocketId, included: bool) {
    && WireOf(after.wire, ws) == WireOf(o.wire, ws) + (if included then FlushMessages(QueueOf(o.queues, ws)) else [])
    && QueueOf(after.queues, ws)
       == (if included && QueueOf(o.queues, ws).queue != [] then NOTHING_QUEUED else QueueOf(o.queues, ws))
    && (ws in o.wire ==> ws in after.wire)
    && (ws in after.wire ==> ws in o.wire || included)
  }

  lemma FlushOneAt(o: Outlet, last: SocketId, ws: SocketId)
    ensures FlushedTo(o, FlushOne(o, last), ws, ws == last)
  {
    assert FlushMessages(NOTHING_QUEUED) == [];
  }

  lemma FlushOneThen(o: Outlet, mid: Outlet, last: SocketId, ws: SocketId, included: bool)
    requires FlushedTo(o, mid, ws, included) && FlushedTo(mid, FlushOne(mid, last), ws, ws == last)
    requires !(included && ws == last)
    ensures FlushedTo(o, FlushOne(mid, last), ws, included || ws == last)
  {
    hide FlushOne, FlushMessages;
  }

  lemma {:induction false} FlushAllAt(o: Outlet, sockets: seq<SocketId>, ws: SocketId)
    requires Distinct(sockets)
    ensures FlushedTo(o, FlushAll(o, sockets), ws, ws in sockets)
    decreases |sockets|
  {
    if sockets != [] {
      var init, last := sockets[..|sockets| - 1], sockets[|sockets| - 1];
      assert ws in sockets <==> ws in init || ws == last;
      FlushAllAt(o, init, ws);
      hide FlushedTo, FlushOne;
      FlushOneAt(FlushAll(o, init), last, ws);
      FlushOneThen(o, FlushAll(o, init), last, ws, ws in init);
    }
  }

  // ---------------------------------------------------------------- one batch

  /** No socket has anything queued between turns. */
  ghost predicate Quiet(queues: map<SocketId, Outbound>) {
    forall ws :: ws in queues ==> queues[ws] == NOTHING_QUEUED
  }

  lemma {:induction false} IngestedFrame(r: Relay, events: seq<SseEvent>)
    ensures var s := Ingested(r, events);
            && s.nextSeq == r.nextSeq + |events|
            && s.upstreamStarted == r.upstreamStarted && s.readerLive == r.readerLive
            && s.intentionalTeardown == r.intentionalTeardown && s.outageSignaled == r.outageSignaled
            && s.durable.sockets == r.durable.sockets && s.durable.wire == r.durable.wire
            && s.durable.alarmSet == r.durable.alarmSet
    decreases |events|
  {
    if events != [] {
      IngestedFrame(r, events[..|events| - 1]);
    }
  }

  lemma EnqueueKeepsWindow(batch: seq<BufferedEvent>, e: BufferedEvent)
    ensures Enqueued(Outbound(LastN(batch, OUTBOUND_BURST_CAPACITY), |batch| > OUTBOUND_BURST_CAPACITY), e)
            == Outbound(LastN(batch + [e], OUTBOUND_BURST_CAPACITY), |batch| + 1 > OUTBOUND_BURST_CAPACITY)
  {
  }

  lemma BroadcastQueue(r: Relay, evt: SseEvent, ws: SocketId)
    requires Distinct(r.durable.sockets)
    ensures QueueOf(EventBroadcast(r, evt).queues, ws)
            == if ws in r.durable.sockets then Enqueued(QueueOf(r.queues, ws), Number(r.nextSeq, evt))
               else QueueOf(r.queues, ws)
  {
    EnqueuedAt(r.queues, r.durable.sockets, Number(r.nextSeq, evt), ws);
    hide Enqueued, EnqueuedForAll, Distinct, QueueOf, Trim, Insert, Buffered;
  }

  lemma IngestedSnoc(r: Relay, events: seq<SseEvent>)
    requires events != []
    ensures Ingested(r, events) == EventBroadcast(Ingested(r, events[..|events| - 1]), events[|events| - 1])
  {
  }

  lemma NumberSnoc(first: nat, events: seq<SseEvent>)
    requires events != []
    ensures var init := events[..|events| - 1];
            NumberFrom(first, events) == NumberFrom(first, init) + [Number(first + |init|, events[|events| - 1])]
  {
  }

  /** A socket's queue after a batch: the batch's last twenty, owing a gap
      exactly when something was dropped. */
  lemma {:induction false} IngestedQueue(r: Relay, events: seq<SseEvent>, ws: SocketId)
    requires Distinct(r.durable.sockets) && QueueOf(r.queues, ws) == NOTHING_QUEUED
    ensures var batch := NumberFrom(r.nextSeq, events);
            QueueOf(Ingested(r, events).queues, ws)
            == if ws in r.durable.sockets
               then Outbound(LastN(batch, OUTBOUND_BURST_CAPACITY), |batch| > OUTBOUND_BURST_CAPACITY)
               else NOTHING_QUEUED
    decreases |events|
  {
    if events != [] {
      var init, last := events[..|events| - 1], events[|events| - 1];
      IngestedQueue(r, init, ws);
      IngestedFrame(r, init);
      IngestedSnoc(r, events);
      hide EventBroadcast, Enqueued, LastN, QueueOf;
      var s := Ingested(r, init);
      BroadcastQueue(s, last, ws);
      EnqueueKeepsWindow(NumberFrom(r.nextSeq, init), Number(s.nextSeq, last));
      NumberSnoc(r.nextSeq, events);
      hide *;
    }
  }

  /** What a batch sends to each socket: all of it, or one gap naming the first
      survivor and the last twenty. */
  function Burst(batch: seq<BufferedEvent>): seq<Message> {
    if |batch| > OUTBOUND_BURST_CAPACITY then
      var kept := batch[|batch| - OUTBOUND_BURST_CAPACITY..];
      [Gap(kept[0].seqNo)] + LiveMessages(kept)
    else LiveMessages(batch)
  }

  lemma FlushIsBurst(batch: seq<BufferedEvent>)
    ensures FlushMessages(Outbound(LastN(batch, OUTBOUND_BURST_CAPACITY), |batch| > OUTBOUND_BURST_CAPACITY))
            == Burst(batch)
    ensures |batch| > 0 <==> LastN(batch, OUTBOUND_BURST_CAPACITY) != []
  {
  }

  /** The burst cap, for a batch of any size and any set of sockets. */
  lemma BurstCap(r: Relay, events: seq<SseEvent>, ws: SocketId)
    requires Distinct(r.durable.sockets) && Quiet(r.queues)
    ensures var s := ChunkRead(r, events);
            && WireOf(s.durable.wire, ws)
               == WireOf(r.durable.wire, ws)
                  + (if ws in r.durable.sockets then Burst(NumberFrom(r.nextSeq, events)) else [])
            && QueueOf(s.queues, ws) == NOTHING_QUEUED
            && (ws in r.durable.wire ==> ws in s.durable.wire)
            && (ws in s.durable.wire ==> ws in r.durable.wire || ws in r.durable.sockets)
  {
    assert QueueOf(r.queues, ws) == NOTHING_QUEUED;
    FlushIsBurst(NumberFrom(r.nextSeq, events));
    hide Ingested, FlushAll, FlushMessages, Burst, LiveMessages, Distinct, LastN, NumberFrom, Quiet, QueueOf, WireOf;
    IngestedQueue(r, events, ws);
    IngestedFrame(r, events);
    var t := Ingested(r, events);
    FlushAllAt(Outlet(t.durable.wire, t.queues), t.durable.sockets, ws);
  }

  lemma ChunkQuiet(r: Relay, events: seq<SseEvent>)
    requires Distinct(r.durable.sockets) && Quiet(r.queues)
    ensures Quiet(ChunkRead(r, events).queues)
  {
    forall ws | ws in ChunkRead(r, events).queues
      ensures ChunkRead(r, events).queues[ws] == NOTHING_QUEUED
    {
      BurstCap(r, events, ws);
    }
  }

  // ---------------------------------------------------------------- the retained window

  /** The buffer, the counter and the stored rows all describe one history. */
  ghost predicate Retains(r: Relay, h: seq<BufferedEvent>) {
    && IsHistory(h)
    && r.nextSeq == |h| + 1
    && r.buf == LastN(h, REPLAY_CAPACITY)
    && Holds(r.durable.table, h, WindowStart(h))
    && r.durable.nextSeqMeta == if h == [] then None else Some(|h| + 1)
  }

  lemma RetainsCounts(r: Relay, h: seq<BufferedEvent>)
    requires Retains(r, h)
    ensures r.nextSeq == |h| + 1
  {
  }

  lemma {:induction false} EventRetained(r: Relay, evt: SseEvent, h: seq<BufferedEvent>)
    requires Retains(r, h)
    ensures Retains(EventBroadcast(r, evt), h + [Number(r.nextSeq, evt)])
  {
    WriteThrough(r.durable.table, h, Number(r.nextSeq, evt));
    hide EnqueuedForAll, Trim, Insert, Holds;
  }

  lemma {:induction false} NumberAppend(first: nat, a: seq<SseEvent>, b: seq<SseEvent>)
    ensures NumberFrom(first, a + b) == NumberFrom(first, a) + NumberFrom(first + |a|, b)
    decreases |b|
  {
    if b == [] {
      assert a + b == a;
    } else {
      var init := b[..|b| - 1];
      assert (a + b)[..|a + b| - 1] == a + init;
      NumberAppend(first, a, init);
    }
  }

  lemma HistoryAppend(h: seq<BufferedEvent>, first: nat, a: seq<SseEvent>, b: seq<SseEvent>)
    ensures h + NumberFrom(first, a + b) == h + NumberFrom(first, a) + NumberFrom(first + |a|, b)
  {
    NumberAppend(first, a, b);
  }

  lemma {:induction false} OneMoreRetained(r: Relay, events: seq<SseEvent>, h: seq<BufferedEvent>)
    requires events != []
    requires var init := events[..|events| - 1]; Retains(Ingested(r, init), h + NumberFrom(r.nextSeq, init))
    ensures Retains(Ingested(r, events), h + NumberFrom(r.nextSeq, events))
  {
    var init, last := events[..|events| - 1], events[|events| - 1];
    var s := Ingested(r, init);
    IngestedFrame(r, init);
    EventRetained(s, last, h + NumberFrom(r.nextSeq, init));
    HistorySnoc(h, r.nextSeq, events);
    IngestedSnoc(r, events);
    hide *;
  }

  lemma {:induction false} BatchRetained(r: Relay, events: seq<SseEvent>, h: seq<BufferedEvent>)
    requires Retains(r, h)
    ensures Retains(Ingested(r, events), h + NumberFrom(r.nextSeq, events))
    decreases |events|
  {
    if events == [] {
      hide Retains;
      assert h + NumberFrom(r.nextSeq, events) == h;
    } else {
      BatchRetained(r, events[..|events| - 1], h);
      hide *;
      OneMoreRetained(r, events, h);
    }
  }

  lemma HistorySnoc(h: seq<BufferedEvent>, first: nat, events: seq<SseEvent>)
    requires events != []
    ensures var init := events[..|events| - 1];
            h + NumberFrom(first, events)
            == (h + NumberFrom(first, init)) + [Number(first + |init|, events[|events| - 1])]
  {
  }

  lemma {:induction false} ChunkRetained(r: Relay, events: seq<SseEvent>, h: seq<BufferedEvent>)
    requires Retains(r, h)
    ensures Retains(ChunkRead(r, events), h + NumberFrom(r.nextSeq, events))
  {
    BatchRetained(r, events, h);
  }

  /** The history determines everything that is retained. */
  lemma RetainedDetermined(r: Relay, s: Relay, h: seq<BufferedEvent>)
    requires Retains(r, h) && Retains(s, h)
    ensures r.buf == s.buf && r.nextSeq == s.nextSeq
    ensures r.durable.table == s.durable.table && r.durable.nextSeqMeta == s.durable.nextSeqMeta
  {
    assert forall k :: k in r.durable.table <==> k in s.durable.table;
  }

  /** An eviction at any turn boundary loses nothing that was retained. */
  lemma EvictionRestores(r: Relay, h: seq<BufferedEvent>)
    requires Retains(r, h)
    ensures Hydrated(r.durable).buf == r.buf && Hydrated(r.durable).nextSeq == r.nextSeq
    ensures Retains(Hydrated(r.durable), h)
  {
    SelectIsWindow(r.durable.table, h, WindowStart(h));
  }

  // ---------------------------------------------------------------- a connection's text

  /** The batches of events that the chunks of one connection complete. */
  function Batches(p: Parser, chunks: seq<Text>): seq<seq<SseEvent>>
    decreases |chunks|
  {
    if chunks == [] then []
    else
      var parsed := Push(p, chunks[0]);
      [parsed.events] + Batches(parsed.parser, chunks[1..])
  }

  function Flatten(batches: seq<seq<SseEvent>>): seq<SseEvent> {
    if batches == [] then [] else batches[0] + Flatten(batches[1..])
  }

  lemma {:induction false} BatchesFlatten(p: Parser, chunks: seq<Text>)
    ensures Flatten(Batches(p, chunks)) == PushAll(p, chunks).events
    decreases |chunks|
  {
    if chunks != [] {
      var parsed := Push(p, chunks[0]);
      BatchesFlatten(parsed.parser, chunks[1..]);
      assert Batches(p, chunks)[1..] == Batches(parsed.parser, chunks[1..]);
    }
  }

  function BatchesRead(r: Relay, batches: seq<seq<SseEvent>>): Relay
    decreases |batches|
  {
    if batches == [] then r else BatchesRead(ChunkRead(r, batches[0]), batches[1..])
  }

  /** One connection: each chunk of text is parsed and its events broadcast. */
  function ConnectionRead(r: Relay, chunks: seq<Text>): Relay {
    BatchesRead(r, Batches(FRESH_PARSER, chunks))
  }

  lemma ChunkCounts(r: Relay, events: seq<SseEvent>)
    ensures ChunkRead(r, events).nextSeq == r.nextSeq + |events|
  {
    IngestedFrame(r, events);
  }

  lemma {:induction false} BatchesRetained(r: Relay, batches: seq<seq<SseEvent>>, h: seq<BufferedEvent>)
    requires Retains(r, h)
    ensures Retains(BatchesRead(r, batches), h + NumberFrom(r.nextSeq, Flatten(batches)))
    decreases |batches|
  {
    hide Retains, ChunkRead;
    if batches == [] {
      assert h + NumberFrom(r.nextSeq, []) == h;
    } else {
      var first, others := batches[0], batches[1..];
      ChunkRetained(r, first, h);
      ChunkCounts(r, first);
      BatchesRetained(ChunkRead(r, first), others, h + NumberFrom(r.nextSeq, first));
      HistoryAppend(h, r.nextSeq, first, Flatten(others));
    }
  }

  /** What a connection leaves behind depends on its text alone, not on where
      the text was cut, off the parser's trap. */
  lemma {:induction false} ChunkingInvisible(r: Relay, h: seq<BufferedEvent>, cs: seq<Text>, ds: seq<Text>)
    requires Retains(r, h)
    requires Concat(cs) == Concat(ds) && !LfAfterLoneCr(Concat(cs))
    ensures var s, t := ConnectionRead(r, cs), ConnectionRead(r, ds);
            && s.buf == t.buf && s.nextSeq == t.nextSeq
            && s.durable.table == t.durable.table && s.durable.nextSeqMeta == t.durable.nextSeqMeta
  {
    ConnectionRetains(r, h, cs);
    ConnectionRetains(r, h, ds);
    RetainedDetermined(ConnectionRead(r, cs), ConnectionRead(r, ds),
                       h + NumberFrom(r.nextSeq, ParsedText(Concat(cs)).events));
  }

  /** A connection appends to the history exactly the events of its text. */
  lemma ConnectionRetains(r: Relay, h: seq<BufferedEvent>, chunks: seq<Text>)
    requires Retains(r, h) && !LfAfterLoneCr(Concat(chunks))
    ensures Retains(ConnectionRead(r, chunks), h + NumberFrom(r.nextSeq, ParsedText(Concat(chunks)).events))
  {
    EventsDependOnTextOnly(chunks);
    BatchesFlatten(FRESH_PARSER, chunks);
    BatchesRetained(r, Batches(FRESH_PARSER, chunks), h);
  }
}

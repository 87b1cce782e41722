/** One feed's relay object: its turns as functions on its state, and the object
    whose methods carry them out. */
module FeedRelay {
  import opened Options
  import opened SseFraming
  import opened Protocol
  import opened ReplayStore

  const OUTBOUND_BURST_CAPACITY: nat := 20

  type SocketId = nat

  datatype Outbound = Outbound(queue: seq<BufferedEvent>, pendingGap: bool)

  const NOTHING_QUEUED := Outbound([], false)

  datatype LogEntry =
    | EventLogged(seqNo: nat)
    | EvictionGapLogged(seqNo: nat)
    | DropGapLogged(seqNo: nat)
    | ReconnectLogged

  /** What survives an eviction: storage, the alarm, the accepted sockets with
      everything sent to each of them so far, and the delivery log. */
  datatype Durable = Durable(
    table: Table,
    nextSeqMeta: Option<nat>,
    alarmSet: bool,
    sockets: seq<SocketId>,
    wire: map<SocketId, seq<Message>>,
    log: seq<LogEntry>)

  datatype Relay = Relay(
    buf: seq<BufferedEvent>,
    nextSeq: nat,
    upstreamStarted: bool,
    readerLive: bool,
    intentionalTeardown: bool,
    outageSignaled: bool,
    queues: map<SocketId, Outbound>,
    durable: Durable)

  // ---------------------------------------------------------------- turns as functions

  function WireOf(wire: map<SocketId, seq<Message>>, ws: SocketId): seq<Message> {
    if ws in wire then wire[ws] else []
  }

  function QueueOf(queues: map<SocketId, Outbound>, ws: SocketId): Outbound {
    if ws in queues then queues[ws] else NOTHING_QUEUED
  }

  function SendTo(wire: map<SocketId, seq<Message>>, ws: SocketId, m: Message): map<SocketId, seq<Message>> {
    wire[ws := WireOf(wire, ws) + [m]]
  }

  /** One message to each of the given sockets, in order. */
  function SendToAll(
    wire: map<SocketId, seq<Message>>, sockets: seq<SocketId>, m: Message): map<SocketId, seq<Message>>
  {
    if sockets == [] then wire
    else SendTo(SendToAll(wire, sockets[..|sockets| - 1], m), sockets[|sockets| - 1], m)
  }

  /** A fresh object on what survived. */
  function Hydrated(d: Durable): Relay {
    Relay(SelectBySeq(d.table), if d.nextSeqMeta.Some? then d.nextSeqMeta.value else 1,
          false, false, false, false, map[], d)
  }

  function Greeted(r: Relay, ws: SocketId, lastSeen: nat): Relay {
    var m := Greeting(r.buf, lastSeen);
    r.(durable := r.durable.(
         wire := SendTo(r.durable.wire, ws, m),
         log := if m.Gap? then r.durable.log + [EvictionGapLogged(m.oldestAvailableSeq)] else r.durable.log))
  }

  /** A subscriber is accepted, an idle alarm is dropped, the upstream loop is
      started unless one is believed to run, and the subscriber is answered. */
  function Connected(r: Relay, ws: SocketId, lastSeen: nat): Relay {
    var d := r.durable.(sockets := r.durable.sockets + [ws], alarmSet := false);
    Greeted(r.(durable := d, upstreamStarted := true), ws, lastSeen)
  }

  function Enqueued(q: Outbound, e: BufferedEvent): Outbound {
    if |q.queue| + 1 > OUTBOUND_BURST_CAPACITY then Outbound((q.queue + [e])[1..], true)
    else Outbound(q.queue + [e], q.pendingGap)
  }

  function EnqueueFor(queues: map<SocketId, Outbound>, ws: SocketId, e: BufferedEvent): map<SocketId, Outbound> {
    queues[ws := Enqueued(QueueOf(queues, ws), e)]
  }

  function EnqueuedForAll(
    queues: map<SocketId, Outbound>, sockets: seq<SocketId>, e: BufferedEvent): map<SocketId, Outbound>
  {
    if sockets == [] then queues
    else EnqueueFor(EnqueuedForAll(queues, sockets[..|sockets| - 1], e), sockets[|sockets| - 1], e)
  }

  function Buffered(buf: seq<BufferedEvent>, e: BufferedEvent): seq<BufferedEvent> {
    if |buf| + 1 > REPLAY_CAPACITY then (buf + [e])[1..] else buf + [e]
  }

  function Appended(r: Relay, e: BufferedEvent): Relay {
    r.(nextSeq := r.nextSeq + 1,
       buf := Buffered(r.buf, e),
       durable := r.durable.(log := r.durable.log + [EventLogged(e.seqNo)]))
  }

  function WrittenThrough(r: Relay, e: BufferedEvent): Relay {
    r.(durable := r.durable.(table := Trim(Insert(r.durable.table, e)), nextSeqMeta := Some(r.nextSeq)))
  }

  function QueuedEverywhere(r: Relay, e: BufferedEvent): Relay {
    r.(queues := EnqueuedForAll(r.queues, r.durable.sockets, e))
  }

  function EventBroadcast(r: Relay, evt: SseEvent): Relay {
    var e := Number(r.nextSeq, evt);
    QueuedEverywhere(WrittenThrough(Appended(r, e), e), e)
  }

  function LiveMessages(events: seq<BufferedEvent>): (r: seq<Message>)
    ensures |r| == |events|
  {
    if events == [] then [] else [Live(events[0])] + LiveMessages(events[1..])
  }

  /** Several messages to one socket, in order. */
  function SendEach(
    wire: map<SocketId, seq<Message>>, ws: SocketId, messages: seq<Message>): map<SocketId, seq<Message>>
    decreases |messages|
  {
    if messages == [] then wire
    else SendEach(SendTo(wire, ws, messages[0]), ws, messages[1..])
  }

  lemma NothingToSend(wire: map<SocketId, seq<Message>>, ws: SocketId)
    ensures SendEach(wire, ws, LiveMessages([])) == wire
  {
  }

  lemma SendEachHead(wire: map<SocketId, seq<Message>>, ws: SocketId, m: Message, more: seq<Message>)
    ensures SendEach(wire, ws, [m] + more) == SendEach(SendTo(wire, ws, m), ws, more)
  {
    assert ([m] + more)[1..] == more;
  }

  lemma LiveMessagesHead(events: seq<BufferedEvent>, i: nat)
    requires i < |events|
    ensures LiveMessages(events[i..]) == [Live(events[i])] + LiveMessages(events[i + 1..])
  {
    assert events[i..][1..] == events[i + 1..];
  }

  lemma {:induction false} SendEachAll(wire: map<SocketId, seq<Message>>, ws: SocketId, messages: seq<Message>)
    ensures messages != [] ==> SendEach(wire, ws, messages) == wire[ws := WireOf(wire, ws) + messages]
    decreases |messages|
  {
    if messages != [] {
      var m, more := messages[0], messages[1..];
      assert [m] + more == messages;
      SendEachAll(SendTo(wire, ws, m), ws, more);
      assert WireOf(wire, ws) + messages == (WireOf(wire, ws) + [m]) + more;
      assert more == [] ==> messages == [m];
      assert wire[ws := WireOf(wire, ws) + [m]][ws := WireOf(wire, ws) + messages]
             == wire[ws := WireOf(wire, ws) + messages];
    }
  }

  /** What a flush sends to one socket. */
  function FlushMessages(q: Outbound): seq<Message> {
    if q.queue == [] then []
    else if q.pendingGap then [Gap(q.queue[0].seqNo)] + LiveMessages(q.queue)
    else LiveMessages(q.queue)
  }

  predicate HasQueued(queues: map<SocketId, Outbound>, ws: SocketId) {
    ws in queues && queues[ws].queue != []
  }

  /** What has been sent to whom, and what is queued for whom. */
  datatype Outlet = Outlet(wire: map<SocketId, seq<Message>>, queues: map<SocketId, Outbound>)

  function FlushOne(o: Outlet, ws: SocketId): Outlet {
    if HasQueued(o.queues, ws) then
      Outlet(o.wire[ws := WireOf(o.wire, ws) + FlushMessages(o.queues[ws])], o.queues[ws := NOTHING_QUEUED])
    else o
  }

  function FlushAll(o: Outlet, sockets: seq<SocketId>): Outlet {
    if sockets == [] then o else FlushOne(FlushAll(o, sockets[..|sockets| - 1]), sockets[|sockets| - 1])
  }

  function Flushed(r: Relay): Relay {
    var o := FlushAll(Outlet(r.durable.wire, r.queues), r.durable.sockets);
    r.(queues := o.queues, durable := r.durable.(wire := o.wire))
  }

  function Ingested(r: Relay, events: seq<SseEvent>): Relay
    decreases |events|
  {
    if events == [] then r
    else EventBroadcast(Ingested(r, events[..|events| - 1]), events[|events| - 1])
  }

  /** One chunk of the upstream body: its events, then one flush. */
  function ChunkRead(r: Relay, events: seq<SseEvent>): Relay {
    Flushed(Ingested(r, events))
  }

  function Established(r: Relay): Relay {
    if r.outageSignaled then
      r.(outageSignaled := false, readerLive := true,
         durable := r.durable.(log := r.durable.log + [ReconnectLogged]))
    else r.(readerLive := true)
  }

  function ReadEnded(r: Relay): Relay {
    r.(readerLive := false, intentionalTeardown := false)
  }

  function GapBroadcast(r: Relay): Relay {
    r.(durable := r.durable.(wire := SendToAll(r.durable.wire, r.durable.sockets, Gap(r.nextSeq))))
  }

  function OutageSignaled(r: Relay): Relay {
    if r.outageSignaled then r
    else
      var g := GapBroadcast(r);
      g.(outageSignaled := true, durable := g.durable.(log := g.durable.log + [DropGapLogged(r.nextSeq)]))
  }

  function Stopped(r: Relay): Relay {
    r.(upstreamStarted := false, outageSignaled := false)
  }

  /** What the retry loop does when a connection attempt comes back. */
  function AttemptReturned(r: Relay, intentional: bool): Relay {
    if intentional then Stopped(r)
    else
      var s := OutageSignaled(r);
      if s.durable.sockets == [] then Stopped(s) else s
  }

  /** Whether the loop goes on to its backoff. */
  predicate RetriesAfter(r: Relay, intentional: bool) {
    !intentional && r.durable.sockets != []
  }

  function Without(sockets: seq<SocketId>, ws: SocketId): (r: seq<SocketId>)
    ensures forall s :: s in r <==> s in sockets && s != ws
    ensures Distinct(sockets) ==> Distinct(r)
  {
    if sockets == [] then []
    else if sockets[0] == ws then Without(sockets[1..], ws)
    else
      var others := Without(sockets[1..], ws);
      assert Distinct(sockets) ==> sockets[0] !in sockets[1..];
      [sockets[0]] + others
  }

  predicate Distinct(sockets: seq<SocketId>) {
    forall i, j :: 0 <= i < j < |sockets| ==> sockets[i] != sockets[j]
  }

  function Closed(r: Relay, ws: SocketId): Relay {
    var remaining := Without(r.durable.sockets, ws);
    r.(durable := r.durable.(
         sockets := remaining,
         alarmSet := r.durable.alarmSet || (remaining == [] && r.upstreamStarted)))
  }

  /** The idle alarm goes off: with nobody left, the flag is set whether or not
      there is a reader to cancel. */
  function AlarmFired(r: Relay): Relay {
    r.(intentionalTeardown := r.intentionalTeardown || r.durable.sockets == [],
       durable := r.durable.(alarmSet := false))
  }

  // ---------------------------------------------------------------- the object

  class FeedRelay {
    var buf: seq<BufferedEvent>
    var nextSeq: nat
    var upstreamStarted: bool
    var readerLive: bool // whether upstreamReader is set
    var intentionalTeardown: bool
    var outageSignaled: bool
    var outboundQueues: map<SocketId, Outbound>
    // The platform's side: storage, alarm, sockets and the log database.
    var table: Table
    var nextSeqMeta: Option<nat>
    var alarmSet: bool
    var sockets: seq<SocketId>
    var wire: map<SocketId, seq<Message>>
    var log: seq<LogEntry>

    function DurableState(): Durable
      reads this
    {
      Durable(table, nextSeqMeta, alarmSet, sockets, wire, log)
    }

    function State(): Relay
      reads this
    {
      Relay(buf, nextSeq, upstreamStarted, readerLive, intentionalTeardown, outageSignaled, outboundQueues,
            DurableState())
    }

    constructor (d: Durable)
      ensures State() == Hydrated(d)
    {
      table, nextSeqMeta, alarmSet, sockets, wire, log := d.table, d.nextSeqMeta, d.alarmSet, d.sockets, d.wire, d.log;
      buf := SelectBySeq(d.table);
      nextSeq := if d.nextSeqMeta.Some? then d.nextSeqMeta.value else 1;
      upstreamStarted, readerLive, intentionalTeardown, outageSignaled := false, false, false, false;
      outboundQueues := map[];
    }

    method Send(ws: SocketId, m: Message)
      modifies this`wire
      ensures wire == SendTo(old(wire), ws, m)
    {
      wire := SendTo(wire, ws, m);
    }

    method SendReplay(ws: SocketId, lastSeen: nat)
      modifies this`wire, this`log
      ensures State() == Greeted(old(State()), ws, lastSeen)
    {
      if buf != [] && lastSeen + 1 < buf[0].seqNo {
        var oldest := buf[0].seqNo;
        Send(ws, Gap(oldest));
        log := log + [EvictionGapLogged(oldest)];
        return;
      }
      Send(ws, Replay(Newer(buf, lastSeen)));
    }

    /** A subscribe request, from the accepted socket to the answer. */
    method Fetch(ws: SocketId, lastSeen: nat) returns (startsLoop: bool)
      modifies this
      ensures startsLoop == !old(upstreamStarted)
      ensures State() == Connected(old(State()), ws, lastSeen)
    {
      sockets := sockets + [ws];
      alarmSet := false;
      startsLoop := !upstreamStarted;
      if !upstreamStarted {
        upstreamStarted := true;
      }
      SendReplay(ws, lastSeen);
    }

    method BroadcastGap()
      modifies this`wire
      ensures State() == GapBroadcast(old(State()))
    {
      var m := Gap(nextSeq);
      for i := 0 to |sockets|
        invariant wire == SendToAll(old(wire), sockets[..i], m)
      {
        assert sockets[..i + 1][..i] == sockets[..i];
        Send(sockets[i], m);
      }
      assert sockets[..|sockets|] == sockets;
    }

    method BroadcastEvent(evt: SseEvent)
      modifies this`nextSeq, this`buf, this`outboundQueues, this`table, this`nextSeqMeta, this`log
      ensures State() == EventBroadcast(old(State()), evt)
    {
      var buffered := Number(nextSeq, evt);
      Append(buffered);
      WriteThrough(buffered);
      QueueForAll(buffered);
    }

    method Append(buffered: BufferedEvent)
      modifies this`nextSeq, this`buf, this`log
      ensures State() == Appended(old(State()), buffered)
    {
      nextSeq := nextSeq + 1;
      buf := buf + [buffered];
      if |buf| > REPLAY_CAPACITY {
        buf := buf[1..];
      }
      log := log + [EventLogged(buffered.seqNo)];
    }

    method WriteThrough(buffered: BufferedEvent)
      modifies this`table, this`nextSeqMeta
      ensures State() == WrittenThrough(old(State()), buffered)
    {
      table := Insert(table, buffered);
      table := Trim(table);
      nextSeqMeta := Some(nextSeq);
    }

    /** Queues an event for every socket, dropping a full queue's oldest. */
    method QueueForAll(buffered: BufferedEvent)
      modifies this`outboundQueues
      ensures State() == QueuedEverywhere(old(State()), buffered)
    {
      for i := 0 to |sockets|
        invariant outboundQueues == EnqueuedForAll(old(outboundQueues), sockets[..i], buffered)
      {
        var ws := sockets[i];
        assert sockets[..i + 1][..i] == sockets[..i];
        var state := QueueOf(outboundQueues, ws);
        state := state.(queue := state.queue + [buffered]);
        if |state.queue| > OUTBOUND_BURST_CAPACITY {
          state := Outbound(state.queue[1..], true);
        }
        outboundQueues := outboundQueues[ws := state];
      }
      assert sockets[..|sockets|] == sockets;
    }

    /** Sends what one socket's queue holds: the gap it owes, then its events. */
    method SendOutbound(ws: SocketId, state: Outbound)
      requires state.queue != []
      modifies this`wire
      ensures wire == old(wire)[ws := WireOf(old(wire), ws) + FlushMessages(state)]
    {
      ghost var messages := FlushMessages(state);
      SendEachAll(wire, ws, messages);
      ghost var live := LiveMessages(state.queue);
      if state.pendingGap {
        SendEachHead(wire, ws, Gap(state.queue[0].seqNo), live);
        Send(ws, Gap(state.queue[0].seqNo));
      }
      assert SendEach(wire, ws, live) == SendEach(old(wire), ws, messages);
      hide *;
      for i := 0 to |state.queue|
        invariant SendEach(wire, ws, LiveMessages(state.queue[i..])) == SendEach(old(wire), ws, messages)
      {
        LiveMessagesHead(state.queue, i);
        SendEachHead(wire, ws, Live(state.queue[i]), LiveMessages(state.queue[i + 1..]));
        Send(ws, Live(state.queue[i]));
      }
      assert state.queue[|state.queue|..] == [];
      NothingToSend(wire, ws);
    }

    method FlushOutboundQueues()
      modifies this`wire, this`outboundQueues
      ensures State() == Flushed(old(State()))
    {
      for i := 0 to |sockets|
        invariant Outlet(wire, outboundQueues) == FlushAll(Outlet(old(wire), old(outboundQueues)), sockets[..i])
      {
        var ws := sockets[i];
        assert sockets[..i + 1][..i] == sockets[..i];
        if ws in outboundQueues && outboundQueues[ws].queue != [] {
          SendOutbound(ws, outboundQueues[ws]);
          outboundQueues := outboundQueues[ws := NOTHING_QUEUED];
        }
      }
      assert sockets[..|sockets|] == sockets;
    }

    /** One read of the upstream body, with the events its text completed. */
    method ReadChunk(events: seq<SseEvent>)
      modifies this
      ensures State() == ChunkRead(old(State()), events)
    {
      for i := 0 to |events|
        invariant State() == Ingested(old(State()), events[..i])
      {
        assert events[..i + 1][..i] == events[..i];
        BroadcastEvent(events[i]);
      }
      assert events[..|events|] == events;
      FlushOutboundQueues();
    }

    method ConnectionEstablished()
      modifies this`outageSignaled, this`log, this`readerLive
      ensures State() == Established(old(State()))
    {
      if outageSignaled {
        log := log + [ReconnectLogged];
        outageSignaled := false;
      }
      readerLive := true;
    }

    method ReadLoopEnded() returns (intentional: bool)
      modifies this`readerLive, this`intentionalTeardown
      ensures intentional == old(intentionalTeardown)
      ensures State() == ReadEnded(old(State()))
    {
      readerLive := false;
      intentional := false;
      if intentionalTeardown {
        intentionalTeardown := false;
        intentional := true;
      }
    }

    method AfterAttempt(intentional: bool) returns (retries: bool)
      modifies this`upstreamStarted, this`outageSignaled, this`wire, this`log
      ensures retries == RetriesAfter(old(State()), intentional)
      ensures State() == AttemptReturned(old(State()), intentional)
    {
      if intentional {
        upstreamStarted := false;
        outageSignaled := false;
        return false;
      }
      if !outageSignaled {
        BroadcastGap();
        log := log + [DropGapLogged(nextSeq)];
        outageSignaled := true;
      }
      if |sockets| == 0 {
        upstreamStarted := false;
        outageSignaled := false;
        return false;
      }
      return true;
    }

    method WebSocketClose(ws: SocketId)
      modifies this`sockets, this`alarmSet
      ensures State() == Closed(old(State()), ws)
    {
      // The closing socket is still listed while the handler runs.
      var remaining := |Without(sockets, ws)|;
      if remaining == 0 && upstreamStarted {
        alarmSet := true;
      }
      sockets := Without(sockets, ws);
    }

    method Alarm() returns (cancelsReader: bool)
      modifies this`intentionalTeardown, this`alarmSet
      ensures cancelsReader == (sockets == [] && readerLive)
      ensures State() == AlarmFired(old(State()))
    {
      alarmSet := false;
      cancelsReader := false;
      if |sockets| == 0 {
        intentionalTeardown := true;
        cancelsReader := readerLive;
      }
    }
  }
}

/** Which gaps the delivery log tells of: what every step sends against what it
    logs. */
module GapAudit {
  import opened SseFraming
  import opened Protocol
  import opened ReplayStore
  import opened FeedRelay
  import opened RelayTurns
  import opened RelayRuns
  import opened RelayStreams
  import opened RelaySafety
  import opened RelayDrops
  import opened RelayAbandoned

  // ---------------------------------------------------------------- what a step logs

  function EventEntries(first: nat, events: seq<SseEvent>): seq<LogEntry> {
    if events == [] then []
    else
      var n := |events| - 1;
      EventEntries(first, events[..n]) + [EventLogged(first + n)]
  }

  function LoggedBy(sys: System, step: Step): seq<LogEntry>
    requires Enabled(sys, step)
  {
    if step.Subscribe? && Greeting(sys.relay.buf, step.lastSeen).Gap? then
      [EvictionGapLogged(Greeting(sys.relay.buf, step.lastSeen).oldestAvailableSeq)]
    else if step.Chunk? then EventEntries(sys.relay.nextSeq, step.events)
    else if AnnouncesDrop(sys, step) then [DropGapLogged(sys.relay.nextSeq)]
    else if (step.FetchSucceeded? || step.ThrewAfterSuccess?) && sys.relay.outageSignaled then [ReconnectLogged]
    else []
  }

  lemma {:induction false} IngestedEntries(r: Relay, events: seq<SseEvent>)
    ensures Ingested(r, events).durable.log == r.durable.log + EventEntries(r.nextSeq, events)
    decreases |events|
  {
    if events == [] {
      assert r.durable.log + [] == r.durable.log;
    } else {
      var n := |events| - 1;
      IngestedEntries(r, events[..n]);
      IngestedFrame(r, events[..n]);
      BroadcastLog(Ingested(r, events[..n]), events[n]);
      IngestedSnoc(r, events);
      hide EventBroadcast, Ingested;
    }
  }

  lemma ConnectedEntries(r: Relay, ws: SocketId, lastSeen: nat)
    ensures var m := Greeting(r.buf, lastSeen);
            Connected(r, ws, lastSeen).durable.log
            == r.durable.log + (if m.Gap? then [EvictionGapLogged(m.oldestAvailableSeq)] else [])
  {
    hide Greeting, SendTo;
  }

  lemma AttemptEntries(r: Relay, intentional: bool)
    ensures AttemptReturned(r, intentional).durable.log
            == r.durable.log + (if !intentional && !r.outageSignaled then [DropGapLogged(r.nextSeq)] else [])
  {
    hide SendToAll;
  }

  /** Exactly what every step appends to the delivery log. */
  lemma StepEntries(sys: System, step: Step)
    requires Enabled(sys, step)
    ensures Next(sys, step).relay.durable.log == sys.relay.durable.log + LoggedBy(sys, step)
  {
    assert sys.relay.durable.log + [] == sys.relay.durable.log;
    if step.Chunk? {
      IngestedEntries(sys.relay, step.events);
      hide Ingested, EventEntries, FlushAll;
    } else if step.Subscribe? {
      ConnectedEntries(sys.relay, step.ws, step.lastSeen);
      hide Connected, Greeting;
    } else if step.AttemptHandled? {
      AttemptEntries(sys.relay, sys.loops[step.i].intentional);
      hide AttemptReturned, Logged;
    } else {
      hide ChunkRead, Connected, AttemptReturned, Logged, CancelReads, SelectBySeq, Without, LoopIs;
    }
  }

  // ---------------------------------------------------------------- gaps sent and gaps logged

  predicate Tells(entries: seq<LogEntry>, k: nat) {
    EvictionGapLogged(k) in entries || DropGapLogged(k) in entries
  }

  /** Every gap a step sends to anybody is in what it logs. */
  ghost predicate Audited(sys: System, step: Step)
    requires Enabled(sys, step)
  {
    forall ws, k :: Gap(k) in SentBy(sys, step, ws) ==> Tells(LoggedBy(sys, step), k)
  }

  /** A chunk too big for the queues is read while somebody listens. */
  predicate Overflows(sys: System, step: Step) {
    step.Chunk? && |step.events| > OUTBOUND_BURST_CAPACITY && sys.relay.durable.sockets != []
  }

  lemma {:induction false} EntriesTellNoGap(first: nat, events: seq<SseEvent>, k: nat)
    ensures !Tells(EventEntries(first, events), k)
    decreases |events|
  {
    if events != [] {
      EntriesTellNoGap(first, events[..|events| - 1], k);
    }
  }

  lemma {:induction false} LivesHaveNoGap(events: seq<BufferedEvent>, k: nat)
    ensures Gap(k) !in LiveMessages(events)
  {
    if events != [] {
      LivesHaveNoGap(events[1..], k);
    }
  }

  lemma BurstHasGap(batch: seq<BufferedEvent>)
    requires |batch| > OUTBOUND_BURST_CAPACITY
    ensures Gap(batch[|batch| - OUTBOUND_BURST_CAPACITY].seqNo) == Burst(batch)[0]
  {
    hide LiveMessages;
  }

  lemma ChunkAudited(sys: System, step: Step)
    requires Enabled(sys, step) && step.Chunk?
    ensures Audited(sys, step) <==> !Overflows(sys, step)
  {
    var batch := NumberFrom(sys.relay.nextSeq, step.events);
    var sockets := sys.relay.durable.sockets;
    if Overflows(sys, step) {
      var ws := sockets[0];
      BurstHasGap(batch);
      EntriesTellNoGap(sys.relay.nextSeq, step.events, batch[|batch| - OUTBOUND_BURST_CAPACITY].seqNo);
      hide Enabled, Burst, EventEntries, Tells, NumberFrom;
      assert Gap(batch[|batch| - OUTBOUND_BURST_CAPACITY].seqNo) in SentBy(sys, step, ws);
    } else {
      forall ws, k ensures Gap(k) !in SentBy(sys, step, ws) {
        LivesHaveNoGap(batch, k);
      }
    }
  }

  lemma OtherAudited(sys: System, step: Step)
    requires Enabled(sys, step) && !step.Chunk?
    ensures Audited(sys, step)
  {
    hide Enabled, Greeting;
  }

  /** Some chunk of a run overflowed. */
  ghost predicate Overflowed(steps: seq<Step>)
    requires IsRun(steps)
    decreases |steps|
  {
    steps != []
    && (Overflowed(steps[..|steps| - 1]) || Overflows(After(steps[..|steps| - 1]), steps[|steps| - 1]))
  }

  /** At every step of a run, every gap sent is logged. */
  ghost predicate AuditComplete(steps: seq<Step>)
    requires IsRun(steps)
    decreases |steps|
  {
    steps == []
    || (AuditComplete(steps[..|steps| - 1]) && Audited(After(steps[..|steps| - 1]), steps[|steps| - 1]))
  }

  /** Every gap sent has its log entry if and only if no chunk of more than
      twenty events was read while somebody listened. */
  lemma {:induction false} AuditCompleteExactly(steps: seq<Step>)
    requires IsRun(steps)
    ensures AuditComplete(steps) <==> !Overflowed(steps)
    decreases |steps|
  {
    if steps != [] {
      var before, last := steps[..|steps| - 1], steps[|steps| - 1];
      AuditCompleteExactly(before);
      hide Next, Enabled, Audited, Overflows;
      if last.Chunk? {
        ChunkAudited(After(before), last);
      } else {
        OtherAudited(After(before), last);
        NoOverflow(After(before), last);
      }
    }
  }

  lemma NoOverflow(sys: System, step: Step)
    requires !step.Chunk?
    ensures !Overflows(sys, step)
  {
  }

  // ---------------------------------------------------------------- a gap the log does not tell of

  predicate TellsNoGap(entries: seq<LogEntry>) {
    forall e :: e in entries ==> !e.EvictionGapLogged? && !e.DropGapLogged?
  }

  lemma {:induction false} EventEntriesTellNoGap(first: nat, events: seq<SseEvent>)
    ensures TellsNoGap(EventEntries(first, events))
    decreases |events|
  {
    if events != [] {
      EventEntriesTellNoGap(first, events[..|events| - 1]);
    }
  }

  /** A batch of one more than the queues hold. */
  function Blanks(n: nat): (events: seq<SseEvent>)
    ensures |events| == n
  {
    if n == 0 then [] else Blanks(n - 1) + [BLANK]
  }

  const FLOOD: Step := Chunk(0, Blanks(21))

  /** One socket, one chunk of twenty-one events: the socket has been sent a gap,
      and no gap at all is in the log. */
  lemma FloodUnaudited()
    ensures IsRun(READING + [FLOOD])
    ensures var sys := After(READING + [FLOOD]);
            && |Wire(sys, 0)| > 1 && Wire(sys, 0)[1] == Gap(2)
            && TellsNoGap(sys.relay.durable.log)
  {
    ReadingIsRun();
    SocketsInRun(READING);
    FloodMeets(After(READING));
    RunSnoc(READING, FLOOD);
    hide *;
    FloodSends(After(READING));
    FloodLogs(After(READING));
  }

  lemma FloodMeets(sys: System)
    ensures sys.loops == [Reading(false)] ==> Enabled(sys, FLOOD)
  {
    hide Blanks;
  }

  lemma FloodLogs(sys: System)
    requires Enabled(sys, FLOOD) && sys.relay.durable.log == []
    ensures TellsNoGap(Next(sys, FLOOD).relay.durable.log)
  {
    EventEntriesTellNoGap(sys.relay.nextSeq, FLOOD.events);
    StepEntries(sys, FLOOD);
    hide Next, Enabled, EventEntries, Blanks;
  }

  lemma FloodSends(sys: System)
    requires SocketsInOrder(sys) && Enabled(sys, FLOOD) && 0 in sys.relay.durable.sockets
    requires sys.relay.nextSeq == 1 && Wire(sys, 0) == [Replay([])]
    ensures |Wire(Next(sys, FLOOD), 0)| > 1 && Wire(Next(sys, FLOOD), 0)[1] == Gap(2)
  {
    var batch := NumberFrom(1, FLOOD.events);
    StepSends(sys, FLOOD, 0);
    BurstHasGap(batch);
    NumberedAt(1, FLOOD.events, 1);
    hide Next, Burst, NumberFrom, Distinct, Quiet, Wire, Blanks;
  }

  lemma {:induction false} NumberedAt(first: nat, events: seq<SseEvent>, i: nat)
    requires i < |events|
    ensures NumberFrom(first, events)[i] == Number(first + i, events[i])
    decreases |events|
  {
    if i < |events| - 1 {
      NumberedAt(first, events[..|events| - 1], i);
    }
  }
}

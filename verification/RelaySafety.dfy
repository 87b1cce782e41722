/** What holds of the relay over every run: one loop, told outages, one window,
    streams in step, and what the teardown flag means. */
module RelaySafety {
  import opened SseFraming
  import opened Protocol
  import opened ReplayStore
  import opened FeedRelay
  import opened RelayTurns
  import opened RelayRuns
  import opened RelayStreams
  import RingBuffer

  // ---------------------------------------------------------------- one loop, told outages, one window

  /** There is never a second upstream loop, and the flag says whether there is one. */
  lemma {:induction false} OneUpstreamLoop(steps: seq<Step>)
    requires IsRun(steps)
    ensures var sys := After(steps);
            && |sys.loops| <= 1
            && (sys.relay.upstreamStarted <==> |sys.loops| == 1)
            && (sys.relay.readerLive <==> |sys.loops| == 1 && sys.loops[0].Reading?)
  {
    InvAlways(steps);
  }

  /** The delivery log splits into one stretch per loop, each a sequence of
      drop and recovery in turn, starting with a drop. */
  lemma {:induction false} OutagesToldOnce(steps: seq<Step>)
    requires IsRun(steps)
    ensures var sys := After(steps);
            && Outages(sys.relay.durable.log) == Joined(sys.lifetimes)
            && (forall k :: 0 <= k < |sys.lifetimes| ==> Alternates(sys.lifetimes[k]))
            && (sys.loops == [] ==> !sys.relay.outageSignaled)
  {
    InvAlways(steps);
  }

  /** The buffer, the stored rows and the counter always describe the last
      events numbered, so that an eviction at any moment restores them. */
  lemma WindowAlways(steps: seq<Step>)
    requires IsRun(steps)
    ensures var sys := After(steps);
            && IsHistory(sys.history) && sys.relay.nextSeq == |sys.history| + 1
            && sys.relay.buf == LastN(sys.history, REPLAY_CAPACITY)
            && SelectBySeq(sys.relay.durable.table) == sys.relay.buf
            && Hydrated(sys.relay.durable).buf == sys.relay.buf
            && Hydrated(sys.relay.durable).nextSeq == sys.relay.nextSeq
  {
    InvAlways(steps);
    EvictionRestores(After(steps).relay, After(steps).history);
  }

  /** The upstream events of a run, in order. */
  ghost function EventsOf(steps: seq<Step>): seq<SseEvent> {
    if steps == [] then []
    else
      var before, last := EventsOf(steps[..|steps| - 1]), steps[|steps| - 1];
      if last.Chunk? then before + last.events else before
  }

  lemma EventsSnoc(steps: seq<Step>, step: Step)
    ensures EventsOf(steps + [step]) == EventsOf(steps) + (if step.Chunk? then step.events else [])
  {
    assert (steps + [step])[..|steps|] == steps;
  }

  lemma StepNumbers(sys: System, step: Step, events: seq<SseEvent>)
    requires Enabled(sys, step) && sys.relay.nextSeq == |sys.history| + 1 && sys.history == NumberFrom(1, events)
    ensures Next(sys, step).history == NumberFrom(1, events + (if step.Chunk? then step.events else []))
  {
    StepRecords(sys, step);
    if step.Chunk? { NumberAppend(1, events, step.events); }
    assert events + [] == events;
    hide Next, Enabled;
  }

  /** The history is those events, numbered from one. */
  lemma {:induction false} HistoryIsEvents(steps: seq<Step>)
    requires IsRun(steps)
    ensures After(steps).history == NumberFrom(1, EventsOf(steps))
    decreases |steps|
  {
    if steps != [] {
      var before, last := steps[..|steps| - 1], steps[|steps| - 1];
      assert steps == before + [last];
      hide After, IsRun, Next, Enabled, EventsOf, NumberFrom;
      RunPrefix(before, last);
      HistoryIsEvents(before);
      WindowAlways(before);
      StepNumbers(After(before), last, EventsOf(before));
      EventsSnoc(before, last);
    }
  }

  lemma {:induction false} NumberedFields(first: nat, events: seq<SseEvent>, i: nat)
    requires i < |events|
    ensures var e, r := events[i], NumberFrom(first, events)[i];
            r.seqNo == first + i && r.upstreamId == e.id && r.event == e.event && r.data == e.data
    decreases |events|
  {
    if i < |events| - 1 {
      NumberedFields(first, events[..|events| - 1], i);
    }
  }

  /** The i-th upstream event of a run is kept under seq i + 1 with the id, name and
      data it came with. */
  lemma KeptAsItCame(steps: seq<Step>, i: nat)
    requires IsRun(steps) && i < |EventsOf(steps)|
    ensures i < |After(steps).history|
    ensures var e, kept := EventsOf(steps)[i], After(steps).history[i];
            kept.seqNo == i + 1 && kept.upstreamId == e.id && kept.event == e.event && kept.data == e.data
  {
    HistoryIsEvents(steps);
    NumberedFields(1, EventsOf(steps), i);
    hide After, IsRun, EventsOf, NumberFrom;
  }

  /** The reference buffer, pushed the events of a run one by one, ends up with
      the relay's contents and counter, although it evicts before it pushes and
      the relay after. */
  method ReferenceBuffer(ghost steps: seq<Step>, events: seq<SseEvent>) returns (ring: RingBuffer.RingBuffer)
    requires IsRun(steps) && events == EventsOf(steps)
    ensures ring.buf == After(steps).relay.buf && ring.nextSeq == After(steps).relay.nextSeq
  {
    WindowAlways(steps);
    HistoryIsEvents(steps);
    hide After, IsRun, LastN, Hydrated, SelectBySeq, EventsOf, IsHistory;
    ring := RingBuffer.PushedThrough(REPLAY_CAPACITY, events);
  }

  // ---------------------------------------------------------------- streams

  /** Every socket is first answered out of the window of the moment it
      connected, everything it is sent after that is legal, and an open one has
      been sent everything up to now. */
  lemma EverySocketLegal(steps: seq<Step>, ws: SocketId)
    requires IsRun(steps) && ws in After(steps).relay.durable.wire
    ensures var sys := After(steps);
            && ws in sys.since && ws in sys.joined && sys.joined[ws] <= |sys.history|
            && Wire(sys, ws) != []
            && Wire(sys, ws)[0] == Greeting(LastN(sys.history[..sys.joined[ws]], REPLAY_CAPACITY), sys.since[ws])
            && Legal(Base(sys.since[ws], sys.joined[ws]), Wire(sys, ws), sys.history)
            && (ws in sys.relay.durable.sockets
                ==> Ready(CursorAfter(Base(sys.since[ws], sys.joined[ws]), Wire(sys, ws)), |sys.history| + 1))
  {
    InvAlways(steps);
    hide Legal, Ready, Greeting, After, IsRun, CursorAfter, OneLoop, IdleWatched, OutagesInOrder, LogInOrder, Retains;
  }

  /** What two neighbouring messages of a stream have to do with each other, the
      first of them being at position p: live delivery never jumps or repeats; it
      goes on right after a replay; and it resumes exactly at the seq a gap
      names, or, after a gap that answers a subscriber, at that seq or later. */
  ghost predicate InStep(p: nat, m: Message, next: Message) {
    match next
    case Replay(_) => false
    case Gap(k) =>
      (match m
       case Live(d) => d.seqNo < k
       case Gap(j) => j <= k
       case Replay(events) => events != [] ==> events[|events| - 1].seqNo < k)
    case Live(e) =>
      (match m
       case Live(d) => e.seqNo == d.seqNo + 1
       case Gap(k) => if p == 0 then k <= e.seqNo else k == e.seqNo
       case Replay(events) => events != [] ==> e.seqNo == events[|events| - 1].seqNo + 1)
  }

  lemma CursorAt(base: nat, sent: seq<Message>, p: nat)
    requires p < |sent|
    ensures CursorAfter(base, sent[..p + 1])
            == if p == 0 then FirstCursor(base, sent[0]) else Advance(CursorAfter(base, sent[..p]), sent[p])
  {
    assert sent[..p + 1] == sent[..p] + [sent[p]];
    if p > 0 { CursorSnoc(base, sent[..p], sent[p]); }
  }

  lemma LegalInStep(base: nat, sent: seq<Message>, h: seq<BufferedEvent>, p: nat)
    requires Legal(base, sent, h) && p + 1 < |sent| && (p > 0 || (sent[0].Replay? ==> ReplayFrom(base, sent[0].events)))
    ensures InStep(p, sent[p], sent[p + 1])
  {
    assert MayFollow(CursorAfter(base, sent[..p + 1]), sent[p + 1], h);
    assert p > 0 ==> MayFollow(CursorAfter(base, sent[..p]), sent[p], h);
    CursorAt(base, sent, p);
    hide CursorAfter, Legal;
  }

  ghost predicate ReplayFrom(base: nat, events: seq<BufferedEvent>) {
    forall i :: 0 <= i < |events| ==> events[i].seqNo == base + 1 + i
  }

  lemma AnswerReplaysFrom(h: seq<BufferedEvent>, since: nat)
    requires IsHistory(h) && Greeting(LastN(h, REPLAY_CAPACITY), since).Replay?
    ensures ReplayFrom(Base(since, |h|), Greeting(LastN(h, REPLAY_CAPACITY), since).events)
  {
    GreetingExact(h, REPLAY_CAPACITY, since);
    hide Greeting, LastN;
  }

  /** Every socket's stream is in step from its first message to its last. */
  lemma EveryStreamInStep(steps: seq<Step>, ws: SocketId, p: nat)
    requires IsRun(steps) && ws in After(steps).relay.durable.wire && p + 1 < |Wire(After(steps), ws)|
    ensures InStep(p, Wire(After(steps), ws)[p], Wire(After(steps), ws)[p + 1])
  {
    EverySocketLegal(steps, ws);
    WindowAlways(steps);
    hide After, IsRun, Legal, Greeting, LastN, Wire, InStep, ReplayFrom, SelectBySeq, Hydrated;
    var sys := After(steps);
    var window := sys.history[..sys.joined[ws]];
    assert IsHistory(window);
    if Wire(sys, ws)[0].Replay? {
      AnswerReplaysFrom(window, sys.since[ws]);
    }
    LegalInStep(Base(sys.since[ws], sys.joined[ws]), Wire(sys, ws), sys.history, p);
  }

  // ---------------------------------------------------------------- stale teardown flags

  /** An alarm went off with nobody listening and nothing being read, and no
      connection has ended and no eviction has happened since. */
  ghost predicate StaleAlarm(steps: seq<Step>)
    requires IsRun(steps)
    decreases |steps|
  {
    steps != [] &&
    var before, last := steps[..|steps| - 1], steps[|steps| - 1];
    !last.ConnectionEnded? && !last.Evicted?
    && (StaleAlarm(before)
        || (last.AlarmWentOff? && After(before).relay.durable.sockets == [] && !After(before).relay.readerLive))
  }

  ghost predicate Cancelling(sys: System) {
    |sys.loops| == 1 && sys.loops[0] == Reading(true)
  }

  lemma StepFlags(sys: System, step: Step)
    requires OneLoop(sys) && Enabled(sys, step)
    ensures Next(sys, step).relay.intentionalTeardown
            <==> !step.ConnectionEnded? && !step.Evicted?
                 && (sys.relay.intentionalTeardown || (step.AlarmWentOff? && sys.relay.durable.sockets == []))
    ensures Cancelling(Next(sys, step))
            <==> !step.ConnectionEnded? && !step.Evicted?
                 && (Cancelling(sys) || (step.AlarmWentOff? && sys.relay.durable.sockets == [] && sys.relay.readerLive))
  {
    hide SendTo, SendToAll, Greeting, Logged, Ingested, SelectBySeq, FlushAll, Without;
    if step.Chunk? { IngestedFrame(sys.relay, step.events); }
  }

  /** The flag is up exactly while a reader is being cancelled or a stale alarm
      is outstanding. */
  lemma {:induction false} FlagExactly(steps: seq<Step>)
    requires IsRun(steps)
    ensures After(steps).relay.intentionalTeardown <==> Cancelling(After(steps)) || StaleAlarm(steps)
    decreases |steps|
  {
    if steps != [] {
      var before, last := steps[..|steps| - 1], steps[|steps| - 1];
      FlagExactly(before);
      InvAlways(before);
      StepFlags(After(before), last);
      hide Next, Cancelling, IdleWatched, OutagesInOrder, LogInOrder, Retains, SocketsInOrder, StreamsOk;
    }
  }

  lemma RunSnoc(steps: seq<Step>, step: Step)
    requires IsRun(steps) && Enabled(After(steps), step)
    ensures IsRun(steps + [step]) && After(steps + [step]) == Next(After(steps), step)
  {
    hide Next, Enabled;
    assert (steps + [step])[..|steps|] == steps;
  }

  lemma RunPrefix(steps: seq<Step>, step: Step)
    requires IsRun(steps + [step])
    ensures IsRun(steps) && Enabled(After(steps), step) && After(steps + [step]) == Next(After(steps), step)
  {
    hide Next, Enabled;
    assert (steps + [step])[..|steps|] == steps;
  }

  /** Alarms go off only while a reader is live or somebody listens. */
  ghost predicate TimelyAlarms(steps: seq<Step>)
    requires IsRun(steps)
    decreases |steps|
  {
    steps == []
    || (TimelyAlarms(steps[..|steps| - 1])
        && (steps[|steps| - 1].AlarmWentOff?
            ==> var sys := After(steps[..|steps| - 1]); sys.relay.readerLive || sys.relay.durable.sockets != []))
  }

  lemma {:induction false} TimelyIsNeverStale(steps: seq<Step>)
    requires IsRun(steps) && TimelyAlarms(steps)
    ensures !StaleAlarm(steps)
    decreases |steps|
  {
    if steps != [] {
      TimelyIsNeverStale(steps[..|steps| - 1]);
    }
  }

  /** The last open socket closes while a loop is alive. */
  ghost predicate LastLeft(sys: System, step: Step) {
    step.SocketClosed? && sys.loops != [] && forall ws :: ws in sys.relay.durable.sockets ==> ws == step.ws
  }

  /** Nobody has subscribed and no alarm has gone off since the last open socket
      closed while a loop was alive. */
  ghost predicate AlarmDue(steps: seq<Step>)
    requires IsRun(steps)
    decreases |steps|
  {
    steps != [] &&
    var before, last := steps[..|steps| - 1], steps[|steps| - 1];
    !last.Subscribe? && !last.AlarmWentOff? && (AlarmDue(before) || LastLeft(After(before), last))
  }

  lemma AttemptKeepsAlarm(r: Relay, intentional: bool)
    ensures AttemptReturned(r, intentional).durable.alarmSet == r.durable.alarmSet
  {
    hide SendToAll;
  }

  lemma StepAlarm(sys: System, step: Step)
    requires OneLoop(sys) && Enabled(sys, step)
    ensures Next(sys, step).relay.durable.alarmSet
            <==> !step.Subscribe? && !step.AlarmWentOff? && (sys.relay.durable.alarmSet || LastLeft(sys, step))
  {
    if step.Chunk? {
      IngestedFrame(sys.relay, step.events);
      hide Ingested, FlushAll;
    } else if step.AttemptHandled? {
      AttemptKeepsAlarm(sys.relay, sys.loops[step.i].intentional);
      hide AttemptReturned;
    } else if step.SocketClosed? {
      LeavesNobody(sys.relay.durable.sockets, step.ws);
      hide Without;
    } else {
      hide ChunkRead, AttemptReturned, Closed, Greeted, Logged, CancelReads, SelectBySeq, LoopIs;
    }
  }

  lemma LeavesNobody(sockets: seq<SocketId>, ws: SocketId)
    ensures Without(sockets, ws) == [] <==> forall w :: w in sockets ==> w == ws
  {
    var r := Without(sockets, ws);
    if r != [] { assert r[0] in r; }
  }

  /** An idle alarm is pending exactly then. */
  lemma {:induction false} AlarmExactly(steps: seq<Step>)
    requires IsRun(steps)
    ensures After(steps).relay.durable.alarmSet <==> AlarmDue(steps)
    decreases |steps|
  {
    if steps != [] {
      var before, last := steps[..|steps| - 1], steps[|steps| - 1];
      AlarmExactly(before);
      OneLoopInRun(before);
      StepAlarm(After(before), last);
      hide Next, Enabled, OneLoop, LastLeft;
    }
  }

  /** A loop nobody listens to is on its way out: its alarm is pending, its
      reader is being cancelled, or it is about to check for sockets, unless a
      stale alarm is outstanding. */
  lemma IdleLoopEnds(steps: seq<Step>)
    requires IsRun(steps)
    ensures var sys := After(steps);
            sys.loops != [] && sys.relay.durable.sockets == []
            ==> sys.relay.durable.alarmSet || sys.loops[0] == Reading(true) || sys.loops[0].Returned?
                || StaleAlarm(steps)
  {
    InvAlways(steps);
    FlagExactly(steps);
    hide After, IsRun, StaleAlarm, Retains, SocketsInOrder, StreamsOk, OutagesInOrder, LogInOrder;
  }

  lemma {:induction false} OneLoopInRun(steps: seq<Step>)
    requires IsRun(steps)
    ensures OneLoop(After(steps))
  {
    InvAlways(steps);
    hide After, IsRun, OneLoop, IdleWatched, OutagesInOrder, LogInOrder, Retains, SocketsInOrder, StreamsOk;
  }
}

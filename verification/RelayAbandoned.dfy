/** Exactly when open sockets are left without a loop, and runs in which an end
    goes unheard. */
module RelayAbandoned {
  import opened Protocol
  import opened FeedRelay
  import opened RelayRuns
  import opened RelayStreams
  import opened RelaySafety
  import opened RelayDrops

  /** Somebody listens, and no loop is left to read for them. */
  ghost predicate Abandoned(sys: System) {
    sys.relay.durable.sockets != [] && sys.loops == []
  }

  ghost predicate GivingUp(sys: System) {
    |sys.loops| == 1 && sys.loops[0].Returned? && sys.loops[0].intentional
  }

  // ---------------------------------------------------------------- what takes the loop away

  /** The last connection ended while it was being cancelled or while a stale
      alarm was outstanding, and the loop has yet to react. */
  ghost predicate Doomed(steps: seq<Step>)
    requires IsRun(steps)
    decreases |steps|
  {
    steps != [] &&
    var before, last := steps[..|steps| - 1], steps[|steps| - 1];
    if last.ConnectionEnded? then Cancelling(After(before)) || StaleAlarm(before)
    else !Settles(last) && Doomed(before)
  }

  lemma StepGivesUp(sys: System, step: Step)
    requires OneLoop(sys) && Enabled(sys, step)
    ensures GivingUp(Next(sys, step))
            <==> if step.ConnectionEnded? then sys.relay.intentionalTeardown else !Settles(step) && GivingUp(sys)
  {
    hide ChunkRead, Connected, AttemptReturned, Closed, AlarmFired, Hydrated, Established, Logged, NumberFrom;
  }

  /** A loop is on its way out for exactly those reasons. */
  lemma {:induction false} DoomedExactly(steps: seq<Step>)
    requires IsRun(steps)
    ensures GivingUp(After(steps)) <==> Doomed(steps)
    decreases |steps|
  {
    if steps != [] {
      var before, last := steps[..|steps| - 1], steps[|steps| - 1];
      DoomedExactly(before);
      OneLoopInRun(before);
      FlagExactly(before);
      hide OneLoop, Next, Enabled, GivingUp, Cancelling, StaleAlarm;
      StepGivesUp(After(before), last);
    }
  }

  /** Open sockets lost their loop, to an eviction, to the end of a cancelled
      connection or to an end that a stale alarm made look like one, and nobody
      has subscribed since. */
  ghost predicate LoopLost(steps: seq<Step>)
    requires IsRun(steps)
    decreases |steps|
  {
    steps != [] &&
    var before, last := steps[..|steps| - 1], steps[|steps| - 1];
    !last.Subscribe?
    && (LoopLost(before)
        || (After(before).relay.durable.sockets != []
            && (last.Evicted? || (last.AttemptHandled? && Doomed(before)))))
  }

  lemma StepAbandons(sys: System, step: Step)
    requires OneLoop(sys) && Enabled(sys, step) && !Abandoned(sys)
    ensures Abandoned(Next(sys, step))
            <==> sys.relay.durable.sockets != [] && (step.Evicted? || (step.AttemptHandled? && GivingUp(sys)))
  {
    StepLists(sys, step);
    hide ChunkRead, Connected, AttemptReturned, Closed, AlarmFired, Hydrated, Established, Logged, NumberFrom;
  }

  lemma StepKeepsLost(sys: System, step: Step)
    requires OneLoop(sys) && Enabled(sys, step) && !step.Subscribe?
    ensures Next(sys, step).relay.durable.sockets != [] ==> sys.relay.durable.sockets != []
    ensures sys.loops == [] ==> Next(sys, step).loops == []
    ensures step.Evicted? || (step.AttemptHandled? && GivingUp(sys)) ==> Next(sys, step).loops == []
  {
    StepLists(sys, step);
    hide ChunkRead, Connected, AttemptReturned, Closed, AlarmFired, Hydrated, Established, Logged, NumberFrom;
  }

  lemma SubscribeAttends(sys: System, step: Step)
    requires OneLoop(sys) && Enabled(sys, step) && step.Subscribe?
    ensures Next(sys, step).loops != []
  {
    hide Connected;
  }

  /** In every run, somebody listens and no loop reads for them if and only if
      they lost their loop and nobody new has subscribed since: the next
      subscriber is what brings the feed back. */
  lemma {:induction false} AbandonedExactly(steps: seq<Step>)
    requires IsRun(steps)
    ensures Abandoned(After(steps)) <==> After(steps).relay.durable.sockets != [] && LoopLost(steps)
    decreases |steps|
  {
    if steps != [] {
      var before, last := steps[..|steps| - 1], steps[|steps| - 1];
      AbandonedExactly(before);
      OneLoopInRun(before);
      DoomedExactly(before);
      hide OneLoop, Next, Enabled, GivingUp, Doomed;
      if last.Subscribe? {
        SubscribeAttends(After(before), last);
      } else {
        StepKeepsLost(After(before), last);
        if !Abandoned(After(before)) { StepAbandons(After(before), last); }
      }
    }
  }

  // ---------------------------------------------------------------- an alarm that came too late

  /** The last subscriber leaves while the loop is still connecting, the alarm
      finds no reader, and a new subscriber arrives. */
  const STALE: seq<Step> := [Subscribe(0, 0), SocketClosed(0), AlarmWentOff, Subscribe(1, 0), FetchSucceeded(0)]

  lemma StaleLeft()
    ensures var left := [Subscribe(0, 0), SocketClosed(0)];
            && IsRun(left)
            && var sys := After(left);
               && sys.loops == [Connecting] && sys.relay.upstreamStarted && !sys.relay.readerLive
               && sys.relay.durable.sockets == [] && sys.relay.durable.alarmSet && 1 !in sys.relay.durable.wire
  {
    hide Greeting, Logged, CancelReads;
    RunSnoc([], Subscribe(0, 0));
    RunSnoc([] + [Subscribe(0, 0)], SocketClosed(0));
  }

  lemma StaleFired()
    ensures var fired := [Subscribe(0, 0), SocketClosed(0)] + [AlarmWentOff];
            && IsRun(fired) && StaleAlarm(fired)
            && var sys := After(fired);
               && sys.loops == [Connecting] && sys.relay.upstreamStarted
               && sys.relay.durable.sockets == [] && 1 !in sys.relay.durable.wire
  {
    StaleLeft();
    var left := [Subscribe(0, 0), SocketClosed(0)];
    RunSnoc(left, AlarmWentOff);
    assert (left + [AlarmWentOff])[..2] == left;
    hide After, IsRun;
  }

  lemma StaleSnoc(steps: seq<Step>, step: Step)
    requires IsRun(steps) && StaleAlarm(steps) && Enabled(After(steps), step)
    requires !step.ConnectionEnded? && !step.Evicted?
    ensures IsRun(steps + [step]) && StaleAlarm(steps + [step])
  {
    RunSnoc(steps, step);
    hide After, IsRun, Next, Enabled;
    assert (steps + [step])[..|steps|] == steps;
  }

  lemma StaleIsRun()
    ensures IsRun(STALE) && StaleAlarm(STALE)
    ensures After(STALE).loops == [Reading(false)] && 1 in After(STALE).relay.durable.sockets
  {
    StaleFired();
    hide After, IsRun, StaleAlarm, Greeting, SendTo, Logged, CancelReads;
    var fired := [Subscribe(0, 0), SocketClosed(0)] + [AlarmWentOff];
    var joined := fired + [Subscribe(1, 0)];
    RunSnoc(fired, Subscribe(1, 0));
    StaleSnoc(fired, Subscribe(1, 0));
    RunSnoc(joined, FetchSucceeded(0));
    StaleSnoc(joined, FetchSucceeded(0));
    assert joined + [FetchSucceeded(0)] == STALE;
  }

  const END_HANDLED: seq<Step> := [ConnectionEnded(0), AttemptHandled(0)]

  lemma EndIsHandled(steps: seq<Step>, ws: SocketId)
    requires IsRun(steps) && BeingRead(After(steps)) && ws in After(steps).relay.durable.sockets
    ensures Continues(steps, END_HANDLED, ws) && Settling(END_HANDLED)
  {
    EndInRun(steps, ws);
    var ended := steps + [ConnectionEnded(0)];
    RunSnoc(ended, AttemptHandled(0));
    hide After, IsRun;
    assert steps + END_HANDLED == ended + [AttemptHandled(0)];
  }

  /** A stale alarm: nobody had cancelled the connection and nothing was evicted,
      yet its end leaves the one open socket untold and without a loop, and an
      event may be what it hears next. */
  lemma StaleUnheard()
    ensures IsRun(STALE) && After(STALE).loops == [Reading(false)]
    ensures Continues(STALE, END_HANDLED, 1) && Abandoned(After(STALE + END_HANDLED))
    ensures Wire(After(STALE + END_HANDLED), 1) == Wire(After(STALE), 1)
    ensures !AlwaysGapFirst(STALE, END_HANDLED, 1)
  {
    StaleIsRun();
    hide After, IsRun, StaleAlarm, AlwaysGapFirst, Continues, Wire;
    EndIsHandled(STALE, 1);
    EndSettled(STALE, END_HANDLED, 1);
    EndAnnouncedExactly(STALE, END_HANDLED, 1);
  }

  // ---------------------------------------------------------------- an eviction

  /** A connection that is being read, with no alarm anywhere. */
  const READING: seq<Step> := [Subscribe(0, 0), FetchSucceeded(0)]

  lemma ReadingIsRun()
    ensures IsRun(READING) && TimelyAlarms(READING) && !StaleAlarm(READING)
    ensures After(READING).loops == [Reading(false)] && After(READING).history == []
    ensures After(READING).relay.durable.log == []
    ensures 0 in After(READING).relay.durable.sockets && Wire(After(READING), 0) == [Replay([])]
    ensures After(READING).relay.durable.sockets == [0] && 1 !in After(READING).relay.durable.wire
  {
    hide Logged, CancelReads;
    var one := [] + [Subscribe(0, 0)];
    RunSnoc([], Subscribe(0, 0));
    RunSnoc(one, FetchSucceeded(0));
    assert one + [FetchSucceeded(0)] == READING && READING[..1] == one && one[..0] == [];
    TimelyIsNeverStale(READING);
  }

  /** An eviction between the end and the loop's reaction, and one in place of
      the end. */
  const END_EVICTED: seq<Step> := [ConnectionEnded(0), Evicted]
  const JUST_EVICTED: seq<Step> := [Evicted]

  /** An eviction: no alarm ever went off and nobody cancelled anything, yet the
      open socket is untold and without a loop, and some continuation sends it the
      next event with no gap before it. */
  lemma EvictedUnheard(rest: seq<Step>) returns (more: seq<Step>)
    requires rest == END_EVICTED || rest == JUST_EVICTED
    ensures IsRun(READING) && After(READING).loops == [Reading(false)]
    ensures IsRun(READING + rest) && Abandoned(After(READING + rest))
    ensures IsRun(READING + rest + more) && SocketClosed(0) !in rest + more && AlarmWentOff !in READING + rest + more
    ensures Wire(After(READING + rest + more), 0) == [Replay([]), Live(Number(1, BLANK))]
  {
    ReadingIsRun();
    hide After, IsRun, StaleAlarm, TimelyAlarms, Continues, Wire;
    EvictionIsRun(READING, rest, 0);
    ContinuesIsRun(READING, rest, 0);
    EndSettled(READING, rest, 0);
    SettledFacts(After(READING), After(READING + rest), 0, Heeded(READING, rest));
    more := LiveWithoutGap(READING + rest, 0);
    ContinuesIsRun(READING + rest, more, 0);
  }

  lemma EvictionIsRun(steps: seq<Step>, rest: seq<Step>, ws: SocketId)
    requires rest == END_EVICTED || rest == JUST_EVICTED
    requires IsRun(steps) && BeingRead(After(steps)) && ws in After(steps).relay.durable.sockets
    ensures Continues(steps, rest, ws) && Settling(rest)
  {
    if rest == JUST_EVICTED {
      RunSnoc(steps, Evicted);
      hide After, IsRun;
      assert steps + rest == steps + [Evicted];
    } else {
      EndInRun(steps, ws);
      RunSnoc(steps + [ConnectionEnded(0)], Evicted);
      hide After, IsRun;
      assert steps + rest == steps + [ConnectionEnded(0)] + [Evicted];
    }
  }

  // ---------------------------------------------------------------- a cancelled connection

  /** The last subscriber leaves, the alarm cancels the reader, and a new
      subscriber arrives before the reader is gone. */
  const CANCELLED: seq<Step> := READING + [SocketClosed(0)] + [AlarmWentOff] + [Subscribe(1, 0)]

  lemma CancelledIsRun()
    ensures IsRun(CANCELLED) && After(CANCELLED).loops == [Reading(true)]
    ensures 1 in After(CANCELLED).relay.durable.sockets
  {
    ReadingIsRun();
    OneLoopInRun(READING);
    hide After, IsRun, StaleAlarm, TimelyAlarms, Logged, SendTo, Greeting;
    var closed := READING + [SocketClosed(0)];
    RunSnoc(READING, SocketClosed(0));
    RunSnoc(closed, AlarmWentOff);
    RunSnoc(closed + [AlarmWentOff], Subscribe(1, 0));
  }

  /** A cancelled connection: its end leaves the newcomer untold and without a
      loop. */
  lemma CancelledUnheard()
    ensures IsRun(CANCELLED) && Continues(CANCELLED, END_HANDLED, 1)
    ensures Abandoned(After(CANCELLED + END_HANDLED))
    ensures Wire(After(CANCELLED + END_HANDLED), 1) == Wire(After(CANCELLED), 1)
    ensures !AlwaysGapFirst(CANCELLED, END_HANDLED, 1)
  {
    CancelledIsRun();
    hide After, IsRun, StaleAlarm, AlwaysGapFirst, Continues, Wire;
    EndIsHandled(CANCELLED, 1);
    EndSettled(CANCELLED, END_HANDLED, 1);
    EndAnnouncedExactly(CANCELLED, END_HANDLED, 1);
  }
}

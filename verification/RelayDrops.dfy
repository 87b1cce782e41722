/** Exactly when the end of an upstream connection is announced to an open socket
    before anything else reaches it. */
module RelayDrops {
  import opened SseFraming
  import opened Options
  import opened Protocol
  import opened FeedRelay
  import opened RelayTurns
  import opened RelayRuns
  import opened RelayStreams
  import opened RelaySafety

  // ---------------------------------------------------------------- runs after runs

  /** A run goes on, and a given socket is not closed meanwhile. */
  ghost predicate Continues(steps: seq<Step>, more: seq<Step>, ws: SocketId) {
    IsRun(steps) && IsRun(steps + more) && SocketClosed(ws) !in more
  }

  lemma ContinuesInit(steps: seq<Step>, more: seq<Step>, ws: SocketId)
    requires Continues(steps, more, ws) && more != []
    ensures var init, last := more[..|more| - 1], more[|more| - 1];
            && Continues(steps, init, ws) && Enabled(After(steps + init), last) && last != SocketClosed(ws)
            && After(steps + more) == Next(After(steps + init), last)
  {
    var init, last := more[..|more| - 1], more[|more| - 1];
    assert steps + more == (steps + init) + [last];
    RunPrefix(steps + init, last);
    hide IsRun, After, Next, Enabled;
  }

  lemma ContinuesSnoc(steps: seq<Step>, more: seq<Step>, step: Step, ws: SocketId)
    requires Continues(steps, more, ws) && Enabled(After(steps + more), step) && step != SocketClosed(ws)
    ensures Continues(steps, more + [step], ws)
    ensures After(steps + (more + [step])) == Next(After(steps + more), step)
  {
    assert steps + (more + [step]) == (steps + more) + [step];
    assert SocketClosed(ws) !in more + [step] && IsRun(steps);
    RunSnoc(steps + more, step);
    hide *;
    ContinuesFrom(steps, more + [step], ws);
  }

  lemma SocketKnown(sys: System, ws: SocketId)
    requires SocketsInOrder(sys) && ws in sys.relay.durable.sockets
    ensures ws in sys.relay.durable.wire
  {
  }

  lemma SocketsInRun(steps: seq<Step>)
    requires IsRun(steps)
    ensures SocketsInOrder(After(steps)) && After(steps).relay.nextSeq == |After(steps).history| + 1
  {
    InvAlways(steps);
    RetainsCounts(After(steps).relay, After(steps).history);
    hide After, IsRun, OneLoop, IdleWatched, OutagesInOrder, LogInOrder, Retains, SocketsInOrder, StreamsOk;
  }

  lemma StepOnlyAdds(sys: System, step: Step, ws: SocketId)
    requires SocketsInOrder(sys) && Enabled(sys, step) && ws in sys.relay.durable.wire
    ensures ws in Next(sys, step).relay.durable.wire && Wire(sys, ws) <= Wire(Next(sys, step), ws)
  {
    StepSends(sys, step, ws);
    hide Next, SentBy, SocketsInOrder, Enabled, Wire;
  }

  /** Whatever was sent to a socket stays sent, in its place. */
  lemma {:induction false} RunOnlyAdds(steps: seq<Step>, more: seq<Step>, ws: SocketId)
    requires IsRun(steps) && IsRun(steps + more) && ws in After(steps).relay.durable.wire
    ensures ws in After(steps + more).relay.durable.wire
    ensures Wire(After(steps), ws) <= Wire(After(steps + more), ws)
    decreases |more|
  {
    hide IsRun, After, Next, Enabled, SocketsInOrder, Wire;
    if more == [] {
      assert steps + more == steps;
    } else {
      var init, last := more[..|more| - 1], more[|more| - 1];
      assert steps + more == (steps + init) + [last];
      RunPrefix(steps + init, last);
      RunOnlyAdds(steps, init, ws);
      SocketsInRun(steps + init);
      StepOnlyAdds(After(steps + init), last, ws);
    }
  }

  // ---------------------------------------------------------------- until the loop reacts

  /** What decides whether an end is told: the loop's reaction, or an eviction. */
  predicate Settles(step: Step) {
    step.AttemptHandled? || step.Evicted?
  }

  /** Seen from one open socket, nothing has happened between two systems. */
  ghost predicate Unmoved(s: System, t: System, ws: SocketId) {
    && t.loops == s.loops && t.history == s.history
    && t.relay.outageSignaled == s.relay.outageSignaled
    && ws in t.relay.durable.sockets && Wire(t, ws) == Wire(s, ws)
  }

  ghost predicate Waiting(sys: System) {
    |sys.loops| == 1 && sys.loops[0].Returned?
  }

  lemma LoopWaits(sys: System, step: Step)
    requires OneLoop(sys) && Waiting(sys) && Enabled(sys, step) && !Settles(step)
    ensures Next(sys, step).loops == sys.loops && Next(sys, step).history == sys.history
    ensures Next(sys, step).relay.outageSignaled == sys.relay.outageSignaled
  {
    hide SendTo, Greeting, Logged, Without;
  }

  lemma WaitingStep(sys: System, step: Step, ws: SocketId)
    requires OneLoop(sys) && SocketsInOrder(sys) && Waiting(sys)
    requires Enabled(sys, step) && !Settles(step) && step != SocketClosed(ws) && ws in sys.relay.durable.sockets
    ensures Unmoved(sys, Next(sys, step), ws)
  {
    SocketKnown(sys, ws);
    LoopWaits(sys, step);
    StepSends(sys, step, ws);
    StepSockets(sys, step, ws);
    assert SentBy(sys, step, ws) == [];
    hide *;
  }

  /** Between the end of a connection and the loop's reaction, or an eviction,
      nothing is numbered and an open socket is sent nothing. */
  lemma {:induction false} NothingBeforeTheGap(steps: seq<Step>, more: seq<Step>, ws: SocketId)
    requires Continues(steps, more, ws) && Waiting(After(steps)) && ws in After(steps).relay.durable.sockets
    requires forall k :: 0 <= k < |more| ==> !Settles(more[k])
    ensures Unmoved(After(steps), After(steps + more), ws)
    decreases |more|
  {
    hide IsRun, After, Next, Enabled, SocketsInOrder, OneLoop, Wire;
    if more == [] {
      assert steps + more == steps;
    } else {
      ContinuesInit(steps, more, ws);
      var init, last := more[..|more| - 1], more[|more| - 1];
      assert forall k :: 0 <= k < |init| ==> init[k] == more[k];
      NothingBeforeTheGap(steps, init, ws);
      SocketsInRun(steps + init);
      OneLoopInRun(steps + init);
      WaitingStep(After(steps + init), last, ws);
    }
  }

  // ---------------------------------------------------------------- what an end comes to

  /** Steps from the end of a connection to what decides whether it is told: the
      end, then anything, then the loop's reaction or an eviction; or an
      eviction, which itself ends the connection. */
  predicate Settling(rest: seq<Step>) {
    || rest == [Evicted]
    || (|rest| >= 2 && rest[0] == ConnectionEnded(0) && Settles(rest[|rest| - 1])
        && forall k :: 0 < k < |rest| - 1 ==> !Settles(rest[k]))
  }

  /** A connection is being read. */
  ghost predicate BeingRead(sys: System) {
    |sys.loops| == 1 && sys.loops[0].Reading?
  }

  /** Nobody had cancelled the connection, no stale alarm was outstanding, and
      the loop reacted before any eviction. */
  ghost predicate Heeded(steps: seq<Step>, rest: seq<Step>)
    requires IsRun(steps) && Settling(rest)
  {
    !Cancelling(After(steps)) && !StaleAlarm(steps) && rest[|rest| - 1].AttemptHandled?
  }

  /** What an end comes to for one open socket: told of it by a gap naming the
      next seq, with a loop that goes on; or told nothing, with no loop left. */
  ghost predicate Settled(sys: System, after: System, ws: SocketId, told: bool) {
    && after.history == sys.history
    && ws in after.relay.durable.sockets
    && Wire(after, ws) == Wire(sys, ws) + (if told then [Gap(|sys.history| + 1)] else [])
    && after.loops == (if told then [Sleeping] else [])
  }

  lemma EndWaits(sys: System, ws: SocketId)
    requires OneLoop(sys) && SocketsInOrder(sys) && OutagesInOrder(sys) && BeingRead(sys)
    requires ws in sys.relay.durable.sockets
    ensures var ended := Next(sys, ConnectionEnded(0));
            && ended.loops == [Returned(sys.relay.intentionalTeardown, true)] && ended.history == sys.history
            && !ended.relay.outageSignaled
            && ws in ended.relay.durable.sockets && Wire(ended, ws) == Wire(sys, ws)
  {
    hide Distinct, Quiet, Alternates, WireOf;
  }

  lemma ReactionSettles(sys: System, ws: SocketId)
    requires SocketsInOrder(sys) && Waiting(sys) && !sys.relay.outageSignaled
    requires sys.relay.nextSeq == |sys.history| + 1 && ws in sys.relay.durable.sockets
    ensures Settled(sys, Next(sys, AttemptHandled(0)), ws, !sys.loops[0].intentional)
  {
    StepSends(sys, AttemptHandled(0), ws);
    StepSockets(sys, AttemptHandled(0), ws);
    hide Distinct, Quiet, SendToAll, Logged, Wire;
  }

  lemma EvictionSettles(sys: System, ws: SocketId)
    requires SocketsInOrder(sys) && ws in sys.relay.durable.sockets
    ensures Settled(sys, Next(sys, Evicted), ws, false)
  {
    hide Distinct, Quiet, WireOf;
  }

  lemma EndInRun(steps: seq<Step>, ws: SocketId)
    requires IsRun(steps) && BeingRead(After(steps)) && ws in After(steps).relay.durable.sockets
    ensures IsRun(steps + [ConnectionEnded(0)])
    ensures var sys, ended := After(steps), After(steps + [ConnectionEnded(0)]);
            && ended.loops == [Returned(sys.relay.intentionalTeardown, true)] && ended.history == sys.history
            && !ended.relay.outageSignaled
            && ws in ended.relay.durable.sockets && Wire(ended, ws) == Wire(sys, ws)
  {
    RunSnoc(steps, ConnectionEnded(0));
    InvAlways(steps);
    EndWaits(After(steps), ws);
    hide *;
  }

  lemma LastSettles(sys: System, ended: System, now: System, last: Step, ws: SocketId)
    requires |ended.loops| == 1 && ended.loops[0].Returned? && ended.history == sys.history
    requires !ended.relay.outageSignaled && Wire(ended, ws) == Wire(sys, ws) && Unmoved(ended, now, ws)
    requires SocketsInOrder(now) && now.relay.nextSeq == |now.history| + 1
    requires Settles(last) && Enabled(now, last)
    ensures Settled(sys, Next(now, last), ws, last.AttemptHandled? && !ended.loops[0].intentional)
  {
    hide Next, SocketsInOrder, Wire;
    if last.Evicted? {
      EvictionSettles(now, ws);
    } else {
      ReactionSettles(now, ws);
    }
  }

  /** What settles an end is the last step, whatever happened before it. */
  lemma {:induction false} SettledByLast(steps: seq<Step>, mid: seq<Step>, last: Step, ws: SocketId)
    requires IsRun(steps) && BeingRead(After(steps)) && ws in After(steps).relay.durable.sockets
    requires Continues(steps + [ConnectionEnded(0)], mid, ws)
    requires forall k :: 0 <= k < |mid| ==> !Settles(mid[k])
    requires IsRun(steps + [ConnectionEnded(0)] + mid)
    requires Settles(last) && Enabled(After(steps + [ConnectionEnded(0)] + mid), last)
    ensures Settled(After(steps), Next(After(steps + [ConnectionEnded(0)] + mid), last), ws,
                    last.AttemptHandled? && !After(steps).relay.intentionalTeardown)
  {
    hide *;
    EndInRun(steps, ws);
    var ended := steps + [ConnectionEnded(0)];
    ReturnedWaits(After(ended));
    NothingBeforeTheGap(ended, mid, ws);
    SocketsInRun(ended + mid);
    LastSettles(After(steps), After(ended), After(ended + mid), last, ws);
  }

  lemma ReturnedWaits(sys: System)
    ensures |sys.loops| == 1 && sys.loops[0].Returned? ==> Waiting(sys)
  {
  }

  lemma {:induction false} EvictedAtOnce(steps: seq<Step>, ws: SocketId)
    requires Continues(steps, [Evicted], ws) && ws in After(steps).relay.durable.sockets
    ensures Settled(After(steps), After(steps + [Evicted]), ws, false)
  {
    RunPrefix(steps, Evicted);
    SocketsInRun(steps);
    hide *;
    EvictionSettles(After(steps), ws);
  }

  /** An end, anything, and what settles it. */
  lemma {:induction false} EndedAndSettled(steps: seq<Step>, mid: seq<Step>, last: Step, ws: SocketId)
    requires Continues(steps, [ConnectionEnded(0)] + mid + [last], ws)
    requires BeingRead(After(steps)) && ws in After(steps).relay.durable.sockets
    requires (forall k :: 0 <= k < |mid| ==> !Settles(mid[k])) && Settles(last)
    ensures Settled(After(steps), After(steps + ([ConnectionEnded(0)] + mid + [last])), ws,
                    last.AttemptHandled? && !After(steps).relay.intentionalTeardown)
  {
    assert IsRun(steps) && SocketClosed(ws) !in mid by {
      assert forall step :: step in mid ==> step in [ConnectionEnded(0)] + mid + [last];
    }
    assert IsRun(steps + ([ConnectionEnded(0)] + mid + [last]));
    hide *;
    assert steps + ([ConnectionEnded(0)] + mid + [last]) == ((steps + [ConnectionEnded(0)]) + mid) + [last];
    RunPrefix((steps + [ConnectionEnded(0)]) + mid, last);
    EndInRun(steps, ws);
    ContinuesFrom(steps + [ConnectionEnded(0)], mid, ws);
    SettledByLast(steps, mid, last, ws);
  }

  lemma ContinuesFrom(steps: seq<Step>, more: seq<Step>, ws: SocketId)
    requires IsRun(steps) && IsRun(steps + more) && SocketClosed(ws) !in more
    ensures Continues(steps, more, ws)
  {
  }

  lemma ContinuesIsRun(steps: seq<Step>, rest: seq<Step>, ws: SocketId)
    requires Continues(steps, rest, ws)
    ensures IsRun(steps + rest) && SocketClosed(ws) !in rest
  {
  }

  lemma SettlingForm(rest: seq<Step>) returns (mid: seq<Step>, last: Step)
    requires Settling(rest)
    ensures last == rest[|rest| - 1] && Settles(last)
    ensures rest != [Evicted] ==> rest == [ConnectionEnded(0)] + mid + [last]
    ensures rest != [Evicted] ==> forall k :: 0 <= k < |mid| ==> !Settles(mid[k])
  {
    last := rest[|rest| - 1];
    mid := if rest == [Evicted] then [] else rest[1..|rest| - 1];
  }

  /** What becomes of the end of any connection, whatever is interleaved. */
  lemma {:induction false} EndSettled(steps: seq<Step>, rest: seq<Step>, ws: SocketId)
    requires Continues(steps, rest, ws) && Settling(rest)
    requires BeingRead(After(steps)) && ws in After(steps).relay.durable.sockets
    ensures Settled(After(steps), After(steps + rest), ws, Heeded(steps, rest))
  {
    FlagExactly(steps);
    var mid, last := SettlingForm(rest);
    assert Heeded(steps, rest) <==> last.AttemptHandled? && !After(steps).relay.intentionalTeardown;
    hide *;
    if rest == [Evicted] {
      EvictedAtOnce(steps, ws);
    } else {
      EndedAndSettled(steps, mid, last, ws);
    }
  }

  // ---------------------------------------------------------------- what reaches a socket next

  /** If anything has reached a socket since, the gap for the end reached it first. */
  ghost predicate GapFirst(sys: System, later: System, ws: SocketId) {
    |Wire(later, ws)| > |Wire(sys, ws)| ==> Wire(later, ws)[|Wire(sys, ws)|] == Gap(|sys.history| + 1)
  }

  /** However the run goes on, the gap comes before anything else. */
  ghost predicate AlwaysGapFirst(steps: seq<Step>, rest: seq<Step>, ws: SocketId)
    requires IsRun(steps)
  {
    forall more :: Continues(steps + rest, more, ws) ==> GapFirst(After(steps), After(steps + rest + more), ws)
  }

  const BLANK := SseEvent(None, None, [])

  lemma {:induction false} FreshSocket(sockets: set<SocketId>) returns (newcomer: SocketId)
    ensures newcomer !in sockets && forall ws :: ws in sockets ==> ws < newcomer
  {
    if sockets == {} {
      newcomer := 0;
    } else {
      var ws :| ws in sockets;
      newcomer := FreshSocket(sockets - {ws});
      if newcomer <= ws { newcomer := ws + 1; }
      assert forall w :: w in sockets ==> w == ws || w in sockets - {ws};
    }
  }

  lemma NewcomerStartsLoop(sys: System, newcomer: SocketId, ws: SocketId)
    requires OneLoop(sys) && SocketsInOrder(sys) && sys.loops == [] && newcomer !in sys.relay.durable.wire
    requires ws in sys.relay.durable.sockets
    ensures Enabled(sys, Subscribe(newcomer, 0))
    ensures var next := Next(sys, Subscribe(newcomer, 0));
            && next.loops == [Connecting] && ws in next.relay.durable.sockets && Wire(next, ws) == Wire(sys, ws)
            && next.history == sys.history
  {
    SocketKnown(sys, ws);
    assert newcomer !in sys.relay.durable.sockets;
    StepSends(sys, Subscribe(newcomer, 0), ws);
    StepSockets(sys, Subscribe(newcomer, 0), ws);
    hide Distinct, Quiet, Connected, Wire;
  }

  lemma ConnectsAgain(sys: System, ws: SocketId)
    requires SocketsInOrder(sys) && sys.loops == [Connecting] && ws in sys.relay.durable.sockets
    ensures Enabled(sys, FetchSucceeded(0))
    ensures var next := Next(sys, FetchSucceeded(0));
            && next.loops == [Reading(false)] && ws in next.relay.durable.sockets && Wire(next, ws) == Wire(sys, ws)
            && next.history == sys.history
  {
    StepSends(sys, FetchSucceeded(0), ws);
    StepSockets(sys, FetchSucceeded(0), ws);
    hide Distinct, Quiet, Established, Logged, Wire;
  }

  lemma SendsLive(sys: System, ws: SocketId)
    requires SocketsInOrder(sys) && sys.loops == [Reading(false)] && ws in sys.relay.durable.sockets
    requires sys.relay.nextSeq == |sys.history| + 1
    ensures Enabled(sys, Chunk(0, [BLANK]))
    ensures Wire(Next(sys, Chunk(0, [BLANK])), ws) == Wire(sys, ws) + [Live(Number(|sys.history| + 1, BLANK))]
  {
    StepSends(sys, Chunk(0, [BLANK]), ws);
    var batch := NumberFrom(sys.relay.nextSeq, [BLANK]);
    assert [BLANK][..0] == [];
    assert NumberFrom(sys.relay.nextSeq, []) == [];
    assert batch == [Number(sys.relay.nextSeq, BLANK)];
    assert LiveMessages(batch) == [Live(batch[0])];
    hide Next, Wire, Distinct, Quiet;
  }

  /** Where a continuation has led, seen from one open socket. */
  ghost predicate Reaches(steps: seq<Step>, more: seq<Step>, ws: SocketId, loops: seq<Phase>) {
    && Continues(steps, more, ws)
    && var sys, now := After(steps), After(steps + more);
       && now.loops == loops && ws in now.relay.durable.sockets
       && Wire(now, ws) == Wire(sys, ws) && now.history == sys.history
  }

  lemma ReachesConnecting(steps: seq<Step>, newcomer: SocketId, ws: SocketId)
    requires IsRun(steps) && After(steps).loops == [] && ws in After(steps).relay.durable.sockets
    requires newcomer !in After(steps).relay.durable.wire
    ensures Reaches(steps, [Subscribe(newcomer, 0)], ws, [Connecting])
  {
    OneLoopInRun(steps);
    SocketsInRun(steps);
    hide IsRun, After, Next, Enabled, Wire, SocketsInOrder, OneLoop;
    NewcomerStartsLoop(After(steps), newcomer, ws);
    RunSnoc(steps, Subscribe(newcomer, 0));
  }

  lemma ReachesReading(steps: seq<Step>, more: seq<Step>, ws: SocketId)
    requires Reaches(steps, more, ws, [Connecting])
    ensures Reaches(steps, more + [FetchSucceeded(0)], ws, [Reading(false)])
  {
    SocketsInRun(steps + more);
    hide IsRun, After, Next, Enabled, Wire, SocketsInOrder, Continues;
    ConnectsAgain(After(steps + more), ws);
    ContinuesSnoc(steps, more, FetchSucceeded(0), ws);
  }

  lemma ReachesLive(steps: seq<Step>, more: seq<Step>, ws: SocketId)
    requires Reaches(steps, more, ws, [Reading(false)])
    ensures Continues(steps, more + [Chunk(0, [BLANK])], ws)
    ensures Wire(After(steps + (more + [Chunk(0, [BLANK])])), ws)
            == Wire(After(steps), ws) + [Live(Number(|After(steps).history| + 1, BLANK))]
  {
    SocketsInRun(steps + more);
    hide IsRun, After, Next, Enabled, Wire, SocketsInOrder, Continues, Number;
    SendsLive(After(steps + more), ws);
    ContinuesSnoc(steps, more, Chunk(0, [BLANK]), ws);
  }

  /** With no loop left, the next thing an open socket hears can be an event. */
  lemma LiveWithoutGap(steps: seq<Step>, ws: SocketId) returns (more: seq<Step>)
    requires IsRun(steps) && After(steps).loops == [] && ws in After(steps).relay.durable.sockets
    ensures Continues(steps, more, ws) && AlarmWentOff !in more
    ensures Wire(After(steps + more), ws)
            == Wire(After(steps), ws) + [Live(Number(|After(steps).history| + 1, BLANK))]
  {
    var newcomer := FreshSocket(After(steps).relay.durable.wire.Keys);
    hide *;
    ReachesConnecting(steps, newcomer, ws);
    ReachesReading(steps, [Subscribe(newcomer, 0)], ws);
    ReachesLive(steps, [Subscribe(newcomer, 0)] + [FetchSucceeded(0)], ws);
    more := [Subscribe(newcomer, 0)] + [FetchSucceeded(0)] + [Chunk(0, [BLANK])];
  }

  lemma GapStaysFirst(sys: System, settled: System, later: System, ws: SocketId)
    requires Settled(sys, settled, ws, true) && Wire(settled, ws) <= Wire(later, ws)
    ensures GapFirst(sys, later, ws)
  {
    hide Wire;
  }

  lemma LiveIsNoGap(sys: System, settled: System, later: System, ws: SocketId, e: BufferedEvent)
    requires Settled(sys, settled, ws, false) && Wire(later, ws) == Wire(settled, ws) + [Live(e)]
    ensures !GapFirst(sys, later, ws)
  {
    hide Wire;
  }

  lemma SettledFacts(sys: System, settled: System, ws: SocketId, told: bool)
    requires Settled(sys, settled, ws, told)
    ensures ws in settled.relay.durable.sockets && (!told ==> settled.loops == [])
  {
  }

  /** The end of a connection is announced before anything else that may ever
      reach an open socket, if and only if nobody had cancelled the connection, no
      stale alarm was outstanding, and the loop reacted before any eviction. */
  lemma {:induction false} EndAnnouncedExactly(steps: seq<Step>, rest: seq<Step>, ws: SocketId)
    requires Continues(steps, rest, ws) && Settling(rest)
    requires BeingRead(After(steps)) && ws in After(steps).relay.durable.sockets
    ensures AlwaysGapFirst(steps, rest, ws) <==> Heeded(steps, rest)
  {
    EndSettled(steps, rest, ws);
    SocketsInRun(steps + rest);
    hide IsRun, After, Heeded, Wire, Continues, BeingRead, SocketsInOrder, Settled, GapFirst;
    SettledFacts(After(steps), After(steps + rest), ws, Heeded(steps, rest));
    if Heeded(steps, rest) {
      forall more | Continues(steps + rest, more, ws)
        ensures GapFirst(After(steps), After(steps + rest + more), ws)
      {
        SocketKnown(After(steps + rest), ws);
        ContinuesIsRun(steps + rest, more, ws);
        RunOnlyAdds(steps + rest, more, ws);
        GapStaysFirst(After(steps), After(steps + rest), After(steps + rest + more), ws);
      }
    } else {
      var more := LiveWithoutGap(steps + rest, ws);
      LiveIsNoGap(After(steps), After(steps + rest), After(steps + rest + more), ws,
                  Number(|After(steps + rest).history| + 1, BLANK));
    }
  }
}

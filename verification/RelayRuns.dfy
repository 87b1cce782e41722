/** The relay as a state machine: every interleaving of subscribes, upstream
    reads, failures, closes, alarms and evictions. */
module RelayRuns {
  import opened Options
  import opened SseFraming
  import opened Protocol
  import opened ReplayStore
  import opened FeedRelay
  import opened RelayTurns

  /** Where one retry loop is suspended. */
  datatype Phase =
    | Connecting
    | Reading(cancelled: bool)
    | Returned(intentional: bool, established: bool)
    | Sleeping

  datatype Outage = Dropped | Recovered

  /** The relay, the retry loops alive in it, and what an observer remembers:
      every event ever numbered, what each socket claimed when it connected and
      how long the history was then, and each loop's outage log. */
  datatype System = System(
    relay: Relay,
    loops: seq<Phase>,
    history: seq<BufferedEvent>,
    since: map<SocketId, nat>,
    joined: map<SocketId, nat>,
    lifetimes: seq<seq<Outage>>)

  datatype Step =
    | Subscribe(ws: SocketId, lastSeen: nat)
    | FetchFailed(i: nat)
    | FetchSucceeded(i: nat)
    | ThrewAfterSuccess(i: nat) // an exception between the recovery log and the first read
    | Chunk(i: nat, events: seq<SseEvent>)
    | ConnectionEnded(i: nat)
    | AttemptHandled(i: nat)
    | BackoffOver(i: nat)
    | SocketClosed(ws: SocketId)
    | AlarmWentOff
    | Evicted

  const NEW_OBJECT := Durable(map[], None, false, [], map[], [])
  const INITIAL := System(Hydrated(NEW_OBJECT), [], [], map[], map[], [])

  predicate LoopIs(sys: System, i: nat, p: Phase) {
    i < |sys.loops| && sys.loops[i] == p
  }

  predicate Enabled(sys: System, step: Step) {
    match step
    case Subscribe(ws, _) => ws !in sys.relay.durable.wire && ws !in sys.relay.durable.sockets
    case FetchFailed(i) => LoopIs(sys, i, Connecting)
    case FetchSucceeded(i) => LoopIs(sys, i, Connecting)
    case ThrewAfterSuccess(i) => LoopIs(sys, i, Connecting)
    case Chunk(i, _) => i < |sys.loops| && sys.loops[i].Reading?
    case ConnectionEnded(i) => i < |sys.loops| && sys.loops[i].Reading?
    case AttemptHandled(i) => i < |sys.loops| && sys.loops[i].Returned?
    case BackoffOver(i) => LoopIs(sys, i, Sleeping)
    case SocketClosed(ws) => ws in sys.relay.durable.sockets
    case AlarmWentOff => sys.relay.durable.alarmSet
    case Evicted => true
  }

  function Logged(lifetimes: seq<seq<Outage>>, o: Outage): seq<seq<Outage>> {
    if lifetimes == [] then lifetimes
    else lifetimes[..|lifetimes| - 1] + [lifetimes[|lifetimes| - 1] + [o]]
  }

  function CancelReads(loops: seq<Phase>): (r: seq<Phase>)
    ensures |r| == |loops|
    ensures forall i :: 0 <= i < |r| ==> r[i] == if loops[i].Reading? then Reading(true) else loops[i]
  {
    if loops == [] then []
    else [if loops[0].Reading? then Reading(true) else loops[0]] + CancelReads(loops[1..])
  }

  function Recover(sys: System): System {
    sys.(lifetimes := if sys.relay.outageSignaled then Logged(sys.lifetimes, Recovered) else sys.lifetimes)
  }

  function OnSubscribe(sys: System, ws: SocketId, lastSeen: nat): System {
    System(Connected(sys.relay, ws, lastSeen),
           if sys.relay.upstreamStarted then sys.loops else sys.loops + [Connecting],
           sys.history,
           sys.since[ws := lastSeen],
           sys.joined[ws := |sys.history|],
           if sys.relay.upstreamStarted then sys.lifetimes else sys.lifetimes + [[]])
  }

  function OnChunk(sys: System, events: seq<SseEvent>): System {
    sys.(relay := ChunkRead(sys.relay, events),
         history := sys.history + NumberFrom(sys.relay.nextSeq, events))
  }

  function OnAttemptHandled(sys: System, i: nat, intentional: bool): System
    requires i < |sys.loops|
  {
    sys.(relay := AttemptReturned(sys.relay, intentional),
         loops := if RetriesAfter(sys.relay, intentional) then sys.loops[i := Sleeping]
                  else sys.loops[..i] + sys.loops[i + 1..],
         lifetimes := if !intentional && !sys.relay.outageSignaled then Logged(sys.lifetimes, Dropped)
                      else sys.lifetimes)
  }

  function Next(sys: System, step: Step): System
    requires Enabled(sys, step)
  {
    match step
    case Subscribe(ws, lastSeen) => OnSubscribe(sys, ws, lastSeen)
    case FetchFailed(i) => sys.(loops := sys.loops[i := Returned(false, false)])
    case FetchSucceeded(i) => Recover(sys).(relay := Established(sys.relay), loops := sys.loops[i := Reading(false)])
    case ThrewAfterSuccess(i) =>
      Recover(sys).(relay := Established(sys.relay).(readerLive := sys.relay.readerLive),
                    loops := sys.loops[i := Returned(false, false)])
    case Chunk(_, events) => OnChunk(sys, events)
    case ConnectionEnded(i) =>
      sys.(relay := ReadEnded(sys.relay), loops := sys.loops[i := Returned(sys.relay.intentionalTeardown, true)])
    case AttemptHandled(i) => OnAttemptHandled(sys, i, sys.loops[i].intentional)
    case BackoffOver(i) => sys.(loops := sys.loops[i := Connecting])
    case SocketClosed(ws) => sys.(relay := Closed(sys.relay, ws))
    case AlarmWentOff =>
      sys.(relay := AlarmFired(sys.relay),
           loops := if sys.relay.durable.sockets == [] && sys.relay.readerLive then CancelReads(sys.loops)
                    else sys.loops)
    case Evicted => sys.(relay := Hydrated(sys.relay.durable), loops := [])
  }

  ghost predicate IsRun(steps: seq<Step>)
    decreases |steps|, 0
  {
    steps == [] || (IsRun(steps[..|steps| - 1]) && Enabled(After(steps[..|steps| - 1]), steps[|steps| - 1]))
  }

  ghost function After(steps: seq<Step>): System
    requires IsRun(steps)
    decreases |steps|, 1
  {
    if steps == [] then INITIAL else Next(After(steps[..|steps| - 1]), steps[|steps| - 1])
  }

  // ---------------------------------------------------------------- one upstream loop

  /** At most one loop is alive, the flag says exactly whether one is, and the
      reader is live exactly while that loop reads. */
  ghost predicate OneLoop(sys: System) {
    && |sys.loops| <= 1
    && (sys.relay.upstreamStarted <==> |sys.loops| == 1)
    && (sys.relay.readerLive <==> |sys.loops| == 1 && sys.loops[0].Reading?)
    && (|sys.loops| == 1 && sys.loops[0] == Reading(true) ==> sys.relay.intentionalTeardown)
  }

  lemma OneLoopThroughAttempt(sys: System, step: Step)
    requires OneLoop(sys) && Enabled(sys, step) && step.AttemptHandled?
    ensures OneLoop(Next(sys, step))
  {
    hide SendToAll, Logged;
  }

  lemma OneLoopThroughRead(sys: System, step: Step)
    requires OneLoop(sys) && Enabled(sys, step) && (step.Chunk? || step.ConnectionEnded? || step.AlarmWentOff?)
    ensures OneLoop(Next(sys, step))
  {
    hide Ingested, FlushAll, NumberFrom;
    if step.Chunk? { IngestedFrame(sys.relay, step.events); }
  }

  lemma OneLoopThroughRest(sys: System, step: Step)
    requires OneLoop(sys) && Enabled(sys, step)
    requires !step.AttemptHandled? && !step.Chunk? && !step.ConnectionEnded? && !step.AlarmWentOff?
    ensures OneLoop(Next(sys, step))
  {
    hide ChunkRead, AttemptReturned, CancelReads, SendTo, Greeting, Logged, Without, SelectBySeq;
  }

  lemma OneLoopKept(sys: System, step: Step)
    requires OneLoop(sys) && Enabled(sys, step)
    ensures OneLoop(Next(sys, step))
  {
    hide OneLoop, Next, Enabled;
    match step
    case AttemptHandled(_) => OneLoopThroughAttempt(sys, step);
    case Chunk(_, _) => OneLoopThroughRead(sys, step);
    case ConnectionEnded(_) => OneLoopThroughRead(sys, step);
    case AlarmWentOff => OneLoopThroughRead(sys, step);
    case _ => OneLoopThroughRest(sys, step);
  }

  /** A loop nobody listens to has an idle alarm pending, a teardown already
      asked for, or is about to check whether to give up. */
  ghost predicate IdleWatched(sys: System) {
    sys.loops != [] && sys.relay.durable.sockets == []
    ==> sys.relay.durable.alarmSet || sys.relay.intentionalTeardown || sys.loops[0].Returned?
  }

  lemma IdleThroughAttempt(sys: System, step: Step)
    requires OneLoop(sys) && IdleWatched(sys) && Enabled(sys, step) && step.AttemptHandled?
    ensures IdleWatched(Next(sys, step))
  {
    hide SendToAll, Logged;
  }

  lemma IdleThroughRest(sys: System, step: Step)
    requires OneLoop(sys) && IdleWatched(sys) && Enabled(sys, step) && !step.AttemptHandled?
    ensures IdleWatched(Next(sys, step))
  {
    hide AttemptReturned, CancelReads, SendTo, Greeting, Logged, SelectBySeq, Ingested, FlushAll, NumberFrom;
    if step.Chunk? { IngestedFrame(sys.relay, step.events); }
    if step.AlarmWentOff? { assert |CancelReads(sys.loops)| == |sys.loops|; }
  }

  lemma IdleWatchedKept(sys: System, step: Step)
    requires OneLoop(sys) && IdleWatched(sys) && Enabled(sys, step)
    ensures IdleWatched(Next(sys, step))
  {
    hide OneLoop, IdleWatched, Next, Enabled;
    if step.AttemptHandled? {
      IdleThroughAttempt(sys, step);
    } else {
      IdleThroughRest(sys, step);
    }
  }

  // ---------------------------------------------------------------- outages

  /** (drop recovery)* drop? */
  ghost predicate Alternates(log: seq<Outage>) {
    forall k :: 0 <= k < |log| ==> log[k] == if k % 2 == 0 then Dropped else Recovered
  }

  /** Every loop's outage log alternates; while a loop lives, the flag says
      exactly whether its last drop is still open; and no loop starts with one. */
  ghost predicate OutagesInOrder(sys: System) {
    && (forall k :: 0 <= k < |sys.lifetimes| ==> Alternates(sys.lifetimes[k]))
    && (sys.loops != [] ==> sys.lifetimes != []
                            && (sys.relay.outageSignaled <==> |sys.lifetimes[|sys.lifetimes| - 1]| % 2 == 1))
    && (sys.loops == [] ==> !sys.relay.outageSignaled)
    && (|sys.loops| == 1 && (sys.loops[0].Reading? || (sys.loops[0].Returned? && sys.loops[0].established))
        ==> !sys.relay.outageSignaled)
  }

  lemma LoggedAlternates(lifetimes: seq<seq<Outage>>, o: Outage)
    requires lifetimes != [] && forall k :: 0 <= k < |lifetimes| ==> Alternates(lifetimes[k])
    requires o == if |lifetimes[|lifetimes| - 1]| % 2 == 0 then Dropped else Recovered
    ensures var l := Logged(lifetimes, o);
            && |l| == |lifetimes| && |l[|l| - 1]| == |lifetimes[|lifetimes| - 1]| + 1
            && forall k :: 0 <= k < |l| ==> Alternates(l[k])
  {
    var l := Logged(lifetimes, o);
    forall k | 0 <= k < |l| ensures Alternates(l[k]) {
      if k < |l| - 1 { assert l[k] == lifetimes[k]; }
    }
  }

  lemma RecoveryInOrder(sys: System, step: Step)
    requires OneLoop(sys) && OutagesInOrder(sys) && Enabled(sys, step)
    requires step.FetchSucceeded? || step.ThrewAfterSuccess?
    ensures OutagesInOrder(Next(sys, step))
  {
    if sys.relay.outageSignaled { LoggedAlternates(sys.lifetimes, Recovered); }
    hide Logged, Alternates;
  }

  lemma {:induction false} DropInOrder(sys: System, step: Step)
    requires OneLoop(sys) && OutagesInOrder(sys) && Enabled(sys, step) && step.AttemptHandled?
    ensures OutagesInOrder(Next(sys, step))
  {
    if !sys.loops[step.i].intentional && !sys.relay.outageSignaled { LoggedAlternates(sys.lifetimes, Dropped); }
    hide Logged, Alternates, SendToAll;
  }

  lemma NothingAlternates()
    ensures Alternates([])
  {
  }

  lemma SubscribeInOrder(sys: System, step: Step)
    requires OneLoop(sys) && OutagesInOrder(sys) && Enabled(sys, step) && step.Subscribe?
    ensures OutagesInOrder(Next(sys, step))
  {
    NothingAlternates();
    hide SendTo, Greeting, Alternates;
    if sys.loops == [] {
      assert forall k :: 0 <= k < |sys.lifetimes| ==> (sys.lifetimes + [[]])[k] == sys.lifetimes[k];
    }
  }

  lemma QuietInOrder(sys: System, step: Step)
    requires OneLoop(sys) && OutagesInOrder(sys) && Enabled(sys, step)
    requires step.FetchFailed? || step.ConnectionEnded? || step.BackoffOver? || step.SocketClosed? || step.AlarmWentOff?
             || step.Evicted? || step.Chunk?
    ensures OutagesInOrder(Next(sys, step))
  {
    hide Alternates, Ingested, FlushAll, Without;
    if step.Chunk? { IngestedFrame(sys.relay, step.events); }
  }

  lemma OutagesKept(sys: System, step: Step)
    requires OneLoop(sys) && OutagesInOrder(sys) && Enabled(sys, step)
    ensures OutagesInOrder(Next(sys, step))
  {
    hide Next, OneLoop, OutagesInOrder, Enabled;
    match step
    case FetchSucceeded(_) => RecoveryInOrder(sys, step);
    case ThrewAfterSuccess(_) => RecoveryInOrder(sys, step);
    case AttemptHandled(_) => DropInOrder(sys, step);
    case Subscribe(_, _) => SubscribeInOrder(sys, step);
    case _ => QuietInOrder(sys, step);
  }

  // ---------------------------------------------------------------- the delivery log

  /** The drops and recoveries a delivery log tells of. */
  function Outages(log: seq<LogEntry>): seq<Outage> {
    if log == [] then []
    else Outages(log[..|log| - 1]) + OutageOf(log[|log| - 1])
  }

  function OutageOf(entry: LogEntry): seq<Outage> {
    match entry
    case DropGapLogged(_) => [Dropped]
    case ReconnectLogged => [Recovered]
    case _ => []
  }

  function Joined(lifetimes: seq<seq<Outage>>): seq<Outage> {
    if lifetimes == [] then [] else Joined(lifetimes[..|lifetimes| - 1]) + lifetimes[|lifetimes| - 1]
  }

  /** The delivery log is the loops' outage logs, one after the other. */
  ghost predicate LogInOrder(sys: System) {
    Outages(sys.relay.durable.log) == Joined(sys.lifetimes)
  }

  lemma OutagesSnoc(log: seq<LogEntry>, entry: LogEntry)
    ensures Outages(log + [entry]) == Outages(log) + OutageOf(entry)
  {
    assert (log + [entry])[..|log|] == log;
  }

  lemma LoggedJoins(lifetimes: seq<seq<Outage>>, o: Outage)
    requires lifetimes != []
    ensures Joined(Logged(lifetimes, o)) == Joined(lifetimes) + [o]
  {
    var n := |lifetimes| - 1;
    assert Logged(lifetimes, o)[..n] == lifetimes[..n];
  }

  lemma NewLifetimeJoins(lifetimes: seq<seq<Outage>>)
    ensures Joined(lifetimes + [[]]) == Joined(lifetimes)
  {
    assert (lifetimes + [[]])[..|lifetimes|] == lifetimes;
  }

  lemma BroadcastLog(r: Relay, evt: SseEvent)
    ensures EventBroadcast(r, evt).durable.log == r.durable.log + [EventLogged(r.nextSeq)]
  {
    hide EnqueuedForAll, Trim, Insert, Buffered;
  }

  lemma {:induction false} IngestedLog(r: Relay, events: seq<SseEvent>)
    ensures Outages(Ingested(r, events).durable.log) == Outages(r.durable.log)
    decreases |events|
  {
    hide Outages, EventBroadcast;
    if events != [] {
      var before := Ingested(r, events[..|events| - 1]);
      IngestedLog(r, events[..|events| - 1]);
      BroadcastLog(before, events[|events| - 1]);
      OutagesSnoc(before.durable.log, EventLogged(before.nextSeq));
    }
  }

  lemma AttemptLog(r: Relay, intentional: bool)
    ensures Outages(AttemptReturned(r, intentional).durable.log)
            == Outages(r.durable.log) + (if !intentional && !r.outageSignaled then [Dropped] else [])
  {
    OutagesSnoc(r.durable.log, DropGapLogged(r.nextSeq));
    assert Outages(r.durable.log) + [] == Outages(r.durable.log);
    hide Outages, SendToAll;
  }

  lemma ConnectedLog(r: Relay, ws: SocketId, lastSeen: nat)
    ensures Outages(Connected(r, ws, lastSeen).durable.log) == Outages(r.durable.log)
  {
    var m := Greeting(r.buf, lastSeen);
    if m.Gap? { OutagesSnoc(r.durable.log, EvictionGapLogged(m.oldestAvailableSeq)); }
    hide Outages, SendTo, Greeting;
  }

  lemma EstablishedLog(r: Relay)
    ensures Outages(Established(r).durable.log)
            == Outages(r.durable.log) + (if r.outageSignaled then [Recovered] else [])
  {
    OutagesSnoc(r.durable.log, ReconnectLogged);
    assert Outages(r.durable.log) + [] == Outages(r.durable.log);
    hide Outages;
  }

  /** What a step adds to the delivery log, as far as outages go. */
  lemma StepLogs(sys: System, step: Step)
    requires Enabled(sys, step)
    ensures Outages(Next(sys, step).relay.durable.log)
            == Outages(sys.relay.durable.log)
               + (if (step.FetchSucceeded? || step.ThrewAfterSuccess?) && sys.relay.outageSignaled then [Recovered]
                  else if step.AttemptHandled? && !sys.loops[step.i].intentional && !sys.relay.outageSignaled
                  then [Dropped]
                  else [])
  {
    assert Outages(sys.relay.durable.log) + [] == Outages(sys.relay.durable.log);
    EstablishedLog(sys.relay);
    hide Outages, Established, Connected, AttemptReturned, Logged, CancelReads, Without, LoopIs, Ingested;
    hide SelectBySeq, FlushAll;
    match step
    case Chunk(_, events) => IngestedLog(sys.relay, events);
    case Subscribe(ws, lastSeen) => ConnectedLog(sys.relay, ws, lastSeen);
    case AttemptHandled(i) => AttemptLog(sys.relay, sys.loops[i].intentional);
    case _ =>
  }

  lemma RecoveryLifetimes(sys: System, step: Step)
    requires sys.lifetimes != [] && Enabled(sys, step) && (step.FetchSucceeded? || step.ThrewAfterSuccess?)
    ensures Joined(Next(sys, step).lifetimes)
            == Joined(sys.lifetimes) + (if sys.relay.outageSignaled then [Recovered] else [])
  {
    LoggedJoins(sys.lifetimes, Recovered);
    hide Joined, Logged, Established;
  }

  lemma DropLifetimes(sys: System, step: Step)
    requires sys.lifetimes != [] && Enabled(sys, step) && step.AttemptHandled?
    ensures Joined(Next(sys, step).lifetimes)
            == Joined(sys.lifetimes)
               + (if !sys.loops[step.i].intentional && !sys.relay.outageSignaled then [Dropped] else [])
  {
    LoggedJoins(sys.lifetimes, Dropped);
    hide Joined, Logged, AttemptReturned;
  }

  lemma OtherLifetimes(sys: System, step: Step)
    requires Enabled(sys, step) && !step.FetchSucceeded? && !step.ThrewAfterSuccess? && !step.AttemptHandled?
    ensures Joined(Next(sys, step).lifetimes) == Joined(sys.lifetimes)
  {
    NewLifetimeJoins(sys.lifetimes);
    hide Joined, CancelReads, ChunkRead, Connected, Closed, NumberFrom, LoopIs;
  }

  lemma LoopHasLifetime(sys: System, step: Step)
    requires OutagesInOrder(sys) && Enabled(sys, step)
    requires step.FetchSucceeded? || step.ThrewAfterSuccess? || step.AttemptHandled?
    ensures sys.lifetimes != []
  {
  }

  lemma StepLifetimes(sys: System, step: Step)
    requires OutagesInOrder(sys) && Enabled(sys, step)
    ensures Joined(Next(sys, step).lifetimes)
            == Joined(sys.lifetimes)
               + (if (step.FetchSucceeded? || step.ThrewAfterSuccess?) && sys.relay.outageSignaled then [Recovered]
                  else if step.AttemptHandled? && !sys.loops[step.i].intentional && !sys.relay.outageSignaled
                  then [Dropped]
                  else [])
  {
    hide OutagesInOrder, Next;
    if step.FetchSucceeded? || step.ThrewAfterSuccess? {
      LoopHasLifetime(sys, step);
      RecoveryLifetimes(sys, step);
    } else if step.AttemptHandled? {
      LoopHasLifetime(sys, step);
      DropLifetimes(sys, step);
    } else {
      OtherLifetimes(sys, step);
    }
  }

  lemma LogKept(sys: System, step: Step)
    requires OneLoop(sys) && OutagesInOrder(sys) && LogInOrder(sys) && Enabled(sys, step)
    ensures LogInOrder(Next(sys, step))
  {
    hide Outages, Joined, Next, OneLoop, OutagesInOrder;
    StepLogs(sys, step);
    StepLifetimes(sys, step);
  }
}

/** The relay together with any number of clients that read what they are sent,
    drop connections, and resume from what they have seen. */
module EndToEnd {
  import opened Options
  import opened Protocol
  import opened ReplayStore
  import opened FeedRelay
  import opened RelayTurns
  import opened RelayRuns
  import opened RelayStreams
  import opened Subscribers
  import opened Honesty
  import Metrics

  /** A client with one connection at a time: everything it has heard, and how
      much of its present connection it has read. */
  datatype Reader = Reader(heard: seq<Message>, ws: Option<SocketId>, pos: nat)

  /** What a resume agent remembers of one of its connections. */
  datatype Connection = Connection(expectedFirst: nat, pos: nat)

  /** A resume agent: it opens a connection without waiting for the last one to
      close, and goes on hearing both. */
  datatype Agent = Agent(state: Resume, connections: map<SocketId, Connection>)

  datatype World = World(sys: System, readers: map<nat, Reader>, agents: map<nat, Agent>)

  datatype WorldStep =
    | RelayMoves(step: Step)
    | ReaderConnects(c: nat, ws: SocketId)
    | ReaderReads(c: nat)
    | AgentConnects(a: nat, ws: SocketId)
    | AgentReads(a: nat, ws: SocketId)

  const EMPTY_WORLD := World(INITIAL, map[], map[])

  function ReaderOf(w: World, c: nat): Reader {
    if c in w.readers then w.readers[c] else Reader([], None, 0)
  }

  function AgentOf(w: World, a: nat): Agent {
    if a in w.agents then w.agents[a] else Agent(RESUME_START, map[])
  }

  predicate Possible(w: World, s: WorldStep) {
    match s
    case RelayMoves(step) => Enabled(w.sys, step)
    case ReaderConnects(c, ws) => Enabled(w.sys, Subscribe(ws, Seen(ReaderOf(w, c).heard)))
    case ReaderReads(c) =>
      var r := ReaderOf(w, c);
      r.ws.Some? && r.pos < |Wire(w.sys, r.ws.value)|
    case AgentConnects(a, ws) => Enabled(w.sys, Subscribe(ws, AgentOf(w, a).state.lastSeen))
    case AgentReads(a, ws) =>
      var agent := AgentOf(w, a);
      ws in agent.connections && agent.connections[ws].pos < |Wire(w.sys, ws)|
  }

  function ReadOn(sys: System, r: Reader): Reader
    requires r.ws.Some? && r.pos < |Wire(sys, r.ws.value)|
  {
    Reader(r.heard + [Wire(sys, r.ws.value)[r.pos]], r.ws, r.pos + 1)
  }

  function AgentReadOn(sys: System, agent: Agent, ws: SocketId): Agent
    requires ws in agent.connections && agent.connections[ws].pos < |Wire(sys, ws)|
  {
    var conn := agent.connections[ws];
    Agent(Resumed(agent.state, conn.expectedFirst, Wire(sys, ws)[conn.pos]),
          agent.connections[ws := conn.(pos := conn.pos + 1)])
  }

  function Turn(w: World, s: WorldStep): World
    requires Possible(w, s)
  {
    match s
    case RelayMoves(step) => w.(sys := Next(w.sys, step))
    case ReaderConnects(c, ws) =>
      var r := ReaderOf(w, c);
      w.(sys := Next(w.sys, Subscribe(ws, Seen(r.heard))), readers := w.readers[c := Reader(r.heard, Some(ws), 0)])
    case ReaderReads(c) => w.(readers := w.readers[c := ReadOn(w.sys, ReaderOf(w, c))])
    case AgentConnects(a, ws) =>
      var agent := AgentOf(w, a);
      w.(sys := Next(w.sys, Subscribe(ws, agent.state.lastSeen)),
         agents := w.agents[
           a := agent.(connections := agent.connections[ws := Connection(agent.state.lastSeen + 1, 0)])])
    case AgentReads(a, ws) => w.(agents := w.agents[a := AgentReadOn(w.sys, AgentOf(w, a), ws)])
  }

  ghost predicate IsHappening(steps: seq<WorldStep>)
    decreases |steps|, 0
  {
    steps == []
    || (IsHappening(steps[..|steps| - 1]) && Possible(WorldAfter(steps[..|steps| - 1]), steps[|steps| - 1]))
  }

  ghost function WorldAfter(steps: seq<WorldStep>): World
    requires IsHappening(steps)
    decreases |steps|, 1
  {
    if steps == [] then EMPTY_WORLD else Turn(WorldAfter(steps[..|steps| - 1]), steps[|steps| - 1])
  }

  // ---------------------------------------------------------------- the relay only ever adds

  /** A later system: streams and the history have only grown, and what was
      remembered about each socket is unchanged. */
  ghost predicate Grows(s: System, t: System) {
    && s.history <= t.history
    && forall ws :: ws in s.relay.durable.wire ==> StreamGrows(s, t, ws)
  }

  ghost predicate StreamGrows(s: System, t: System, ws: SocketId) {
    && ws in t.relay.durable.wire && Wire(s, ws) <= Wire(t, ws)
    && ws in s.since && ws in t.since && t.since[ws] == s.since[ws]
    && ws in s.joined && ws in t.joined && t.joined[ws] == s.joined[ws]
  }

  lemma StepGrowsStream(sys: System, step: Step, ws: SocketId)
    requires SocketsInOrder(sys) && Enabled(sys, step) && ws in sys.relay.durable.wire
    ensures StreamGrows(sys, Next(sys, step), ws)
  {
    StepSends(sys, step, ws);
    StepRecords(sys, step);
    hide Next, SentBy, Quiet, Distinct, Wire, NumberFrom;
  }

  lemma StepGrows(sys: System, step: Step)
    requires SocketsInOrder(sys) && Enabled(sys, step)
    ensures Grows(sys, Next(sys, step))
  {
    StepRecords(sys, step);
    hide Next, StreamGrows, NumberFrom, SocketsInOrder;
    forall ws | ws in sys.relay.durable.wire ensures StreamGrows(sys, Next(sys, step), ws) {
      StepGrowsStream(sys, step, ws);
    }
  }

  // ---------------------------------------------------------------- one reader

  /** The events of a message are the history's own. */
  ghost predicate Genuine(m: Message, h: seq<BufferedEvent>) {
    match m
    case Replay(events) =>
      forall i :: 0 <= i < |events| ==> 0 < events[i].seqNo <= |h| && h[events[i].seqNo - 1] == events[i]
    case Gap(_) => true
    case Live(e) => 0 < e.seqNo <= |h| && h[e.seqNo - 1] == e
  }

  ghost predicate AllGenuine(heard: seq<Message>, h: seq<BufferedEvent>) {
    forall p :: 0 <= p < |heard| ==> Genuine(heard[p], h)
  }

  /** How far a reader that resumed from what it had seen has come on a socket. */
  ghost predicate Following(sys: System, ws: SocketId, pos: nat, heard: seq<Message>) {
    && ws in sys.relay.durable.wire && ws in sys.since && ws in sys.joined
    && pos <= |Wire(sys, ws)| && sys.since[ws] <= sys.joined[ws]
    && if pos == 0 then Seen(heard) == sys.since[ws]
       else heard != [] && heard[|heard| - 1] == Wire(sys, ws)[pos - 1]
            && CursorAfter(sys.since[ws], Wire(sys, ws)[..pos]).next == Seen(heard) + 1
  }

  ghost predicate ReaderOk(sys: System, r: Reader) {
    && Honest(r.heard)
    && Seen(r.heard) <= |sys.history|
    && AllGenuine(r.heard, sys.history)
    && (r.ws.Some? ==> Following(sys, r.ws.value, r.pos, r.heard))
  }

  lemma GenuineInLonger(m: Message, h: seq<BufferedEvent>, longer: seq<BufferedEvent>)
    requires Genuine(m, h) && h <= longer
    ensures Genuine(m, longer)
  {
  }

  lemma FollowingInLater(s: System, t: System, ws: SocketId, pos: nat, heard: seq<Message>)
    requires Following(s, ws, pos, heard) && StreamGrows(s, t, ws)
    ensures Following(t, ws, pos, heard)
  {
    hide Wire, CursorAfter, Seen;
    assert Wire(t, ws)[..pos] == Wire(s, ws)[..pos];
  }

  lemma {:induction false} ReaderInLater(s: System, t: System, r: Reader)
    requires ReaderOk(s, r) && Grows(s, t)
    ensures ReaderOk(t, r)
  {
    hide Honest, Seen, Following, StreamGrows, Genuine;
    forall p | 0 <= p < |r.heard| ensures Genuine(r.heard[p], t.history) {
      GenuineInLonger(r.heard[p], s.history, t.history);
    }
    if r.ws.Some? {
      assert r.ws.value in s.relay.durable.wire by { FollowingKnown(s, r.ws.value, r.pos, r.heard); }
      FollowingInLater(s, t, r.ws.value, r.pos, r.heard);
    }
  }

  lemma FollowingKnown(s: System, ws: SocketId, pos: nat, heard: seq<Message>)
    requires Following(s, ws, pos, heard)
    ensures ws in s.relay.durable.wire
  {
  }

  lemma GreetingHeard(m: Message, seen: nat, joined: nat, h: seq<BufferedEvent>)
    requires IsHistory(h) && seen <= joined <= |h|
    requires m == Greeting(LastN(h[..joined], REPLAY_CAPACITY), seen)
    ensures match m
            case Replay(events) => events == h[seen..joined]
            case Gap(k) => seen < k <= joined
            case Live(_) => false
  {
    assert IsHistory(h[..joined]);
    GreetingExact(h[..joined], REPLAY_CAPACITY, seen);
    hide Greeting, LastN;
  }

  lemma ReplayHeard(h: seq<BufferedEvent>, seen: nat, joined: nat, resync: bool)
    requires IsHistory(h) && seen <= joined <= |h|
    ensures MayHear(seen, resync, Replay(h[seen..joined])) && Genuine(Replay(h[seen..joined]), h)
  {
  }

  /** The answer a resuming reader gets. */
  lemma FirstHeard(m: Message, seen: nat, resync: bool, joined: nat, h: seq<BufferedEvent>)
    requires IsHistory(h) && seen <= joined <= |h|
    requires m == Greeting(LastN(h[..joined], REPLAY_CAPACITY), seen)
    ensures MayHear(seen, resync, m) && Genuine(m, h) && !m.Live?
    ensures SeenAfter(seen, m) <= |h| && FirstCursor(seen, m).next == SeenAfter(seen, m) + 1
  {
    GreetingHeard(m, seen, joined, h);
    ReplayHeard(h, seen, joined, resync);
    hide Greeting, LastN, IsHistory, SeenAfter;
    assert MayHear(seen, resync, m);
    SeenExactly(seen, resync, m);
  }

  lemma LooseAfterGap(base: nat, sent: seq<Message>, h: seq<BufferedEvent>)
    requires sent != [] && !CursorAfter(base, sent).exact
    ensures sent[|sent| - 1].Gap?
  {
  }

  /** Whatever may follow in a stream, a reader in step with it may hear. */
  lemma NextHeard(c: Cursor, m: Message, h: seq<BufferedEvent>, seen: nat, resync: bool)
    requires MayFollow(c, m, h) && c.next == seen + 1 && (!c.exact ==> resync)
    ensures MayHear(seen, resync, m) && Genuine(m, h)
    ensures SeenAfter(seen, m) <= |h| && Advance(c, m).next == SeenAfter(seen, m) + 1
  {
    SeenExactly(seen, resync, m);
  }

  /** What reading one more message of a followed stream does. */
  lemma ReadNext(sys: System, ws: SocketId, pos: nat, heard: seq<Message>)
    requires Following(sys, ws, pos, heard) && pos < |Wire(sys, ws)| && IsHistory(sys.history)
    requires sys.joined[ws] <= |sys.history|
    requires StreamOk(Wire(sys, ws), ws in sys.relay.durable.sockets, sys.since[ws], sys.joined[ws], sys.history)
    ensures var m := Wire(sys, ws)[pos];
            && MayHear(Seen(heard), EndsInGap(heard), m) && Genuine(m, sys.history)
            && SeenAfter(Seen(heard), m) <= |sys.history|
            && CursorAfter(sys.since[ws], Wire(sys, ws)[..pos + 1]).next == SeenAfter(Seen(heard), m) + 1
  {
    var sent, m := Wire(sys, ws), Wire(sys, ws)[pos];
    hide Wire, Greeting, MayHear, SeenAfter, Seen, IsHistory, MayFollow;
    if pos == 0 {
      FirstHeard(m, Seen(heard), EndsInGap(heard), sys.joined[ws], sys.history);
      assert sent[..1] == [m];
    } else {
      var c := CursorAfter(sys.since[ws], sent[..pos]);
      if !c.exact { LooseAfterGap(sys.since[ws], sent[..pos], sys.history); }
      assert sent[..pos + 1] == sent[..pos] + [m];
      CursorSnoc(sys.since[ws], sent[..pos], m);
      hide CursorAfter;
      assert MayFollow(c, m, sys.history);
      NextHeard(c, m, sys.history, Seen(heard), EndsInGap(heard));
    }
  }

  lemma InvStream(sys: System, ws: SocketId)
    requires Inv(sys) && ws in sys.relay.durable.wire
    ensures ws in sys.since && ws in sys.joined && IsHistory(sys.history) && sys.joined[ws] <= |sys.history|
    ensures StreamOk(Wire(sys, ws), ws in sys.relay.durable.sockets, sys.since[ws], sys.joined[ws], sys.history)
  {
    hide OneLoop, IdleWatched, OutagesInOrder, LogInOrder, Legal, Wire, Greeting, CursorAfter, Quiet, Distinct;
  }

  lemma AllGenuineSnoc(heard: seq<Message>, m: Message, h: seq<BufferedEvent>)
    requires AllGenuine(heard, h) && Genuine(m, h)
    ensures AllGenuine(heard + [m], h)
  {
    hide Genuine;
  }

  lemma FollowingRead(sys: System, ws: SocketId, pos: nat, heard: seq<Message>)
    requires Following(sys, ws, pos, heard) && pos < |Wire(sys, ws)|
    requires var m := Wire(sys, ws)[pos];
             CursorAfter(sys.since[ws], Wire(sys, ws)[..pos + 1]).next == SeenAfter(Seen(heard), m) + 1
    ensures Following(sys, ws, pos + 1, heard + [Wire(sys, ws)[pos]])
  {
    SeenSnoc(heard, Wire(sys, ws)[pos]);
    hide Seen, SeenAfter, CursorAfter, Wire;
  }

  /** The same, in any system that keeps the invariant. */
  lemma {:induction false} ReadNextKept(sys: System, ws: SocketId, pos: nat, heard: seq<Message>)
    requires Inv(sys) && Following(sys, ws, pos, heard) && pos < |Wire(sys, ws)|
    ensures var m := Wire(sys, ws)[pos];
            && MayHear(Seen(heard), EndsInGap(heard), m) && Genuine(m, sys.history)
            && SeenAfter(Seen(heard), m) <= |sys.history|
            && Following(sys, ws, pos + 1, heard + [m])
  {
    FollowingKnown(sys, ws, pos, heard);
    InvStream(sys, ws);
    ReadNext(sys, ws, pos, heard);
    FollowingRead(sys, ws, pos, heard);
    hide *;
  }

  lemma ReaderOkExactly(sys: System, r: Reader)
    ensures ReaderOk(sys, r)
            <==> Honest(r.heard) && Seen(r.heard) <= |sys.history| && AllGenuine(r.heard, sys.history)
                 && (r.ws.Some? ==> Following(sys, r.ws.value, r.pos, r.heard))
  {
  }

  lemma ReaderReadOk(sys: System, r: Reader)
    requires Inv(sys) && ReaderOk(sys, r) && r.ws.Some? && r.pos < |Wire(sys, r.ws.value)|
    ensures ReaderOk(sys, ReadOn(sys, r))
  {
    var m := Wire(sys, r.ws.value)[r.pos];
    assert ReadOn(sys, r) == Reader(r.heard + [m], r.ws, r.pos + 1);
    hide *;
    ReaderOkExactly(sys, r);
    ReaderOkExactly(sys, ReadOn(sys, r));
    ReadNextKept(sys, r.ws.value, r.pos, r.heard);
    HonestSnoc(r.heard, m);
    SeenSnoc(r.heard, m);
    AllGenuineSnoc(r.heard, m, sys.history);
  }

  lemma ReaderConnectOk(sys: System, r: Reader, ws: SocketId)
    requires Inv(sys) && ReaderOk(sys, r) && Enabled(sys, Subscribe(ws, Seen(r.heard)))
    ensures ReaderOk(Next(sys, Subscribe(ws, Seen(r.heard))), Reader(r.heard, Some(ws), 0))
  {
    var step := Subscribe(ws, Seen(r.heard));
    StepGrows(sys, step);
    ReaderInLater(sys, Next(sys, step), r);
    StepSends(sys, step, ws);
    StepRecords(sys, step);
    hide Inv, Honest, Seen, AllGenuine, Next, Wire, SentBy, Grows, CursorAfter, Enabled;
  }

  // ---------------------------------------------------------------- one resume agent

  predicate IsError(a: ResumeAction) {
    a.InternalGap? || a.WrongStart?
  }

  ghost predicate Faultless(actions: seq<ResumeAction>) {
    forall k :: 0 <= k < |actions| ==> !IsError(actions[k])
  }

  ghost predicate AgentOk(sys: System, agent: Agent) {
    && Faultless(agent.state.actions)
    && forall ws :: ws in agent.connections ==> ConnectionOk(sys, ws, agent.connections[ws])
  }

  ghost predicate ConnectionOk(sys: System, ws: SocketId, conn: Connection) {
    ws in sys.relay.durable.wire && ws in sys.since && conn.expectedFirst == sys.since[ws] + 1
  }

  lemma AgentInLater(s: System, t: System, agent: Agent)
    requires AgentOk(s, agent) && Grows(s, t)
    ensures AgentOk(t, agent)
  {
    hide Faultless, Wire;
    forall ws | ws in agent.connections ensures ConnectionOk(t, ws, agent.connections[ws]) {
      assert ConnectionOk(s, ws, agent.connections[ws]);
      assert StreamGrows(s, t, ws);
    }
  }

  lemma HoleNone(events: seq<BufferedEvent>)
    requires forall i :: 0 < i < |events| ==> events[i].seqNo == events[i - 1].seqNo + 1
    ensures HoleFrom(events, 1).None?
  {
    HoleFromExactly(events, 1);
  }

  /** An answer starts where its claim ends, whatever was claimed. */
  lemma AnswerVerified(m: Message, since: nat, connected: bool, joined: nat, h: seq<BufferedEvent>)
    requires IsHistory(h) && joined <= |h| && m == Greeting(LastN(h[..joined], REPLAY_CAPACITY), since)
    ensures m.Replay? ==> Faultless(Verdict(connected, since + 1, m.events))
  {
    assert IsHistory(h[..joined]);
    GreetingExact(h[..joined], REPLAY_CAPACITY, since);
    hide Greeting;
    if m.Replay? {
      HoleNone(m.events);
    }
  }

  lemma ResumedAppends(state: Resume, expectedFirst: nat, m: Message)
    requires Faultless(state.actions)
    requires m.Replay? ==> Faultless(Verdict(state.hasConnectedBefore, expectedFirst, m.events))
    ensures Faultless(Resumed(state, expectedFirst, m).actions)
  {
    hide Verdict;
  }

  lemma LaterIsNoReplay(base: nat, sent: seq<Message>, h: seq<BufferedEvent>, p: nat)
    requires Legal(base, sent, h) && 0 < p < |sent|
    ensures !sent[p].Replay?
  {
    hide CursorAfter;
    assert MayFollow(CursorAfter(base, sent[..p]), sent[p], h);
  }

  lemma StreamParts(sent: seq<Message>, isOpen: bool, since: nat, joined: nat, h: seq<BufferedEvent>)
    requires StreamOk(sent, isOpen, since, joined, h)
    ensures joined <= |h| && sent != [] && Legal(Base(since, joined), sent, h)
    ensures sent[0] == Greeting(LastN(h[..joined], REPLAY_CAPACITY), since)
  {
    hide Legal, CursorAfter, Greeting, LastN;
  }

  lemma ResumedFaultless(sys: System, ws: SocketId, pos: nat, state: Resume)
    requires Inv(sys) && ws in sys.relay.durable.wire && ws in sys.since && pos < |Wire(sys, ws)|
    requires Faultless(state.actions)
    ensures Faultless(Resumed(state, sys.since[ws] + 1, Wire(sys, ws)[pos]).actions)
  {
    hide *;
    InvStream(sys, ws);
    var since, joined := sys.since[ws], sys.joined[ws];
    StreamParts(Wire(sys, ws), ws in sys.relay.durable.sockets, since, joined, sys.history);
    if pos == 0 {
      AnswerVerified(Wire(sys, ws)[0], since, state.hasConnectedBefore, joined, sys.history);
    } else {
      LaterIsNoReplay(Base(since, joined), Wire(sys, ws), sys.history, pos);
    }
    ResumedAppends(state, since + 1, Wire(sys, ws)[pos]);
  }

  lemma AgentReadOk(sys: System, agent: Agent, ws: SocketId)
    requires Inv(sys) && AgentOk(sys, agent)
    requires ws in agent.connections && agent.connections[ws].pos < |Wire(sys, ws)|
    ensures AgentOk(sys, AgentReadOn(sys, agent, ws))
  {
    hide Inv, Wire, Faultless, Resumed;
    var conn := agent.connections[ws];
    assert ConnectionOk(sys, ws, conn);
    ResumedFaultless(sys, ws, conn.pos, agent.state);
  }

  lemma AgentConnectOk(sys: System, agent: Agent, ws: SocketId)
    requires Inv(sys) && AgentOk(sys, agent) && Enabled(sys, Subscribe(ws, agent.state.lastSeen))
    ensures AgentOk(Next(sys, Subscribe(ws, agent.state.lastSeen)),
                    agent.(connections := agent.connections[ws := Connection(agent.state.lastSeen + 1, 0)]))
  {
    var step := Subscribe(ws, agent.state.lastSeen);
    StepGrows(sys, step);
    AgentInLater(sys, Next(sys, step), agent);
    StepSends(sys, step, ws);
    StepRecords(sys, step);
    hide Inv, Next, Wire, SentBy, Grows, Faultless, Enabled;
  }

  // ---------------------------------------------------------------- every run of the whole

  ghost predicate ReadersOk(w: World) {
    forall c :: c in w.readers ==> ReaderOk(w.sys, w.readers[c])
  }

  ghost predicate AgentsOk(w: World) {
    forall a :: a in w.agents ==> AgentOk(w.sys, w.agents[a])
  }

  ghost predicate WorldInv(w: World) {
    Inv(w.sys) && ReadersOk(w) && AgentsOk(w)
  }

  lemma {:induction false} EverybodyInLater(w: World, t: System)
    requires ReadersOk(w) && AgentsOk(w) && Grows(w.sys, t)
    ensures ReadersOk(w.(sys := t)) && AgentsOk(w.(sys := t))
  {
    hide ReaderOk, AgentOk, Grows;
    forall c | c in w.readers ensures ReaderOk(t, w.readers[c]) { ReaderInLater(w.sys, t, w.readers[c]); }
    forall a | a in w.agents ensures AgentOk(t, w.agents[a]) { AgentInLater(w.sys, t, w.agents[a]); }
  }

  lemma NewcomersOk(w: World, c: nat)
    requires ReadersOk(w) && AgentsOk(w)
    ensures ReaderOk(w.sys, ReaderOf(w, c)) && AgentOk(w.sys, AgentOf(w, c))
  {
    hide Following;
  }

  /** A step of the relay, whoever asked for it. */
  lemma {:induction false} MoveOk(w: World, step: Step)
    requires WorldInv(w) && Enabled(w.sys, step)
    ensures WorldInv(w.(sys := Next(w.sys, step)))
  {
    InvKept(w.sys, step);
    assert SocketsInOrder(w.sys);
    hide Inv, Next, ReadersOk, AgentsOk, Grows, SocketsInOrder, Enabled;
    StepGrows(w.sys, step);
    EverybodyInLater(w, Next(w.sys, step));
  }

  lemma {:induction false} TurnOk(w: World, s: WorldStep)
    requires WorldInv(w) && Possible(w, s)
    ensures WorldInv(Turn(w, s))
  {
    hide Inv, Next, ReaderOk, AgentOk, Enabled, Seen, Wire, ReadOn, AgentReadOn;
    match s
    case RelayMoves(step) => MoveOk(w, step);
    case ReaderConnects(c, ws) =>
      NewcomersOk(w, c);
      MoveOk(w, Subscribe(ws, Seen(ReaderOf(w, c).heard)));
      ReaderConnectOk(w.sys, ReaderOf(w, c), ws);
    case ReaderReads(c) =>
      NewcomersOk(w, c);
      ReaderReadOk(w.sys, ReaderOf(w, c));
    case AgentConnects(a, ws) =>
      NewcomersOk(w, a);
      MoveOk(w, Subscribe(ws, AgentOf(w, a).state.lastSeen));
      AgentConnectOk(w.sys, AgentOf(w, a), ws);
    case AgentReads(a, ws) =>
      NewcomersOk(w, a);
      AgentReadOk(w.sys, AgentOf(w, a), ws);
  }

  lemma {:induction false} WorldAlways(steps: seq<WorldStep>)
    requires IsHappening(steps)
    ensures WorldInv(WorldAfter(steps))
    decreases |steps|
  {
    if steps == [] {
      InvInitially();
      hide Inv;
    } else {
      hide WorldInv, Turn, Possible;
      WorldAlways(steps[..|steps| - 1]);
      TurnOk(WorldAfter(steps[..|steps| - 1]), steps[|steps| - 1]);
    }
  }

  // ---------------------------------------------------------------- what every run guarantees

  /** The messages a run recorded, in any interleaving: each client's own are
      what it recorded, in order, and nobody else recorded any. */
  ghost predicate RecordsOf(messages: seq<Metrics.Received>, w: World) {
    forall c :: RecordOf(messages, w, c)
  }

  ghost predicate RecordOf(messages: seq<Metrics.Received>, w: World, c: nat) {
    Metrics.Of(messages, c) == Recorded(c, ReaderOf(w, c).heard)
  }

  lemma OneRecordPasses(messages: seq<Metrics.Received>, w: World, c: nat)
    requires WorldInv(w) && RecordOf(messages, w, c)
    ensures Metrics.ClientPasses(messages, c)
  {
    NewcomersOk(w, c);
    HonestPasses(c, ReaderOf(w, c).heard);
  }

  /** Every run, of any number of clients that drop and resume at will, is one
      the analysis finds no violation in. */
  lemma {:induction false} EveryRunPasses(steps: seq<WorldStep>, messages: seq<Metrics.Received>)
    requires IsHappening(steps) && RecordsOf(messages, WorldAfter(steps))
    ensures Metrics.Faults(Metrics.Clients(messages), messages) == []
  {
    WorldAlways(steps);
    hide WorldInv, WorldAfter, IsHappening, RecordOf, Metrics.ClientPasses;
    forall c ensures Metrics.ClientPasses(messages, c) {
      assert RecordOf(messages, WorldAfter(steps), c);
      OneRecordPasses(messages, WorldAfter(steps), c);
    }
    Metrics.FaultsNone(messages);
  }

  /** What one step adds to the log of everything received, as it happens. */
  function Noted(w: World, s: WorldStep): seq<Metrics.Received>
    requires Possible(w, s)
  {
    match s
    case ReaderReads(c) =>
      var r := ReaderOf(w, c);
      [Metrics.Received(c, BodyOf(Wire(w.sys, r.ws.value)[r.pos]))]
    case _ => []
  }

  ghost function Chronicle(steps: seq<WorldStep>): seq<Metrics.Received>
    requires IsHappening(steps)
    decreases |steps|
  {
    if steps == [] then []
    else Chronicle(steps[..|steps| - 1]) + Noted(WorldAfter(steps[..|steps| - 1]), steps[|steps| - 1])
  }

  lemma OfSnoc(ms: seq<Metrics.Received>, m: Metrics.Received, c: nat)
    ensures Metrics.Of(ms + [m], c) == Metrics.Of(ms, c) + (if m.client == c then [m] else [])
  {
    assert (ms + [m])[..|ms|] == ms;
  }

  lemma RecordedSnoc(c: nat, heard: seq<Message>, m: Message)
    ensures Recorded(c, heard + [m]) == Recorded(c, heard) + [Metrics.Received(c, BodyOf(m))]
  {
    assert (heard + [m])[..|heard|] == heard;
  }

  /** Only a client's own read adds to what it has heard. */
  lemma TurnHeard(w: World, s: WorldStep, c: nat)
    requires Possible(w, s)
    ensures ReaderOf(Turn(w, s), c).heard
            == if s == ReaderReads(c) then ReadOn(w.sys, ReaderOf(w, c)).heard else ReaderOf(w, c).heard
  {
    hide Next, Wire, Seen, Enabled, AgentReadOn;
  }

  lemma RecordExtends(messages: seq<Metrics.Received>, c: nat, heard: seq<Message>, client: nat, m: Message)
    requires Metrics.Of(messages, c) == Recorded(c, heard)
    ensures Metrics.Of(messages + [Metrics.Received(client, BodyOf(m))], c)
            == Recorded(c, if client == c then heard + [m] else heard)
  {
    OfSnoc(messages, Metrics.Received(client, BodyOf(m)), c);
    RecordedSnoc(c, heard, m);
    hide *;
  }

  lemma TurnNoted(w: World, s: WorldStep, messages: seq<Metrics.Received>, c: nat)
    requires RecordOf(messages, w, c) && Possible(w, s)
    ensures RecordOf(messages + Noted(w, s), Turn(w, s), c)
  {
    TurnHeard(w, s, c);
    if s.ReaderReads? {
      var r := ReaderOf(w, s.c);
      RecordExtends(messages, c, ReaderOf(w, c).heard, s.c, Wire(w.sys, r.ws.value)[r.pos]);
    } else {
      assert messages + Noted(w, s) == messages;
    }
    hide Turn, ReaderOf, BodyOf, Enabled, Wire, Seen, Recorded;
  }

  lemma {:induction false} ChronicleRecords(steps: seq<WorldStep>)
    requires IsHappening(steps)
    ensures RecordsOf(Chronicle(steps), WorldAfter(steps))
    decreases |steps|
  {
    if steps != [] {
      var before, last := WorldAfter(steps[..|steps| - 1]), steps[|steps| - 1];
      ChronicleRecords(steps[..|steps| - 1]);
      hide RecordOf, Turn, Noted, Possible;
      forall c ensures RecordOf(Chronicle(steps), WorldAfter(steps), c) {
        assert RecordOf(Chronicle(steps[..|steps| - 1]), before, c);
        TurnNoted(before, last, Chronicle(steps[..|steps| - 1]), c);
      }
    }
  }

  /** In particular the log of everything received, in the order it arrived. */
  lemma {:induction false} EveryChroniclePasses(steps: seq<WorldStep>)
    requires IsHappening(steps)
    ensures Metrics.Faults(Metrics.Clients(Chronicle(steps)), Chronicle(steps)) == []
  {
    hide *;
    ChronicleRecords(steps);
    EveryRunPasses(steps, Chronicle(steps));
  }

  /** Every seq a client claims to have seen was either delivered to it, as the
      event the relay numbered with it, or told to it as lost by a gap that came
      before it had passed that seq, and never both. */
  lemma EverySeqAccounted(steps: seq<WorldStep>, c: nat, s: nat)
    requires IsHappening(steps) && 0 < s <= Seen(ReaderOf(WorldAfter(steps), c).heard)
    ensures var w := WorldAfter(steps);
            s <= |w.sys.history| && AllGenuine(ReaderOf(w, c).heard, w.sys.history)
            && (Carried(ReaderOf(w, c).heard, s) <==> !Lost(ReaderOf(w, c).heard, s))
  {
    WorldAlways(steps);
    NewcomersOk(WorldAfter(steps), c);
    hide WorldInv, WorldAfter, IsHappening, Honest, AllGenuine, Carried, Lost, Seen;
    DeliveredOrLost(ReaderOf(WorldAfter(steps), c).heard, s);
  }

  lemma ReadToTheEnd(sys: System, r: Reader)
    requires Inv(sys) && ReaderOk(sys, r) && r.ws.Some? && r.ws.value in sys.relay.durable.sockets
    requires r.pos == |Wire(sys, r.ws.value)|
    ensures Seen(r.heard) == |sys.history| || (r.pos == 1 && EndsInGap(r.heard))
  {
    var ws := r.ws.value;
    var sent := Wire(sys, ws);
    FollowingKnown(sys, ws, r.pos, r.heard);
    InvStream(sys, ws);
    assert sent[..|sent|] == sent;
    if !CursorAfter(sys.since[ws], sent).exact { LooseIsAnswer(sys.since[ws], sent); }
    hide Inv, Honest, AllGenuine, Seen, Wire, Legal, CursorAfter, Greeting;
  }

  lemma LooseIsAnswer(base: nat, sent: seq<Message>)
    requires sent != [] && !CursorAfter(base, sent).exact
    ensures |sent| == 1 && sent[0].Gap?
  {
  }

  /** Nothing is held back: a client that has read all that its open socket was
      sent has reached the last event numbered, unless all it has read there is
      the gap that answered it. */
  lemma {:induction false} CaughtUp(steps: seq<WorldStep>, c: nat)
    requires IsHappening(steps)
    requires var w, r := WorldAfter(steps), ReaderOf(WorldAfter(steps), c);
             r.ws.Some? && r.ws.value in w.sys.relay.durable.sockets && r.pos == |Wire(w.sys, r.ws.value)|
    ensures var w, r := WorldAfter(steps), ReaderOf(WorldAfter(steps), c);
            Seen(r.heard) == |w.sys.history| || (r.pos == 1 && EndsInGap(r.heard))
  {
    WorldAlways(steps);
    NewcomersOk(WorldAfter(steps), c);
    hide WorldAfter, IsHappening, Seen, Wire, Inv, ReaderOk, ReadersOk, AgentsOk;
    ReadToTheEnd(WorldAfter(steps).sys, ReaderOf(WorldAfter(steps), c));
  }

  /** The ordering agent never counts a violation. */
  lemma OrderingAgentNeverAlarmed(steps: seq<WorldStep>, c: nat)
    requires IsHappening(steps)
    ensures var heard := ReaderOf(WorldAfter(steps), c).heard;
            ObservedAll(heard).violations == 0 && ObservedAll(heard).lastSeen == Seen(heard)
  {
    WorldAlways(steps);
    NewcomersOk(WorldAfter(steps), c);
    hide WorldInv, WorldAfter, IsHappening, Honest, AllGenuine, Seen;
    OrderingContent(ReaderOf(WorldAfter(steps), c).heard);
  }

  /** The resume agent never takes either of its error branches, however its
      old and new connections overlap. */
  lemma ResumeAgentNeverAlarmed(steps: seq<WorldStep>, a: nat)
    requires IsHappening(steps)
    ensures Faultless(AgentOf(WorldAfter(steps), a).state.actions)
  {
    WorldAlways(steps);
    NewcomersOk(WorldAfter(steps), a);
    hide WorldInv, WorldAfter, IsHappening, Faultless;
  }

  // ---------------------------------------------------------------- replay and progress

  lemma SeqsHead(h: seq<BufferedEvent>, since: nat)
    requires since < |h|
    ensures SeqsOf(h[since..]) == [h[since].seqNo as int] + SeqsOf(h[since + 1..])
  {
    assert h[since..][1..] == h[since + 1..];
  }

  lemma {:induction false} SuffixSeqs(h: seq<BufferedEvent>, since: nat, u: seq<int>)
    requires IsHistory(h) && since <= |h| == |u|
    requires forall i :: 0 <= i < |u| ==> u[i] == i + 1
    ensures SeqsOf(h[since..]) == u[since..]
    decreases |h| - since
  {
    if since < |h| {
      SuffixSeqs(h, since + 1, u);
      SeqsHead(h, since);
      hide SeqsOf;
      assert [u[since]] + u[since + 1..] == u[since..];
    }
  }

  /** A replay the relay sends is the one list the reference check accepts. */
  lemma {:induction false} ReplayIsTheOneAccepted(h: seq<BufferedEvent>, since: nat, client: nat, seqs: seq<int>)
    requires IsHistory(h) && Greeting(LastN(h, REPLAY_CAPACITY), since).Replay?
    ensures Metrics.CheckReplayCorrectness(client, since, seqs, REPLAY_CAPACITY, Metrics.Upto(|h|)) == []
            <==> seqs == SeqsOf(Greeting(LastN(h, REPLAY_CAPACITY), since).events)
  {
    GreetingExact(h, REPLAY_CAPACITY, since);
    Metrics.ReplayAcceptedExactly(client, since, seqs, REPLAY_CAPACITY, |h|);
    if since < |h| {
      SuffixSeqs(h, since, Metrics.Upto(|h|));
    }
    hide Greeting, LastN, IsHistory, SeqsOf, Metrics.Upto, Metrics.CheckReplayCorrectness;
  }

  /** An answer that is a gap strictly raises what the client has seen, to just
      below the seq it names. */
  lemma EvictionGapRaises(h: seq<BufferedEvent>, since: nat)
    requires IsHistory(h) && Greeting(LastN(h, REPLAY_CAPACITY), since).Gap?
    ensures var m := Greeting(LastN(h, REPLAY_CAPACITY), since);
            since < SeenAfter(since, m) == m.oldestAvailableSeq - 1 < |h|
  {
    GreetingExact(h, REPLAY_CAPACITY, since);
  }

  /** A client that resumes after a gap, before the seq it names is evicted, is
      replayed everything from that seq on. */
  lemma ResumesAtNamedSeq(h: seq<BufferedEvent>, seen: nat, k: nat)
    requires IsHistory(h) && seen < k <= |h| <= k - 1 + REPLAY_CAPACITY
    ensures var m := Greeting(LastN(h, REPLAY_CAPACITY), SeenAfter(seen, Gap(k)));
            m == Replay(h[k - 1..]) && m.events[0].seqNo == k
  {
    GreetingExact(h, REPLAY_CAPACITY, SeenAfter(seen, Gap(k)));
  }
}

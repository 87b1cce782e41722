# Relay gateway: verified model

A Dafny model of an MCP relay gateway and of the programs that consume and check
it, with proofs of what the system is for: no subscriber ever misses an event the
relay has numbered without being told, whatever drops, evictions and bursts happen
in between; and exactly when the end of an upstream connection is itself announced.

The project has five parts.

- **The relay and its clients.** `FeedRelay` is one feed's object: a class whose
  methods are the turns of the original, each proved against a function on its
  whole state. `RelayTurns` says in closed form what one turn does; `RelayRuns`
  interleaves the turns of the object, its retry loop and its platform as a state
  machine; `RelayStreams` and `RelaySafety` prove what every run keeps, `RelayDrops`
  and `RelayAbandoned` exactly when an end is announced and when a loop is lost,
  `DropAudience` to whom, and `GapAudit` which gaps are logged.
  `Subscribers` models the chaos client and two agents, `Metrics` the harness's
  analysis, `Honesty` why an honest log passes it, and `EndToEnd` puts all of
  them together. `FaultReports` and `AgentReports` say what the analysis and the
  agents report by the positions of the messages alone. `Protocol`, `ReplayStore`
  and `RingBuffer` are the shared window.
- **The incremental SSE parser** (`SseFraming`) with the printer it inverts
  (`OriginSimulator`), what each block of fields makes (`SseFields`), and what a
  cut-off stream leaves in the relay (`OriginFeed`).
- **Canonical JSON as a cache key** (`Json`, `JsonParser`, `CacheKey`), and its text
  code unit by code unit (`JsonText`).
- **The hash-chained audit log** (`AuditLog`).
- **The shared cache under interleaved calls** (`ContextIndex`, `RelayRoute`,
  `CacheResets`), what a call reports and when it hits (`CallOutcomes`), and a strict
  reader for the bytes a size counts (`Utf8Reader`).

`dafny verify dfyconfig.toml` verifies everything.

## Where the code and its documentation disagree

The model follows the code; each point is a theorem.

- `push` is documented as safe at any chunk boundary. It is, exactly when no line
  feed comes after a lone carriage return (`SseFraming.ChunkIndependenceExactly`,
  `SseFraming.PushNotSafeAnywhere`).
- Every drop is meant to be announced. The end of a connection is sure to be
  announced before anything else reaches an open socket exactly when nobody had
  cancelled the connection, no alarm had gone off with nobody listening and no live
  reader since the last one ended, and the loop reacts before any eviction
  (`RelayDrops.EndAnnouncedExactly`).
  Such an alarm leaves the teardown flag set, so the next real drop is taken for a
  teardown; an eviction ends the connection with nobody left to announce it. A run
  for each is `RelayAbandoned.StaleUnheard` and `RelayAbandoned.EvictedUnheard`.
- The retry loop is meant to run while somebody listens. Open sockets lose it in
  three ways and no other (`RelayAbandoned.AbandonedExactly`): to an eviction, to the
  end of a reader that was being cancelled when they arrived
  (`RelayAbandoned.CancelledUnheard`), and to an end under a stale alarm.
- A drop is meant always to be signalled to those who may have missed something. It
  reaches exactly the sockets open when it is announced
  (`DropAudience.DropHeardExactly`): a reader that is away resumes across it and is
  never told (`DropAudience.AwayFromDrop`).
- The delivery log is meant to show every gap marker issued. It does, exactly when no
  chunk overflows a queue while somebody listens: the gap a flush sends is not logged
  (`GapAudit.AuditCompleteExactly`, `GapAudit.FloodUnaudited`).
- A second store is meant to reset only a count under which nobody has been served.
  That is so exactly when no lookup has found the entry since the first
  (`CacheResets.StoreErasesExactly`, `CacheResets.ServedHitErased`).
- A deleted audit row is meant to break the chain. A deleted suffix does not
  (`AuditLog.TruncationUnnoticed`); every other deletion does.

## Assumptions

- A subscribe is one step from accepting the socket to the answer: `fetch` awaits
  `deleteAlarm` in between, and a chunk that slipped in there would be replayed as
  well as sent live. The platform holds other events back while storage is pending.
- A subscribe, a close, an alarm or an eviction may come between the end of a read, or
  a `cancel()`, and the retry loop's reaction to it. In the original a few awaits with
  no other work lie between them, so such runs need the platform to use that moment;
  `RelayAbandoned.StaleUnheard`, and `RelayAbandoned.EvictedUnheard` with an eviction
  in place of the end, do not.
- `send` and SQL calls succeed; `lastSeenSeq` is a natural number; seqs and counts
  do not overflow.
- BLAKE3 is any function on texts. Where its strength matters the conclusion is
  "or here is a collision", with the colliding texts among those at hand.
- Fetching the origin, reading its body, the clock and the failures of remote
  calls are step labels or parameters.

## Model

| member | source | states |
|---|---|---|
| `EndToEnd.EveryRunPasses` | eval/harness/metrics.py:57-74 | For every run of the relay (any subscribes, chunks, failures, drops, closes, alarms, evictions) with any number of clients, each reading any prefix of each connection and resuming from its own last seen seq, and for every interleaving of their recorded logs, the analysis finds no violation |
| `EndToEnd.EveryChroniclePasses` | eval/harness/chaos_client.py:94-110 | In particular it finds none in the log of everything every client received, in the order it was received |
| `EndToEnd.EverySeqAccounted` | eval/harness/chaos_client.py:54-81 | In every run, every seq up to the one a client claims was either delivered to it, as the very event the relay numbered with it, or told to it as lost by a gap that came while that seq was still ahead of it; one or the other, never both |
| `EndToEnd.CaughtUp` | apps/gateway/src/do/FeedRelay.ts:418-498 | In every run, a client that has read everything its open socket was sent has reached the last event numbered, unless all it has read there is the gap that answered it: the relay holds nothing back from an open socket |
| `EndToEnd.OrderingAgentNeverAlarmed` | apps/agents/src/orderingAgent.ts:30-63 | In every run the ordering agent's `violations` stays 0, and it resumes from the same seq as the chaos client would |
| `EndToEnd.ResumeAgentNeverAlarmed` | apps/agents/src/resumeAgent.ts:55-91 | In every run the resume agent takes neither of its error branches, although it hears its old and its new connection interleaved in any way |
| `EndToEnd.ReplayIsTheOneAccepted` | eval/harness/metrics.py:199-231 | When a subscriber is answered with a replay, its seqs are the one list the reference comparison accepts, and it accepts no other |
| `EndToEnd.EvictionGapRaises` | apps/gateway/src/do/FeedRelay.ts:220-231 | An answer that is a gap strictly raises what the client has seen, to just below the seq named, which is still below the next seq |
| `EndToEnd.ResumesAtNamedSeq` | eval/harness/chaos_client.py:67-79 | A client that resumes after gap(k), before k is evicted, is replayed every event from k on, starting at k |
| `EndToEnd.ReadNextKept` | eval/harness/chaos_client.py:54-81 | Reading any next message of a connection keeps the client's own seq one below the seq its stream is at, and the message is one an honest feed may send it |
| `Honesty.HonestPasses` | eval/harness/metrics.py:97-196 | A log in which every message follows honestly from what was heard before passes all four checks |
| `Honesty.NothingSilentlyLost` | eval/harness/metrics.py:97-113 | In such a log every seq up to the last seen one was carried by an event or a replay, or lies beyond what had been seen when a gap came and before the seq that gap, or the event right after it, names |
| `Honesty.DeliveredOrLost` | eval/harness/metrics.py:97-113 | In such a log no seq is both delivered and told as lost |
| `Honesty.OrderingContent` | apps/agents/src/orderingAgent.ts:30-63 | On such a log the ordering agent counts nothing, reaches the client's seq, and expects nothing right after a gap |
| `Honesty.KnownIsSeen` | eval/harness/metrics.py:148-196 | The seq the self-consistency check reconstructs from a log is the one the client itself claims |
| `Honesty.SeenGrows` | eval/harness/chaos_client.py:54-81 | A client's last seen seq never decreases |
| `Subscribers.ChaosClient.Record` | eval/harness/chaos_client.py:54-81 | Recording a message keeps the log equal to what was heard and the last seen seq equal to the function the theorems are about |
| `Subscribers.OrderingAgent.OnMessage` | apps/agents/src/orderingAgent.ts:30-63 | The handler's whole new state (last seen, expectation, heartbeat, violations, actions) as a function of the old one |
| `Subscribers.ResumeAgent.OnMessage` | apps/agents/src/resumeAgent.ts:55-91 | The handler's whole new state as a function of the old one and of the seq its connection was opened for |
| `Subscribers.FindInternalGap` | apps/agents/src/resumeAgent.ts:15-22 | Returns the least position whose event does not continue the one before, and nothing exactly when there is none |
| `AgentReports.SeenIsGreatest` | eval/harness/chaos_client.py:54-81 | A client's last seen seq is the greatest that any message brought it to: an event, any seq of a replay, or the seq before the one a gap names |
| `AgentReports.ExpectsWhatIsDue` | apps/agents/src/orderingAgent.ts:30-48 | The ordering agent expects exactly the seq after the last event or non-empty replay heard, unless a gap came since |
| `AgentReports.ViolationsAreDisorders` | apps/agents/src/orderingAgent.ts:37-47 | `violations` is the number of events heard that are not the one due: not one past the last event or non-empty replay since the last gap |
| `AgentReports.ReportsEveryTwentyFive` | apps/agents/src/orderingAgent.ts:49-59 | The agent logs one status report for every twenty-five events heard, and its counter is the remainder |
| `AgentReports.ReplayLogged` | apps/agents/src/resumeAgent.ts:55-75 | What the resume agent logs of a replay: its first hole if it has one; else, once connected before, a start that was not the expected one, or what was verified; else nothing |
| `AgentReports.ResyncsAreGaps` | apps/agents/src/resumeAgent.ts:76-88 | Each gap heard is logged as one resync from the seq it names, nothing else is, and a live event logs nothing |
| `AgentReports.ResumeReaches` | apps/agents/src/resumeAgent.ts:55-91 | On an honest message the resume agent goes where the chaos client goes |
| `AgentReports.ResumeConnects` | apps/agents/src/resumeAgent.ts:73-87 | It takes itself to have connected from the first answer on, a replay or a gap |
| `Metrics.Analyze` | eval/harness/metrics.py:57-74 | The violations are those of each client in order of first appearance, and there are none exactly when every client's own subsequence passes, however the clients are interleaved |
| `Metrics.GroupByClient` | eval/harness/metrics.py:63-66 | Grouping gives every client exactly its own subsequence, clients in order of first message |
| `Metrics.EventSeqsBetweenGaps` | eval/harness/metrics.py:77-94 | The runs of consecutive event seqs, broken at every other message, with no empty run |
| `Metrics.RunsHoldNeighbours` | eval/harness/metrics.py:77-113 | Splitting into runs and comparing inside each finds exactly the faults between neighbouring messages that are both events |
| `Metrics.CheckNoSilentGaps` | eval/harness/metrics.py:97-113 | Reports nothing if and only if every event that directly follows an event carries the next seq |
| `Metrics.CheckNoDuplicateSeqs` | eval/harness/metrics.py:116-132 | Reports each event whose seq was delivered live before, in order; nothing if and only if no two events share a seq |
| `Metrics.CheckStrictlyIncreasing` | eval/harness/metrics.py:135-145 | Reports nothing if and only if every event that directly follows an event carries a larger seq |
| `Metrics.CheckReplayIsSelfConsistent` | eval/harness/metrics.py:148-196 | Reports nothing if and only if every replay is contiguous and, where the messages before it make a seq known (as `Metrics.KnownExactly` says), starts right after that |
| `Metrics.KnownExactly` | eval/harness/metrics.py:164-191 | What a log makes known, by the positions of its messages: nothing if and only if it has no event, no gap and no non-empty replay, and else the greatest of the last event's seq and of what every gap and non-empty replay after it ends at |
| `Metrics.FaultsNone` | eval/harness/metrics.py:57-74 | No violation in the whole if and only if every client's log satisfies all four properties |
| `Metrics.ReplayAcceptedExactly` | eval/harness/metrics.py:199-231 | Against a truth of n numbered events one and only one replay is accepted: the retained seqs above the last seen one |
| `FaultReports.SilentGapsAre` | eval/harness/metrics.py:97-113 | The silent gaps reported are exactly the neighbouring events whose seqs are not in step, each with the seqs of its pair |
| `FaultReports.DuplicatesAre` | eval/harness/metrics.py:116-132 | The duplicates reported are exactly the events whose seq an earlier event has |
| `FaultReports.BadReplaysAre` | eval/harness/metrics.py:148-196 | What is reported of replays is exactly the holes inside them and the starts that are not one past what the messages before make known |
| `FaultReports.WrongReplayIs` | eval/harness/metrics.py:199-231 | The report against the reference names the seqs due, as one closed expression, and those received |
| `FaultReports.RunsAre` | eval/harness/metrics.py:77-94 | The runs, joined, are all the event seqs in order; none is empty, and there are as many as events that follow no event |
| `FaultReports.ClientsAre` | eval/harness/metrics.py:63-66 | The clients are those that occur, in the order of their first messages |
| `RelayDrops.EndAnnouncedExactly` | apps/gateway/src/do/FeedRelay.ts:333-402 | For every run, every end of a connection being read (it ends, or the object is evicted), everything interleaved until the loop reacts or is evicted, and every socket open throughout: in all continuations the gap naming the next seq comes before anything else that reaches the socket, if and only if nobody had cancelled the connection, no stale alarm was outstanding, and the loop reacted before any eviction |
| `RelayDrops.EndSettled` | apps/gateway/src/do/FeedRelay.ts:333-412 | At that reaction or eviction the socket has been sent exactly that gap and the loop goes on, or it has been sent nothing and no loop is left, by the same condition; nothing was numbered meanwhile |
| `RelayDrops.NothingBeforeTheGap` | apps/gateway/src/do/FeedRelay.ts:337-402 | From the end of a connection to the loop's reaction, or an eviction, no event is numbered and an open socket is sent nothing, whatever else happens |
| `RelayDrops.LiveWithoutGap` | apps/gateway/src/do/FeedRelay.ts:91-102 | Whenever no loop is left, some continuation sends an open socket the next event with nothing before it |
| `RelayAbandoned.StaleUnheard` | apps/gateway/src/do/FeedRelay.ts:525-535 | A concrete run with a stale alarm: nobody cancelled the connection and nothing was evicted, yet its end leaves the open socket untold and without a loop |
| `RelayAbandoned.EvictedUnheard` | apps/gateway/src/do/FeedRelay.ts:91-102 | Concrete runs in which no alarm ever goes off and an eviction, between the end and the reaction or in place of the end, leaves the open socket untold and without a loop, and the next event reaches it with no gap before it |
| `RelayAbandoned.CancelledUnheard` | apps/gateway/src/do/FeedRelay.ts:504-535 | A concrete run in which a subscriber arrives while the reader is being cancelled and is left untold and without a loop |
| `RelayAbandoned.AbandonedExactly` | apps/gateway/src/do/FeedRelay.ts:91-102 | In every run, open sockets have no loop if and only if they lost it and nobody has subscribed since; they lose it to an eviction, or to the loop's reaction to a connection that ended while it was being cancelled or while a stale alarm was outstanding |
| `RelayAbandoned.DoomedExactly` | apps/gateway/src/do/FeedRelay.ts:333-367 | In every run the loop is about to stop for a teardown exactly when the last connection ended while cancelled or under a stale alarm and the loop has not reacted since |
| `DropAudience.DropHeardExactly` | apps/gateway/src/do/FeedRelay.ts:382-394 | For every announced drop and however the run goes on, the drop's gap stands in a socket's stream, right after what the socket had been sent before, if and only if the socket was open when the drop was announced |
| `DropAudience.ClosedIsSilent` | apps/gateway/src/do/FeedRelay.ts:262-268 | A closed socket is never sent anything again, in any continuation |
| `DropAudience.AwayFromDrop` | eval/harness/chaos_client.py:94-110 | A concrete run of relay and reader in which a drop is announced while the reader is away: its log has the events on both sides of the drop and no gap |
| `GapAudit.AuditCompleteExactly` | apps/gateway/src/do/FeedRelay.ts:479-492 | In every run, every gap that a step sends to anybody is in what that step logs if and only if no chunk of more than 20 events was read while a socket was open |
| `GapAudit.StepEntries` | apps/gateway/src/do/FeedRelay.ts:245-260 | Exactly what every step appends to the delivery log |
| `GapAudit.FloodUnaudited` | apps/gateway/src/do/FeedRelay.ts:483-498 | A concrete run of one chunk of 21 events after which a socket has been sent a gap and the delivery log has none |
| `RelaySafety.FlagExactly` | apps/gateway/src/do/FeedRelay.ts:104-109 | In every run `intentionalTeardown` is set if and only if a reader is being cancelled or an alarm went off with nobody listening and no reader, with no connection end or eviction since |
| `RelaySafety.TimelyIsNeverStale` | apps/gateway/src/do/FeedRelay.ts:525-535 | If alarms go off only while a reader is live or somebody listens, no alarm is ever stale |
| `RelaySafety.OneUpstreamLoop` | apps/gateway/src/do/FeedRelay.ts:202-213 | In every run at most one upstream loop is alive, `upstreamStarted` is true exactly when one is, and a reader is live exactly while it reads |
| `RelaySafety.OutagesToldOnce` | apps/gateway/src/do/FeedRelay.ts:351-415 | In every run the drop and reconnect entries of the delivery log are, loop by loop, drop and recovery in strict turn starting with a drop, and no loop begins with a drop already told |
| `RelaySafety.IdleLoopEnds` | apps/gateway/src/do/FeedRelay.ts:504-535 | In every run a loop nobody listens to has its alarm pending, is being cancelled, or is about to check for sockets, unless a stale alarm is outstanding |
| `RelaySafety.AlarmExactly` | apps/gateway/src/do/FeedRelay.ts:504-535 | In every run the idle alarm is pending if and only if, at some step since the last subscribe and since the last alarm went off, the last open socket closed while a loop was alive |
| `RelaySafety.WindowAlways` | apps/gateway/src/do/FeedRelay.ts:132-165 | In every run the buffer, the stored rows and the counter hold exactly the last 200 events of the history, and an eviction at any step boundary restores buffer and counter |
| `RelaySafety.ReferenceBuffer` | crates/mcp-relay-engine/src/ring_buffer.rs:53-71 | The reference buffer, pushed the upstream events of any run one by one, ends with the relay's contents and counter, although it evicts before it pushes |
| `RelaySafety.HistoryIsEvents` | apps/gateway/src/do/FeedRelay.ts:418-421 | In every run the history is the upstream events of all chunks, in order, numbered from one |
| `RelaySafety.KeptAsItCame` | apps/gateway/src/do/FeedRelay.ts:418-434 | In every run the upstream's i-th event is kept under seq i, with the id, the name and the data it came with |
| `RingBuffer.PushedThrough` | crates/mcp-relay-engine/src/ring_buffer.rs:39-71 | A fresh buffer pushed any events has numbered them from one and holds the last `capacity` of them |
| `RelaySafety.EverySocketLegal` | apps/gateway/src/do/FeedRelay.ts:220-237 | In every run each socket's first message is the answer out of the window of the moment it connected, every later message may follow those before it (gaps never go back, events are the history's own), and an open socket is waiting for the seq numbered next |
| `RelaySafety.EveryStreamInStep` | apps/gateway/src/do/FeedRelay.ts:418-498 | In every run any two neighbouring messages of a socket are in step: live events are consecutive, a replay is continued by the next seq, and delivery after a gap resumes at exactly the seq named, except after the answer to a subscriber, where it is that seq or later |
| `RelayStreams.InvAlways` | apps/gateway/src/do/FeedRelay.ts:89-536 | Every reachable state satisfies the whole invariant: one loop, idle watch, outage log, window, sockets and streams |
| `RelayStreams.StepSends` | apps/gateway/src/do/FeedRelay.ts:220-268 | What each step adds to each socket's stream, and that no step but a subscribe, a chunk and an announced drop sends anything |
| `RelayStreams.StreamBurst` | apps/gateway/src/do/FeedRelay.ts:418-498 | A batch of any size, capped or not, keeps an open socket's stream legal and leaves it waiting for the seq numbered next |
| `RelayStreams.StreamGreeted` | apps/gateway/src/do/FeedRelay.ts:220-237 | Whatever a subscriber claims to have seen, the answer starts a legal stream |
| `RelayRuns.OneLoopKept` | apps/gateway/src/do/FeedRelay.ts:202-213 | Each step keeps at most one loop and the flag that says so |
| `RelayRuns.IdleWatchedKept` | apps/gateway/src/do/FeedRelay.ts:504-535 | Each step keeps a loop without listeners watched |
| `RelayRuns.OutagesKept` | apps/gateway/src/do/FeedRelay.ts:304-416 | Each step keeps every loop's outage log alternating and the flag equal to the log's open drop |
| `RelayRuns.LogKept` | apps/gateway/src/do/FeedRelay.ts:304-416 | Each step keeps the delivery log's outage entries equal to the loops' logs, one after the other |
| `RelayTurns.BurstCap` | apps/gateway/src/do/FeedRelay.ts:418-498 | For a batch of n events and any sockets, the nested queue loops and the flush send each listed socket the last min(n, 20) events in order, after one gap naming the first of them if and only if n > 20, and others nothing; no queue keeps anything |
| `RelayTurns.EventRetained` | apps/gateway/src/do/FeedRelay.ts:418-447 | Numbering, buffering and writing through one event keeps buffer, rows and counter on the same history; the burst cap has no part in it |
| `RelayTurns.ChunkRetained` | apps/gateway/src/do/FeedRelay.ts:309-328 | A chunk appends its events to the history and keeps everything retained in agreement with it |
| `RelayTurns.EvictionRestores` | apps/gateway/src/do/FeedRelay.ts:132-165 | Hydrating from storage gives back the buffer and the counter that were lost |
| `RelayTurns.RetainedDetermined` | apps/gateway/src/do/FeedRelay.ts:418-447 | The history alone determines buffer, counter, rows and stored counter |
| `RelayTurns.ChunkingInvisible` | apps/gateway/src/do/FeedRelay.ts:309-328 | Two chunkings of one text leave the same buffer, counter and stored rows, for texts with no line feed after a lone carriage return |
| `RelayTurns.ConnectionRetains` | apps/gateway/src/do/FeedRelay.ts:309-328 | For texts with no line feed after a lone carriage return, a connection appends to the history exactly the events of its text |
| `OriginFeed.NotificationsRetained` | apps/origin-simulator/src/index.ts:138-163 | For event names without line breaks: however the origin's stream is chunked and wherever it is cut off, the relay ends up with a first part of its notifications, numbered in order after what it had; all of them if it is not cut off |
| `FeedRelay.FeedRelay.constructor` | apps/gateway/src/do/FeedRelay.ts:132-165 | A fresh object has the stored rows in seq order, the stored counter or 1, and no flag set |
| `FeedRelay.FeedRelay.Fetch` | apps/gateway/src/do/FeedRelay.ts:197-217 | The whole state after a subscribe; a loop is to be started exactly when none was believed to run |
| `FeedRelay.FeedRelay.SendReplay` | apps/gateway/src/do/FeedRelay.ts:220-237 | Sends the one greeting the stream theorems are about and logs it when it is a gap |
| `FeedRelay.FeedRelay.BroadcastGap` | apps/gateway/src/do/FeedRelay.ts:262-268 | Each open socket is sent one gap naming the next seq |
| `FeedRelay.FeedRelay.BroadcastEvent` | apps/gateway/src/do/FeedRelay.ts:418-477 | The whole state after one event: buffer, counter, rows, log and every queue |
| `FeedRelay.FeedRelay.FlushOutboundQueues` | apps/gateway/src/do/FeedRelay.ts:483-498 | Each socket with something queued is sent its owed gap and its queue, which is then empty |
| `FeedRelay.FeedRelay.ReadChunk` | apps/gateway/src/do/FeedRelay.ts:311-328 | The whole state after one read: all its events, then one flush |
| `FeedRelay.FeedRelay.ConnectionEstablished` | apps/gateway/src/do/FeedRelay.ts:304-311 | Recovery is logged and the outage flag cleared exactly when one was told |
| `FeedRelay.FeedRelay.ReadLoopEnded` | apps/gateway/src/do/FeedRelay.ts:333-345 | The reader is gone, and the end counts as intentional exactly when the flag was set, which is consumed |
| `FeedRelay.FeedRelay.AfterAttempt` | apps/gateway/src/do/FeedRelay.ts:358-412 | The whole state after an attempt comes back, and whether the loop goes on |
| `FeedRelay.FeedRelay.WebSocketClose` | apps/gateway/src/do/FeedRelay.ts:504-523 | The closed socket is gone, and the alarm is set if nobody remains while a loop is believed to run |
| `FeedRelay.FeedRelay.Alarm` | apps/gateway/src/do/FeedRelay.ts:525-535 | With nobody listening the flag is set whether or not there is a reader to cancel |
| `Protocol.GreetingExact` | apps/gateway/src/do/FeedRelay.ts:220-237 | A subscriber is sent a gap naming the oldest retained seq if and only if an event it has not seen is gone, and otherwise exactly the events after the last one it has seen |
| `ReplayStore.WriteThrough` | apps/gateway/src/do/FeedRelay.ts:436-447 | INSERT and then DELETE below MAX(seq) - 200 leave exactly the last 200 rows of the longer history, and the INSERT never meets an existing key |
| `ReplayStore.SelectIsWindow` | apps/gateway/src/do/FeedRelay.ts:152-157 | SELECT in seq order reads back the retained events, contents and order |
| `RingBuffer.RingBuffer.Push` | crates/mcp-relay-engine/src/ring_buffer.rs:53-71 | Keeps the buffer equal to the last `capacity` events of the history and returns the next seq |
| `RingBuffer.RingBuffer.Since` | crates/mcp-relay-engine/src/ring_buffer.rs:76-91 | A gap if and only if something after the last seen seq is gone, else exactly the newer events, for every capacity; the same answer as the relay's |
| `SseFraming.ChunkIndependenceExactly` | crates/mcp-relay-engine/src/sse_framing.rs:131-159 | The pushes and the final flush emit the same lines for every chunking of a text if and only if no line feed occurs after a carriage return that is not followed by a line feed |
| `SseFraming.ChunkIndependence` | crates/mcp-relay-engine/src/sse_framing.rs:73-88 | On that class they emit the lines of section 9.2.5 of the WHATWG HTML Standard, read left to right, and leave the same buffer |
| `SseFraming.ExtractIsSplit` | crates/mcp-relay-engine/src/sse_framing.rs:131-159 | On that class looking for line feeds first finds the standard's cuts |
| `SseFraming.OnePushKeepsLoneCr` | crates/mcp-relay-engine/src/sse_framing.rs:131-145 | Outside it a single push emits a line with a carriage return inside |
| `SseFraming.TrapSplitsChunkings` | crates/mcp-relay-engine/src/sse_framing.rs:131-159 | Outside it one push and one push per code unit emit different lines |
| `SseFraming.SplitCompose` | crates/mcp-relay-engine/src/sse_framing.rs:131-159 | The standard's split can be resumed at any point from what the first part leaves |
| `SseFraming.EventsDependOnTextOnly` | crates/mcp-relay-engine/src/sse_framing.rs:73-121 | Events and parser state after any chunking are a function of the text, on that class |
| `SseFraming.ProcessLinesCompose` | crates/mcp-relay-engine/src/sse_framing.rs:90-121 | Processing lines in two batches is processing them in one |
| `SseFraming.SseParser.ExtractLines` | crates/mcp-relay-engine/src/sse_framing.rs:131-159 | The drained loop takes off the lines of the recursive specification, leaves its rest, and ends because the buffer shrinks |
| `SseFraming.SseParser.Dispatch` | crates/mcp-relay-engine/src/sse_framing.rs:34-48 | An event exactly when a field line was seen, with the pending fields then cleared |
| `SseFraming.SseParser.ProcessEach` | crates/mcp-relay-engine/src/sse_framing.rs:90-121 | Events and pending state after any lines, against the line-by-line specification |
| `SseFraming.SseParser.PushChunk` | crates/mcp-relay-engine/src/sse_framing.rs:73-77 | A push is extraction without flush and then processing, on the whole parser state |
| `SseFraming.PushNotSafeAnywhere` | crates/mcp-relay-engine/src/sse_framing.rs:70-77 | A concrete text outside it: one push emits one line with a carriage return inside, the same text cut before its line feed emits two lines |
| `SseFraming.FlushDispatchesOnlyBlank` | crates/mcp-relay-engine/src/sse_framing.rs:79-88 | After any pushes a flush dispatches the pending event exactly when all that is buffered is the carriage return of its blank line, and otherwise nothing |
| `SseFraming.SseParser.Flush` | crates/mcp-relay-engine/src/sse_framing.rs:85-88 | A flush completes the held-back line, on the whole parser state, and dispatches nothing unless that line is blank |
| `SseFields.EndedSplits` | crates/mcp-relay-engine/src/sse_framing.rs:131-159 | Lines that each end in a line feed, a carriage return and line feed, or a carriage return not followed by a line feed split into exactly those lines |
| `SseFields.JoinedCutsBack` | crates/mcp-relay-engine/src/sse_framing.rs:34-48 | Data lines, joined, cut at the line feeds give back the lines |
| `SseFields.EveryLineIsField` | crates/mcp-relay-engine/src/sse_framing.rs:90-121 | Every line that is not blank is a comment, a bare name, a name with a value, or a name with a space and a value |
| `SseFields.NamesSpelled` | crates/mcp-relay-engine/src/sse_framing.rs:113-118 | The three field names, spelled out |
| `SseFields.BlockParses` | crates/mcp-relay-engine/src/sse_framing.rs:34-121 | Any field lines in any notation (comment, bare name, colon, colon and space) and a blank line, pushed in any chunking, make one event if a line is no comment and none otherwise: its id and name are the last ones given, and its data cut at the line feeds is the data lines in order |
| `SseFields.DataLinesKept` | crates/mcp-relay-engine/src/sse_framing.rs:34-121 | One or more data lines and a blank line, in any chunking, are one event whose data cut at the line feeds is those values |
| `OriginSimulator.RoundTrip` | apps/origin-simulator/src/index.ts:11-13 | Any sequence of `sseEvent` outputs with names free of line breaks and of pings, chunked in any way, parses back to exactly those events in order, with nothing pending |
| `OriginSimulator.RoundTripExactly` | apps/origin-simulator/src/index.ts:11-13 | Every chunking gives the notifications back if and only if no event name has a carriage return or a line feed in it |
| `OriginSimulator.PrintPrintable` | apps/origin-simulator/src/index.ts:12 | Whatever the value, its JSON text has no code unit below a space, so `data:` is one line |
| `OriginSimulator.StreamParses` | apps/origin-simulator/src/index.ts:11-13 | The whole stream's text parses to the notifications and leaves a fresh parser |
| `SseFields.NotificationIsBlock` | apps/origin-simulator/src/index.ts:11-13 | The text of a notification is a block of its id, its name and its JSON data, in this order |
| `SseFields.PingIsBlock` | apps/origin-simulator/src/index.ts:152-153 | A keep-alive is a block of the one comment ` ping` |
| `CodeUnits.DecimalExactly` | apps/origin-simulator/src/index.ts:12 | A number is printed as digits, after a minus sign exactly when it is negative, that denote it |
| `CodeUnits.DigitsExactly` | apps/origin-simulator/src/index.ts:12 | The digits denote the number and begin with no zero unless they are all of it |
| `OriginSimulator.SubscriptionStream.Tick` | apps/origin-simulator/src/index.ts:145-163 | Enqueued text stays the text of the blocks so far; every third tick is a ping; ticks after a cancel do nothing |
| `OriginSimulator.SubscriptionStream.Cancel` | apps/origin-simulator/src/index.ts:165-169 | After a cancel the stream is closed and its text is unchanged |
| `JsonParser.PrintParses` | apps/gateway/src/lib/cacheKey.ts:27-45 | A parser reads the printed form of any value back as what the value means, whatever follows it that does not begin with a character of a number |
| `CacheKey.CanonicalExactly` | apps/gateway/src/lib/cacheKey.ts:27-45 | Two values have one canonical text if and only if they are the same JSON: equal up to member order at every depth and `undefined` members |
| `CacheKey.KeyOrderInvisible` | apps/gateway/src/lib/cacheKey.ts:36-44 | Objects with the same defined members in any order have one canonical text |
| `CacheKey.RequestHashExactly` | apps/gateway/src/lib/cacheKey.ts:61-63 | Two calls share a request hash if and only if they are the same call or their own canonical texts are a collision |
| `CacheKey.ConflatedNumbers` | apps/gateway/src/lib/cacheKey.ts:28-30 | What parsing tells apart and the key does not, exactly: two numbers that are written alike (the two zeros) or have no written form, and null and a number that has none |
| `JsonParser.EscapeParses` | apps/gateway/src/lib/cacheKey.ts:28-44 | String escaping (section 7 of RFC 8259, lone surrogates escaped) is inverted by the parser, so it is injective |
| `Json.SortSorts` | apps/gateway/src/lib/cacheKey.ts:43 | The key sort yields strictly ascending keys |
| `JsonText.KeysInOrder` | apps/gateway/src/lib/cacheKey.ts:43 | Of two sorted keys the earlier comes first by code unit: below some position they agree, and there it ends and the other does not, or it has the smaller code unit |
| `JsonText.PresentInOrder` | apps/gateway/src/lib/cacheKey.ts:36-44 | The printer takes members at rising positions and leaves out exactly the `undefined` ones |
| `JsonText.PrintedAsIsExactly` | apps/gateway/src/lib/cacheKey.ts:28-44 | A text is printed as it is if and only if it has no control character, quote, backslash or surrogate without its partner |
| `JsonText.LongEscapesSpelled` | apps/gateway/src/lib/cacheKey.ts:28-44 | A long escape is `\u` and four lower-case hexadecimal digits worth the code unit |
| `JsonText.ShortEscapesSpelled` | apps/gateway/src/lib/cacheKey.ts:28-44 | The seven short escapes, spelled out |
| `JsonText.WordsSpelled` | apps/gateway/src/lib/cacheKey.ts:61-63 | The three literal words and the three keys of a hashed call, spelled out |
| `JsonText.SwappedInKey` | apps/gateway/src/lib/cacheKey.ts:36-44 | The object written {"b":2,"a":1} has the key text {"a":1,"b":2}, unit for unit |
| `JsonText.ItemsInOrder` | apps/gateway/src/lib/cacheKey.ts:32-34 | An array's items are printed in their own order, unit for unit in one whole text |
| `JsonText.SwappedElsewhere` | apps/origin-simulator/src/index.ts:12 | The runtime's own printer leaves the same object as it was written |
| `AuditLog.CanonicalEntryInjective` | apps/gateway/src/do/AuditLog.ts:48-54 | Two rows have one encoding if and only if they agree on every hashed field |
| `AuditLog.EncodingReads` | apps/gateway/src/do/AuditLog.ts:48-54 | An encoding parses back to the array of the six hashed fields, in order, the agent's id as a number or null |
| `AuditLog.AuditLog.Append` | apps/gateway/src/do/AuditLog.ts:82-102 | Appends one row, chained to the last and carrying its own hash, and keeps a genuine table genuine |
| `AuditLog.AuditLog.Verify` | apps/gateway/src/do/AuditLog.ts:110-131 | On any table: intact if and only if it is a valid chain, and otherwise the seq of the one row it breaks at |
| `AuditLog.TamperEvident` | apps/gateway/src/do/AuditLog.ts:82-131 | Two non-empty intact tables that end in one hash agree row by row on every hashed field, or a collision or a genesis preimage is among their own rows |
| `AuditLog.DeletionReported` | apps/gateway/src/do/AuditLog.ts:104-131 | Deleting any rows but a suffix breaks the chain at the first survivor after the first deleted row, up to a collision or a genesis preimage among the rows |
| `AuditLog.EditReported` | apps/gateway/src/do/AuditLog.ts:104-131 | Editing hashed fields without touching hashes breaks the chain at the least edited row, or that row's two encodings collide |
| `AuditLog.TruncationUnnoticed` | apps/gateway/src/do/AuditLog.ts:104-131 | Deleting a suffix leaves an intact table: the documentation's claim about deleted rows does not cover it |
| `AuditLog.BreakUnique` | apps/gateway/src/do/AuditLog.ts:110-131 | A table breaks at one row only |
| `RelayRoute.HitWasAnswered` | apps/gateway/src/routes/relay.ts:94-181 | Over every interleaving of calls, a HIT's body, type, result hash and size are those of a successful origin call made earlier in the same scope for the same call, or the two calls' own texts collide |
| `RelayRoute.OriginCallsConserved` | apps/gateway/src/routes/relay.ts:96-181 | Every finished call, whether answered, failed or ended by an exception, is a HIT with no origin call or a non-hit with exactly one |
| `CallOutcomes.OutcomesExactly` | apps/gateway/src/routes/relay.ts:96-181 | In every run a call that is no hit reports a failed lookup if and only if its lookup got no reply, and a store if and only if its store got one; a hit had its reply and stored nothing |
| `CallOutcomes.HitExactly` | apps/gateway/src/routes/relay.ts:96-120 | In every run a lookup whose reply arrives is a HIT if and only if some call of the same scope put an answer under the same key before, whether or not that call heard so |
| `RelayRoute.HitsNeverUncounted` | apps/gateway/src/do/ContextIndex.ts:72-100 | An entry's `hit_count` is at least the number of distinct calls answered with it since it was stored |
| `RelayRoute.EntriesGenuine` | apps/gateway/src/do/ContextIndex.ts:115-127 | Every stored entry is an origin answer of its scope under its own request hash, with its content's hash and UTF-8 length, and `hit_count` equal to the successful lookups since its store |
| `RelayRoute.OnlyOwnEntry` | apps/gateway/src/routes/relay.ts:94-181 | A step changes no entry but its own call's; lookups only count; a failed origin call changes nothing |
| `RelayRoute.ScopesIsolated` | apps/gateway/src/lib/cacheClient.ts:22-39 | The index, answers and calls of a scope after any run are what they would be had only that scope's steps happened |
| `RelayRoute.HandleRelay` | apps/gateway/src/routes/relay.ts:94-181 | One uninterrupted call: final table and response for every outcome of lookup, origin and store, and the number of origin calls |
| `RelayRoute.AloneIsScript` | apps/gateway/src/routes/relay.ts:94-181 | What the handler does in one go is what the separate steps do with nothing between them |
| `CacheResets.StoreErasesExactly` | apps/gateway/src/do/ContextIndex.ts:102-127 | In every run, a store leaves its entry's count at zero, and thereby takes away counted hits if and only if some lookup has found the key since its last store |
| `CacheResets.CountsHits` | apps/gateway/src/do/ContextIndex.ts:72-100 | In every run an entry's count is positive if and only if some lookup has found its key since its last store, and a key once found or stored stays |
| `CacheResets.ServedHitErased` | apps/gateway/src/do/ContextIndex.ts:102-127 | A concrete run of two misses at once: one stores, a third caller is served that entry with a count of one, and the other's store sets the count back to zero |
| `RelayRoute.HitsCountedApart` | apps/gateway/src/do/ContextIndex.ts:72-100 | Two successful lookups with no store between them get different counts |
| `RelayRoute.InvAlways` | apps/gateway/src/routes/relay.ts:94-181 | Entries, calls and lookup places stay in agreement over every run |
| `ContextIndex.ContextIndex.Lookup` | apps/gateway/src/do/ContextIndex.ts:72-100 | Returns the entry with the count it now has, and changes that count and nothing else |
| `ContextIndex.ContextIndex.Store` | apps/gateway/src/do/ContextIndex.ts:115-127 | Replaces the one entry, with the UTF-8 length of its content and a count of zero |
| `Utf8Reader.EncodedReadsBack` | apps/gateway/src/do/ContextIndex.ts:115-117 | A strict UTF-8 reader, which refuses overlong forms and encoded surrogates, reads the counted bytes back as the content's characters, a surrogate without its partner as U+FFFD |
| `Utf8Reader.SizeExactly` | apps/gateway/src/do/ContextIndex.ts:115-117 | The size is the number of code units, plus those from 0x80 up, plus those from 0x800 up, minus two for every surrogate pair |

## Left out

- FeedRelay.FeedRelay.Fetch: the upgrade and missing-URL responses (426, 400), the feed key, and the await between accepting and answering.
- FeedRelay.FeedRelay.AfterAttempt: the backoff's length and the attempt counter, which only decide how long the loop sleeps.
- RelayStreams.InvAlways: a delivery log entry is appended in the step that issues it; its best-effort write to the log database may fail in the original.
- RelayDrops.EndAnnouncedExactly: speaks of all continuations; in one of them an end left untold may still be followed by a gap, if a later attempt fails before an event arrives.
- SseFraming.SseParser.PushChunk: works on UTF-16 code units, not on UTF-8 bytes; the terminators and field names are ASCII, so no cut differs.
- SseFraming.ChunkIndependenceExactly: chunks are cut between code units; the streaming decoder that holds back a split character is not modelled.
- JsonParser.PrintParses: a finite number is identified with the text the runtime prints for it; the digits themselves are not computed.
- CacheKey.CanonicalExactly: `undefined` appears only as an object member, not inside arrays, and a repeated key has already been merged by parsing.
- AuditLog.AuditLog.Append: the time of the entry is a parameter, and the table is changed by nobody else during the call.
- AuditLog.TamperEvident: the seq column is not hashed, so it is not part of the agreement.
- RelayRoute.HandleRelay: authorization, rate limits, body validation and the allowlist come before the request hash and are not modelled; the access log is best effort.
- ContextIndex.ContextIndex.Store: the creation time of an entry.
- Subscribers.ResumeAgent.OnMessage: the timers that decide when to reconnect; in `EndToEnd` a reconnect may happen at any moment.
- Metrics.Analyze: the wording of violations and the time of receipt, which no check reads.
- The summarizer agent, dashboard, log and CORS routes, audit listing, feed keys: wrappers and views with nothing to prove beyond the parts above.

/** The consumers of a feed: the chaos client that records what it receives, and
    the two agents that check it as it arrives. */
module Subscribers {
  import opened Options
  import opened Protocol
  import Metrics

  function SeqsOf(events: seq<BufferedEvent>): (r: seq<int>)
    ensures |r| == |events| && forall i :: 0 <= i < |r| ==> r[i] == events[i].seqNo
  {
    if events == [] then [] else [events[0].seqNo] + SeqsOf(events[1..])
  }

  function BodyOf(m: Message): Metrics.Body {
    match m
    case Replay(events) => Metrics.ReplaySeqs(SeqsOf(events))
    case Gap(k) => Metrics.GapSeq(k)
    case Live(e) => Metrics.EventSeq(e.seqNo)
  }

  function Later(a: nat, b: nat): nat {
    if a >= b then a else b
  }

  function Highest(events: seq<BufferedEvent>): (h: nat)
    requires events != []
    ensures forall i :: 0 <= i < |events| ==> events[i].seqNo <= h
    ensures exists i :: 0 <= i < |events| && events[i].seqNo == h
  {
    if |events| == 1 then events[0].seqNo
    else
      var others := Highest(events[1..]);
      assert forall i :: 0 < i < |events| ==> events[i] == events[1..][i - 1];
      Later(events[0].seqNo, others)
  }

  // ---------------------------------------------------------------- the chaos client

  function SeenAfter(seen: nat, m: Message): nat {
    match m
    case Replay(events) => if events == [] then seen else Later(seen, Highest(events))
    case Live(e) => Later(seen, e.seqNo)
    case Gap(k) => if k == 0 then seen else Later(seen, k - 1)
  }

  /** The seq a client has reached after what it has heard so far. */
  function Seen(heard: seq<Message>): nat {
    if heard == [] then 0 else SeenAfter(Seen(heard[..|heard| - 1]), heard[|heard| - 1])
  }

  function Recorded(client: Metrics.ClientId, heard: seq<Message>): (r: seq<Metrics.Received>)
    ensures |r| == |heard|
    ensures forall i :: 0 <= i < |r| ==> r[i] == Metrics.Received(client, BodyOf(heard[i]))
  {
    if heard == [] then []
    else
      var n := |heard| - 1;
      Recorded(client, heard[..n]) + [Metrics.Received(client, BodyOf(heard[n]))]
  }

  class ChaosClient {
    const clientId: Metrics.ClientId
    var messages: seq<Metrics.Received>
    var lastSeenSeq: nat
    ghost var heard: seq<Message>

    ghost predicate Valid()
      reads this
    {
      messages == Recorded(clientId, heard) && lastSeenSeq == Seen(heard)
    }

    constructor (clientId: Metrics.ClientId)
      ensures Valid() && this.clientId == clientId && heard == []
    {
      this.clientId := clientId;
      messages, lastSeenSeq, heard := [], 0, [];
    }

    method Record(m: Message)
      requires Valid()
      modifies this
      ensures Valid() && heard == old(heard) + [m]
    {
      heard := heard + [m];
      assert heard[..|heard| - 1] == old(heard);
      messages := messages + [Metrics.Received(clientId, BodyOf(m))];
      match m
      case Replay(events) =>
        if events != [] {
          lastSeenSeq := Later(lastSeenSeq, Highest(events));
        }
      case Live(e) => lastSeenSeq := Later(lastSeenSeq, e.seqNo);
      case Gap(k) =>
        // Everything before the named seq is acknowledged as lost.
        if k > 0 {
          lastSeenSeq := Later(lastSeenSeq, k - 1);
        }
    }
  }

  // ---------------------------------------------------------------- the ordering agent

  const HEARTBEAT_EVERY: nat := 25

  datatype OrderAction =
    | OrderingViolation(expected: nat, got: nat)
    | OrderCheck(through: nat, violations: nat)

  datatype Ordering = Ordering(
    lastSeen: nat,
    expecting: Option<nat>,
    sinceHeartbeat: nat,
    violations: nat,
    actions: seq<OrderAction>)

  const ORDERING_START := Ordering(0, None, 0, 0, [])

  function Beaten(o: Ordering): Ordering {
    if o.sinceHeartbeat + 1 >= HEARTBEAT_EVERY
    then o.(sinceHeartbeat := 0, actions := o.actions + [OrderCheck(o.lastSeen, o.violations)])
    else o.(sinceHeartbeat := o.sinceHeartbeat + 1)
  }

  function Observed(o: Ordering, m: Message): Ordering {
    match m
    case Gap(k) => o.(expecting := None, lastSeen := if k == 0 then o.lastSeen else Later(o.lastSeen, k - 1))
    case Replay(events) =>
      if events == [] then o
      else
        var last := events[|events| - 1].seqNo;
        o.(lastSeen := last, expecting := Some(last + 1))
    case Live(e) =>
      var checked := if o.expecting.Some? && e.seqNo != o.expecting.value
                     then o.(violations := o.violations + 1,
                             actions := o.actions + [OrderingViolation(o.expecting.value, e.seqNo)])
                     else o;
      Beaten(checked.(lastSeen := e.seqNo, expecting := Some(e.seqNo + 1)))
  }

  function ObservedAll(heard: seq<Message>): Ordering {
    if heard == [] then ORDERING_START else Observed(ObservedAll(heard[..|heard| - 1]), heard[|heard| - 1])
  }

  class OrderingAgent {
    var lastSeenSeq: nat
    var expectingSeq: Option<nat>
    var eventsSinceHeartbeat: nat
    var violations: nat
    var actions: seq<OrderAction>

    function State(): Ordering
      reads this
    {
      Ordering(lastSeenSeq, expectingSeq, eventsSinceHeartbeat, violations, actions)
    }

    constructor ()
      ensures State() == ORDERING_START
    {
      lastSeenSeq, expectingSeq, eventsSinceHeartbeat, violations, actions := 0, None, 0, 0, [];
    }

    method OnMessage(m: Message)
      modifies this
      ensures State() == Observed(old(State()), m)
    {
      match m
      case Gap(k) =>
        expectingSeq := None;
        if k > 0 {
          lastSeenSeq := Later(lastSeenSeq, k - 1);
        }
      case Replay(events) =>
        if |events| > 0 {
          lastSeenSeq := events[|events| - 1].seqNo;
          expectingSeq := Some(lastSeenSeq + 1);
        }
      case Live(e) =>
        if expectingSeq.Some? && e.seqNo != expectingSeq.value {
          violations := violations + 1;
          actions := actions + [OrderingViolation(expectingSeq.value, e.seqNo)];
        }
        lastSeenSeq := e.seqNo;
        expectingSeq := Some(e.seqNo + 1);
        eventsSinceHeartbeat := eventsSinceHeartbeat + 1;
        if eventsSinceHeartbeat >= HEARTBEAT_EVERY {
          eventsSinceHeartbeat := 0;
          actions := actions + [OrderCheck(e.seqNo, violations)];
        }
    }
  }

  // ---------------------------------------------------------------- the resume agent

  datatype ResumeAction =
    | InternalGap(prev: nat, next: nat)
    | WrongStart(expected: nat, got: nat)
    | ReconnectVerified(first: nat, last: nat)
    | CaughtUp
    | Resync(from: nat)

  datatype Resume = Resume(lastSeen: nat, hasConnectedBefore: bool, actions: seq<ResumeAction>)

  const RESUME_START := Resume(0, false, [])

  /** A replay has a hole just before position i. */
  predicate HoleAt(events: seq<BufferedEvent>, i: nat) {
    0 < i < |events| && events[i].seqNo != events[i - 1].seqNo + 1
  }

  /** The first hole of a replay, looking from position i on. */
  function HoleFrom(events: seq<BufferedEvent>, i: nat): Option<nat>
    decreases |events| - i
  {
    if i >= |events| then None
    else if HoleAt(events, i) then Some(i)
    else HoleFrom(events, i + 1)
  }

  lemma {:induction false} HoleFromExactly(events: seq<BufferedEvent>, i: nat)
    ensures match HoleFrom(events, i)
            case None => forall j :: i <= j < |events| ==> !HoleAt(events, j)
            case Some(h) => i <= h && HoleAt(events, h) && forall j :: i <= j < h ==> !HoleAt(events, j)
    decreases |events| - i
  {
    if i < |events| && !HoleAt(events, i) {
      HoleFromExactly(events, i + 1);
    }
  }

  method FindInternalGap(events: seq<BufferedEvent>) returns (hole: Option<nat>)
    ensures hole == HoleFrom(events, 1)
    ensures match hole
            case None => forall j :: 0 < j < |events| ==> !HoleAt(events, j)
            case Some(h) => HoleAt(events, h) && forall j :: 0 < j < h ==> !HoleAt(events, j)
  {
    var i := 1;
    while i < |events|
      invariant i >= 1 && HoleFrom(events, 1) == HoleFrom(events, i)
      invariant forall j :: 0 < j < i ==> !HoleAt(events, j)
    {
      if events[i].seqNo != events[i - 1].seqNo + 1 {
        return Some(i);
      }
      i := i + 1;
    }
    return None;
  }

  /** What the replay check logs. */
  function Verdict(hasConnectedBefore: bool, expectedFirst: nat, events: seq<BufferedEvent>): seq<ResumeAction> {
    var hole := HoleFrom(events, 1);
    if hole.Some? && 0 < hole.value < |events| then
      [InternalGap(events[hole.value - 1].seqNo, events[hole.value].seqNo)]
    else if hasConnectedBefore && events != [] && events[0].seqNo != expectedFirst then
      [WrongStart(expectedFirst, events[0].seqNo)]
    else if hasConnectedBefore then
      [if events == [] then CaughtUp else ReconnectVerified(events[0].seqNo, events[|events| - 1].seqNo)]
    else []
  }

  function Resumed(r: Resume, expectedFirst: nat, m: Message): Resume {
    match m
    case Replay(events) =>
      Resume(if events == [] then r.lastSeen else events[|events| - 1].seqNo, true,
             r.actions + Verdict(r.hasConnectedBefore, expectedFirst, events))
    case Gap(k) => Resume(if k == 0 then r.lastSeen else Later(r.lastSeen, k - 1), true, r.actions + [Resync(k)])
    case Live(e) => r.(lastSeen := e.seqNo)
  }

  class ResumeAgent {
    var lastSeenSeq: nat
    var hasConnectedBefore: bool
    var actions: seq<ResumeAction>

    function State(): Resume
      reads this
    {
      Resume(lastSeenSeq, hasConnectedBefore, actions)
    }

    constructor ()
      ensures State() == RESUME_START
    {
      lastSeenSeq, hasConnectedBefore, actions := 0, false, [];
    }

    /** A message on the connection that was opened expecting a given seq. */
    method OnMessage(expectedFirst: nat, m: Message)
      modifies this
      ensures State() == Resumed(old(State()), expectedFirst, m)
    {
      match m
      case Replay(events) =>
        var hole := FindInternalGap(events);
        if hole.Some? {
          actions := actions + [InternalGap(events[hole.value - 1].seqNo, events[hole.value].seqNo)];
        } else if hasConnectedBefore && |events| > 0 && events[0].seqNo != expectedFirst {
          actions := actions + [WrongStart(expectedFirst, events[0].seqNo)];
        } else if hasConnectedBefore {
          var verified := if |events| > 0 then ReconnectVerified(events[0].seqNo, events[|events| - 1].seqNo)
                          else CaughtUp;
          actions := actions + [verified];
        }
        if |events| > 0 {
          lastSeenSeq := events[|events| - 1].seqNo;
        }
        hasConnectedBefore := true;
      case Gap(k) =>
        actions := actions + [Resync(k)];
        if k > 0 {
          lastSeenSeq := Later(lastSeenSeq, k - 1);
        }
        hasConnectedBefore := true;
      case Live(e) => lastSeenSeq := e.seqNo;
    }
  }
}

/** Numbered events, the messages a subscriber receives, and the retained
    window that the relay's buffer and the reference ring buffer share. */
module Protocol {
  import opened CodeUnits
  import opened Options
  import opened SseFraming

  datatype BufferedEvent = BufferedEvent(seqNo: nat, upstreamId: Option<Text>, event: Option<Text>, data: Text)

  datatype Message =
    | Replay(events: seq<BufferedEvent>)
    | Gap(oldestAvailableSeq: nat)
    | Live(event: BufferedEvent)

  function Number(seqNo: nat, e: SseEvent): BufferedEvent {
    BufferedEvent(seqNo, e.id, e.event, e.data)
  }

  /** The events of a batch, numbered from a given seq. */
  function NumberFrom(first: nat, events: seq<SseEvent>): (r: seq<BufferedEvent>)
    ensures |r| == |events|
  {
    if events == [] then []
    else
      var n := |events| - 1;
      NumberFrom(first, events[..n]) + [Number(first + n, events[n])]
  }

  /** Every event ever numbered, in order: seqs start at one and have no holes. */
  ghost predicate IsHistory(h: seq<BufferedEvent>) {
    forall i :: 0 <= i < |h| ==> h[i].seqNo == i + 1
  }

  function LastN<T>(s: seq<T>, n: nat): seq<T> {
    if |s| <= n then s else s[|s| - n..]
  }

  function Newer(events: seq<BufferedEvent>, lastSeen: nat): seq<BufferedEvent> {
    if events == [] then []
    else if events[0].seqNo > lastSeen then [events[0]] + Newer(events[1..], lastSeen)
    else Newer(events[1..], lastSeen)
  }

  /** The answer to a subscriber that has seen everything up to `lastSeen`. */
  function Greeting(buf: seq<BufferedEvent>, lastSeen: nat): Message {
    if buf != [] && lastSeen + 1 < buf[0].seqNo then Gap(buf[0].seqNo) else Replay(Newer(buf, lastSeen))
  }

  lemma NewerStep(buf: seq<BufferedEvent>, i: nat, lastSeen: nat)
    requires i < |buf|
    ensures Newer(buf[i..], lastSeen)
            == (if buf[i].seqNo > lastSeen then [buf[i]] else []) + Newer(buf[i + 1..], lastSeen)
  {
    assert buf[i..][1..] == buf[i + 1..];
  }

  lemma {:induction false} NewerIsAll(h: seq<BufferedEvent>, lo: nat, lastSeen: nat)
    requires IsHistory(h) && lastSeen <= lo <= |h|
    ensures Newer(h[lo..], lastSeen) == h[lo..]
    decreases |h| - lo
  {
    if lo < |h| {
      assert h[lo].seqNo == lo + 1;
      NewerIsAll(h, lo + 1, lastSeen);
      hide IsHistory, Newer;
      NewerStep(h, lo, lastSeen);
    }
  }

  lemma OlderSkipped(h: seq<BufferedEvent>, lo: nat, lastSeen: nat)
    requires IsHistory(h) && lo < |h| && lo < lastSeen
    ensures Newer(h[lo..], lastSeen) == Newer(h[lo + 1..], lastSeen)
  {
    assert h[lo].seqNo == lo + 1;
    NewerStep(h, lo, lastSeen);
    hide Newer, IsHistory;
  }

  lemma {:induction false} NewerOfWindow(h: seq<BufferedEvent>, lo: nat, lastSeen: nat)
    requires IsHistory(h) && lo <= |h|
    ensures Newer(h[lo..], lastSeen)
            == if lastSeen >= |h| then [] else if lastSeen <= lo then h[lo..] else h[lastSeen..]
    decreases |h| - lo
  {
    hide *;
    if lastSeen <= lo {
      NewerIsAll(h, lo, lastSeen);
      assert lo == |h| ==> h[lo..] == [];
    } else if lo < |h| {
      OlderSkipped(h, lo, lastSeen);
      NewerOfWindow(h, lo + 1, lastSeen);
    } else {
      NothingNewer(h, lastSeen);
    }
  }

  lemma NothingNewer(h: seq<BufferedEvent>, lastSeen: nat)
    ensures Newer(h[|h|..], lastSeen) == []
  {
  }

  /** Exactly what a subscriber is sent, in terms of the history: a gap naming
      the oldest retained seq when something it needs is gone, and otherwise
      precisely the events after the last one it has seen. */
  lemma GreetingExact(h: seq<BufferedEvent>, capacity: nat, lastSeen: nat)
    requires IsHistory(h) && capacity > 0
    ensures Greeting(LastN(h, capacity), lastSeen)
            == if lastSeen + capacity < |h| then Gap(|h| - capacity + 1)
               else if lastSeen >= |h| then Replay([])
               else Replay(h[lastSeen..])
  {
    var lo := if |h| <= capacity then 0 else |h| - capacity;
    assert LastN(h, capacity) == h[lo..];
    NewerOfWindow(h, lo, lastSeen);
  }
}

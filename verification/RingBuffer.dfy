/** The reference replay buffer. */
module RingBuffer {
  import opened CodeUnits
  import opened Options
  import opened SseFraming
  import opened Protocol

  datatype ReplaySince = Events(events: seq<BufferedEvent>) | GapFrom(oldestAvailableSeq: nat)

  class RingBuffer {
    const capacity: nat
    var buf: seq<BufferedEvent>
    var nextSeq: nat
    ghost var history: seq<BufferedEvent>

    /** The buffer is the last `capacity` events of the history. */
    ghost predicate Valid()
      reads this
    {
      && capacity > 0
      && IsHistory(history)
      && nextSeq == |history| + 1
      && buf == LastN(history, capacity)
    }

    constructor (capacity: nat)
      requires capacity > 0
      ensures Valid() && this.capacity == capacity && history == []
    {
      this.capacity := capacity;
      buf, nextSeq, history := [], 1, [];
    }

    method Push(upstreamId: Option<Text>, event: Option<Text>, data: Text) returns (seqNo: nat)
      requires Valid()
      modifies this
      ensures Valid()
      ensures seqNo == |history|
      ensures history == old(history) + [BufferedEvent(seqNo, upstreamId, event, data)]
    {
      seqNo := nextSeq;
      var pushed := BufferedEvent(seqNo, upstreamId, event, data);
      PushedWindow(history, pushed, capacity);
      hide LastN, IsHistory;
      nextSeq := nextSeq + 1;
      if |buf| == capacity {
        buf := buf[1..];
      }
      buf := buf + [pushed];
      history := history + [pushed];
    }

    /** Everything buffered after a seq, or where the buffer starts if something
        after that seq is gone. */
    method Since(lastSeen: nat) returns (r: ReplaySince)
      requires Valid()
      ensures r == if lastSeen + capacity < |history| then GapFrom(|history| - capacity + 1)
                   else if lastSeen >= |history| then Events([])
                   else Events(history[lastSeen..])
      ensures r == AsReplaySince(Greeting(buf, lastSeen))
    {
      GreetingExact(history, capacity, lastSeen);
      hide LastN, IsHistory, Newer;
      if buf != [] {
        var oldest := buf[0].seqNo;
        if lastSeen + 1 < oldest {
          return GapFrom(oldest);
        }
      }
      var events := Filter(lastSeen);
      return Events(events);
    }

    method Filter(lastSeen: nat) returns (events: seq<BufferedEvent>)
      ensures events == Newer(buf, lastSeen)
    {
      events := [];
      for i := 0 to |buf|
        invariant Newer(buf, lastSeen) == events + Newer(buf[i..], lastSeen)
      {
        NewerStep(buf, i, lastSeen);
        if buf[i].seqNo > lastSeen {
          events := events + [buf[i]];
        }
      }
    }
  }

  /** A fresh buffer with every given event pushed into it. */
  method PushedThrough(capacity: nat, events: seq<SseEvent>) returns (ring: RingBuffer)
    requires capacity > 0
    ensures ring.Valid() && ring.capacity == capacity && ring.history == NumberFrom(1, events)
  {
    ring := new RingBuffer(capacity);
    for i := 0 to |events|
      invariant ring.Valid() && ring.capacity == capacity && ring.history == NumberFrom(1, events[..i])
      invariant fresh(ring)
    {
      assert events[..i + 1][..i] == events[..i];
      var seqNo := ring.Push(events[i].id, events[i].event, events[i].data);
    }
    assert events[..|events|] == events;
  }

  /** The reference answer that a relay's greeting corresponds to. */
  function AsReplaySince(m: Message): ReplaySince {
    match m
    case Gap(k) => GapFrom(k)
    case Replay(events) => Events(events)
    case Live(_) => Events([])
  }

  /** Evicting before pushing keeps the last `capacity` events too. */
  lemma PushedWindow(h: seq<BufferedEvent>, e: BufferedEvent, capacity: nat)
    requires IsHistory(h) && e.seqNo == |h| + 1 && capacity > 0
    ensures IsHistory(h + [e])
    ensures var buf := LastN(h, capacity);
            LastN(h + [e], capacity) == (if |buf| == capacity then buf[1..] else buf) + [e]
  {
  }
}

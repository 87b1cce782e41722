/** The origin's stream into the relay: what a connection that is cut off
    anywhere leaves behind. */
module OriginFeed {
  import opened CodeUnits
  import opened SseFraming
  import opened OriginSimulator
  import opened Protocol
  import opened FeedRelay
  import opened RelayTurns

  /** A text without carriage returns is off the parser's trap, and so is every
      text it begins with. */
  lemma NoCrNoTrap(t: Text, start: Text)
    requires CR !in t && start <= t
    ensures !LfAfterLoneCr(start)
  {
    assert forall i :: 0 <= i < |start| ==> start[i] == t[i] && start[i] != CR;
  }

  /** More text only ever adds events. */
  lemma MoreTextMoreEvents(start: Text, more: Text)
    requires !LfAfterLoneCr(start) && !LfAfterLoneCr(start + more)
    ensures ParsedText(start).events <= ParsedText(start + more).events
  {
    var first := Push(FRESH_PARSER, start);
    var second := Push(first.parser, more);
    assert Concat([start]) == start && Concat([start, more]) == start + more by {
      assert [start, more][1..] == [more] && Concat([more]) == more + Concat([]);
    }
    EventsDependOnTextOnly([start]);
    EventsDependOnTextOnly([start, more]);
    assert PushAll(FRESH_PARSER, [start]) == first by { assert [start][1..] == []; }
    assert PushAll(first.parser, [more]) == second by { assert [more][1..] == []; }
    assert PushAll(FRESH_PARSER, [start, more]).events == first.events + second.events by {
      assert [start, more][1..] == [more];
    }
  }

  /** Whatever the origin's stream begins with parses to what its notifications
      begin with. */
  lemma PartParses(blocks: seq<Block>, t: Text)
    requires CleanNames(blocks) && t <= StreamText(blocks)
    ensures !LfAfterLoneCr(t) && ParsedText(t).events <= Notified(blocks)
  {
    var whole := StreamText(blocks);
    var more := whole[|t|..];
    assert t + more == whole;
    StreamHasNoCr(blocks);
    StreamParses(blocks);
    hide *;
    NoCrNoTrap(whole, t);
    NoCrNoTrap(t + more, t + more);
    MoreTextMoreEvents(t, more);
  }

  /** However the origin's stream is chunked and wherever it is cut off, the
      relay retains, numbered in order after what it had, some first part of the
      origin's notifications and nothing else; all of them if it is not cut. */
  lemma {:induction false} NotificationsRetained(r: Relay, h: seq<BufferedEvent>, blocks: seq<Block>, chunks: seq<Text>)
    requires Retains(r, h) && CleanNames(blocks) && Concat(chunks) <= StreamText(blocks)
    ensures var heard := ParsedText(Concat(chunks)).events;
            && heard <= Notified(blocks)
            && (Concat(chunks) == StreamText(blocks) ==> heard == Notified(blocks))
            && Retains(ConnectionRead(r, chunks), h + NumberFrom(r.nextSeq, heard))
  {
    hide *;
    PartParses(blocks, Concat(chunks));
    StreamParses(blocks);
    ConnectionRetains(r, h, chunks);
  }
}

/** What an honest feed lets a client hear, and why every check then passes. */
module Honesty {
  import opened Options
  import opened Protocol
  import opened Subscribers
  import opened Metrics

  /** What a client that has reached `seen` may hear next; `resync` says that
      the last thing it heard was a gap. */
  ghost predicate MayHear(seen: nat, resync: bool, m: Message) {
    match m
    case Replay(events) => forall i :: 0 <= i < |events| ==> events[i].seqNo == seen + 1 + i
    case Gap(k) => seen < k
    case Live(e) => e.seqNo == seen + 1 || (resync && seen < e.seqNo)
  }

  predicate EndsInGap(heard: seq<Message>) {
    heard != [] && heard[|heard| - 1].Gap?
  }

  /** A log in which nothing is missing without a gap that says so. */
  ghost predicate Honest(heard: seq<Message>) {
    forall p :: 0 <= p < |heard| ==> MayHear(Seen(heard[..p]), EndsInGap(heard[..p]), heard[p])
  }

  lemma {:induction false} HonestSnoc(heard: seq<Message>, m: Message)
    ensures Honest(heard + [m]) <==> Honest(heard) && MayHear(Seen(heard), EndsInGap(heard), m)
  {
    hide MayHear, Seen, EndsInGap;
    var longer := heard + [m];
    assert forall p :: 0 <= p < |heard| ==> longer[..p] == heard[..p] && longer[p] == heard[p];
    assert longer[..|heard|] == heard;
  }

  lemma SeenSnoc(heard: seq<Message>, m: Message)
    ensures Seen(heard + [m]) == SeenAfter(Seen(heard), m)
  {
    assert (heard + [m])[..|heard|] == heard;
  }

  /** Where an honest message takes a client. */
  lemma SeenExactly(seen: nat, resync: bool, m: Message)
    requires MayHear(seen, resync, m)
    ensures SeenAfter(seen, m)
            == match m
               case Replay(events) => seen + |events|
               case Gap(k) => k - 1
               case Live(e) => e.seqNo
  {
    if m.Replay? && m.events != [] {
      assert m.events[|m.events| - 1].seqNo == seen + |m.events|;
    }
  }

  lemma {:induction false} SeenGrows(heard: seq<Message>, p: nat)
    requires p <= |heard|
    ensures Seen(heard[..p]) <= Seen(heard)
    decreases |heard|
  {
    if p == |heard| {
      assert heard[..p] == heard;
    } else {
      var n := |heard| - 1;
      assert heard[..n][..p] == heard[..p];
      SeenGrows(heard[..n], p);
    }
  }

  lemma SeenAt(heard: seq<Message>, p: nat)
    requires p < |heard|
    ensures Seen(heard[..p + 1]) == SeenAfter(Seen(heard[..p]), heard[p])
  {
    assert heard[..p + 1] == heard[..p] + [heard[p]];
    SeenSnoc(heard[..p], heard[p]);
  }

  // ---------------------------------------------------------------- the recorded log passes

  /** An honest live event is later than what had been seen, and is what has
      been seen once it is heard. */
  lemma LiveTakesTo(heard: seq<Message>, p: nat)
    requires Honest(heard) && p < |heard| && heard[p].Live?
    ensures Seen(heard[..p]) < heard[p].event.seqNo == Seen(heard[..p + 1])
    ensures !EndsInGap(heard[..p]) ==> heard[p].event.seqNo == Seen(heard[..p]) + 1
  {
    assert MayHear(Seen(heard[..p]), EndsInGap(heard[..p]), heard[p]);
    SeenAt(heard, p);
    SeenExactly(Seen(heard[..p]), EndsInGap(heard[..p]), heard[p]);
    hide Honest, Seen, SeenAfter, EndsInGap;
  }

  lemma SeenBetween(heard: seq<Message>, p: nat, q: nat)
    requires p <= q <= |heard|
    ensures Seen(heard[..p]) <= Seen(heard[..q])
  {
    hide *;
    SeenGrows(heard[..q], p);
    assert heard[..q][..p] == heard[..p];
  }

  lemma NoGapBefore(heard: seq<Message>, p: nat)
    requires p < |heard| && !heard[p].Gap?
    ensures !EndsInGap(heard[..p + 1])
  {
  }

  lemma EventBefore(heard: seq<Message>, p: nat, q: nat)
    requires Honest(heard) && p < q < |heard| && heard[p].Live? && heard[q].Live?
    ensures heard[p].event.seqNo < heard[q].event.seqNo
    ensures q == p + 1 ==> heard[q].event.seqNo == heard[p].event.seqNo + 1
  {
    hide *;
    LiveTakesTo(heard, p);
    LiveTakesTo(heard, q);
    NoGapBefore(heard, p);
    SeenBetween(heard, p + 1, q);
  }

  lemma {:induction false} HonestNeighbours(client: ClientId, heard: seq<Message>, rule: Rule)
    requires Honest(heard) && !rule.WithinReplay?
    ensures Neighbours(rule, Recorded(client, heard))
  {
    var ms := Recorded(client, heard);
    hide Honest;
    forall p | 0 < p < |ms| && ms[p - 1].body.EventSeq? && ms[p].body.EventSeq?
      ensures !Breaks(rule, ms[p - 1].body.seqNo, ms[p].body.seqNo)
    {
      EventBefore(heard, p - 1, p);
    }
  }

  lemma {:induction false} HonestNoDuplicates(client: ClientId, heard: seq<Message>)
    requires Honest(heard)
    ensures NoDuplicates(Recorded(client, heard))
  {
    var ms := Recorded(client, heard);
    hide Honest;
    forall p, q | 0 <= p < q < |ms| && ms[p].body.EventSeq? && ms[q].body.EventSeq?
      ensures ms[p].body.seqNo != ms[q].body.seqNo
    {
      EventBefore(heard, p, q);
    }
  }

  lemma KnownStep(known: Option<int>, seen: nat, resync: bool, m: Message)
    requires MayHear(seen, resync, m) && KnownAgrees(known, seen)
    ensures KnownAgrees(KnownAfter(known, BodyOf(m)), SeenAfter(seen, m))
  {
    SeenExactly(seen, resync, m);
  }

  lemma KnownSnoc(client: ClientId, heard: seq<Message>, m: Message)
    ensures Known(Recorded(client, heard + [m])) == KnownAfter(Known(Recorded(client, heard)), BodyOf(m))
  {
    assert (heard + [m])[..|heard|] == heard;
    var longer := Recorded(client, heard + [m]);
    assert longer[..|heard|] == Recorded(client, heard);
    hide KnownAfter;
  }

  /** The analysis and the client agree, if the analysis knows anything. */
  ghost predicate KnownAgrees(known: Option<int>, seen: nat) {
    known.Some? ==> known.value == seen
  }

  /** What the analysis reconstructs is what the client claims. */
  lemma {:induction false} KnownIsSeen(client: ClientId, heard: seq<Message>)
    requires Honest(heard)
    ensures KnownAgrees(Known(Recorded(client, heard)), Seen(heard))
    decreases |heard|
  {
    if heard != [] {
      var n := |heard| - 1;
      var init, m := heard[..n], heard[n];
      hide *;
      assert heard == init + [m];
      HonestSnoc(init, m);
      KnownIsSeen(client, init);
      KnownSnoc(client, init, m);
      SeenSnoc(init, m);
      KnownStep(Known(Recorded(client, init)), Seen(init), EndsInGap(init), m);
    }
  }

  lemma {:induction false} HonestPrefix(heard: seq<Message>, p: nat)
    requires Honest(heard) && p <= |heard|
    ensures Honest(heard[..p])
  {
    hide MayHear, Seen, EndsInGap;
    assert forall q :: 0 <= q < p ==> heard[..p][..q] == heard[..q] && heard[..p][q] == heard[q];
  }

  lemma {:induction false} RecordedPrefix(client: ClientId, heard: seq<Message>, p: nat)
    requires p <= |heard|
    ensures Recorded(client, heard)[..p] == Recorded(client, heard[..p])
  {
  }

  lemma ReplayConnects(known: Option<int>, seen: nat, resync: bool, m: Message)
    requires MayHear(seen, resync, m) && m.Replay? && KnownAgrees(known, seen)
    ensures Connects(known, BodyOf(m).seqs)
  {
  }

  lemma {:induction false} HonestSeamless(client: ClientId, heard: seq<Message>, p: nat)
    requires Honest(heard) && p < |heard|
    ensures Seamless(Recorded(client, heard)[..p], Recorded(client, heard)[p].body)
  {
    assert MayHear(Seen(heard[..p]), EndsInGap(heard[..p]), heard[p]);
    assert Recorded(client, heard)[p].body == BodyOf(heard[p]);
    assert heard[p].Replay? ==> BodyOf(heard[p]) == ReplaySeqs(BodyOf(heard[p]).seqs);
    assert !heard[p].Replay? ==> !BodyOf(heard[p]).ReplaySeqs?;
    RecordedPrefix(client, heard, p);
    hide *;
    HonestPrefix(heard, p);
    KnownIsSeen(client, heard[..p]);
    if heard[p].Replay? {
      ReplayConnects(Known(Recorded(client, heard[..p])), Seen(heard[..p]), EndsInGap(heard[..p]), heard[p]);
      SeamlessIs(Recorded(client, heard[..p]), BodyOf(heard[p]).seqs);
    } else {
      OthersSeamless(Recorded(client, heard[..p]), BodyOf(heard[p]));
    }
  }

  /** An honest log passes all four checks. */
  lemma {:induction false} HonestPasses(client: ClientId, heard: seq<Message>)
    requires Honest(heard)
    ensures Passes(Recorded(client, heard))
  {
    HonestNeighbours(client, heard, Consecutive);
    HonestNeighbours(client, heard, Ascending);
    HonestNoDuplicates(client, heard);
    hide Honest, Neighbours, NoDuplicates, Seamless;
    forall p | 0 <= p < |heard| ensures Seamless(Recorded(client, heard)[..p], Recorded(client, heard)[p].body) {
      HonestSeamless(client, heard, p);
    }
  }

  // ---------------------------------------------------------------- the ordering agent is content

  lemma ObservedStep(o: Ordering, seen: nat, resync: bool, m: Message)
    requires MayHear(seen, resync, m)
    requires o.lastSeen == seen && o.violations == 0
    requires o.expecting.Some? ==> o.expecting.value == seen + 1
    requires resync ==> o.expecting.None?
    ensures var next := Observed(o, m);
            && next.lastSeen == SeenAfter(seen, m) && next.violations == 0
            && (next.expecting.Some? ==> next.expecting.value == next.lastSeen + 1)
            && (m.Gap? ==> next.expecting.None?)
  {
    SeenExactly(seen, resync, m);
  }

  /** On an honest log the ordering agent raises no alarm, and it reaches the
      same seq as the chaos client would. */
  lemma {:induction false} OrderingContent(heard: seq<Message>)
    requires Honest(heard)
    ensures var o := ObservedAll(heard);
            && o.lastSeen == Seen(heard) && o.violations == 0
            && (o.expecting.Some? ==> o.expecting.value == o.lastSeen + 1)
            && (EndsInGap(heard) ==> o.expecting.None?)
    decreases |heard|
  {
    if heard != [] {
      var n := |heard| - 1;
      assert heard == heard[..n] + [heard[n]];
      HonestSnoc(heard[..n], heard[n]);
      OrderingContent(heard[..n]);
      ObservedStep(ObservedAll(heard[..n]), Seen(heard[..n]), EndsInGap(heard[..n]), heard[n]);
      hide Honest, MayHear, Observed, SeenAfter;
    }
  }

  // ---------------------------------------------------------------- every seq is accounted for

  /** A message carries the event of a seq. */
  ghost predicate Carries(m: Message, s: nat) {
    match m
    case Replay(events) => exists i :: 0 <= i < |events| && events[i].seqNo == s
    case Gap(_) => false
    case Live(e) => e.seqNo == s
  }

  /** A gap at position p tells its hearer, who has yet to reach a seq, that the
      seq is lost: it names a later one, or the next event is a later one. */
  ghost predicate Announces(heard: seq<Message>, p: nat, s: nat) {
    p < |heard| && heard[p].Gap? && Seen(heard[..p]) < s
    && (s < heard[p].oldestAvailableSeq
        || (p + 1 < |heard| && heard[p + 1].Live? && s < heard[p + 1].event.seqNo))
  }

  ghost predicate Carried(heard: seq<Message>, s: nat) {
    exists p :: 0 <= p < |heard| && Carries(heard[p], s)
  }

  ghost predicate Lost(heard: seq<Message>, s: nat) {
    exists p :: 0 <= p < |heard| && Announces(heard, p, s)
  }

  ghost predicate Accounted(heard: seq<Message>, s: nat) {
    Carried(heard, s) || Lost(heard, s)
  }

  lemma AccountedInLonger(heard: seq<Message>, m: Message, s: nat)
    requires Accounted(heard, s)
    ensures Accounted(heard + [m], s)
  {
    var longer := heard + [m];
    if p :| 0 <= p < |heard| && Carries(heard[p], s) {
      assert Carries(longer[p], s);
    } else {
      var p :| 0 <= p < |heard| && Announces(heard, p, s);
      assert longer[..p] == heard[..p];
      assert Announces(longer, p, s);
    }
  }

  lemma LastAccounts(heard: seq<Message>, m: Message, s: nat)
    requires MayHear(Seen(heard), EndsInGap(heard), m) && Seen(heard) < s <= SeenAfter(Seen(heard), m)
    ensures Accounted(heard + [m], s)
  {
    var longer, n := heard + [m], |heard|;
    assert longer[n] == m && longer[..n] == heard;
    SeenExactly(Seen(heard), EndsInGap(heard), m);
    hide Seen, SeenAfter;
    match m
    case Replay(events) =>
      assert events[s - Seen(heard) - 1].seqNo == s;
      assert Carries(longer[n], s);
    case Gap(k) => assert Announces(longer, n, s);
    case Live(e) =>
      if s == e.seqNo {
        assert Carries(longer[n], s);
      } else {
        assert longer[n - 1] == heard[n - 1] && longer[..n - 1] == heard[..n - 1];
        SeenGrows(heard, n - 1);
        assert Announces(longer, n - 1, s);
      }
  }

  /** What a message carries is what it takes its hearer past. */
  lemma CarriedIsPassed(heard: seq<Message>, p: nat, s: nat)
    requires Honest(heard) && p < |heard| && Carries(heard[p], s)
    ensures Seen(heard[..p]) < s <= Seen(heard[..p + 1])
    ensures !heard[p].Gap? && (heard[p].Live? ==> heard[p].event.seqNo == s)
  {
    assert MayHear(Seen(heard[..p]), EndsInGap(heard[..p]), heard[p]);
    SeenAt(heard, p);
    SeenExactly(Seen(heard[..p]), EndsInGap(heard[..p]), heard[p]);
    hide Honest, Seen, SeenAfter;
  }

  lemma GapTakesPast(heard: seq<Message>, q: nat, s: nat)
    requires Honest(heard) && Announces(heard, q, s)
    ensures Seen(heard[..q]) < s
    ensures s <= Seen(heard[..q + 1]) || (q + 1 < |heard| && heard[q + 1].Live? && s < heard[q + 1].event.seqNo)
    ensures q + 1 < |heard| && heard[q + 1].Live? ==> heard[q + 1].event.seqNo == Seen(heard[..q + 2])
  {
    assert MayHear(Seen(heard[..q]), EndsInGap(heard[..q]), heard[q]);
    SeenAt(heard, q);
    SeenExactly(Seen(heard[..q]), EndsInGap(heard[..q]), heard[q]);
    if q + 1 < |heard| && heard[q + 1].Live? {
      assert MayHear(Seen(heard[..q + 1]), EndsInGap(heard[..q + 1]), heard[q + 1]);
      SeenAt(heard, q + 1);
      SeenExactly(Seen(heard[..q + 1]), EndsInGap(heard[..q + 1]), heard[q + 1]);
    }
    hide Honest, Seen, SeenAfter, MayHear, EndsInGap;
  }

  /** A seq that was delivered is never one that a gap told of as lost. */
  lemma {:induction false} DeliveredIsNotLost(heard: seq<Message>, s: nat, p: nat, q: nat)
    requires Honest(heard) && p < |heard| && Carries(heard[p], s)
    ensures !Announces(heard, q, s)
  {
    CarriedIsPassed(heard, p, s);
    if Announces(heard, q, s) {
      GapTakesPast(heard, q, s);
      if p < q { SeenBetween(heard, p + 1, q); }
      if q < p { SeenBetween(heard, q + 1, p); }
      if q + 1 < p { SeenBetween(heard, q + 2, p); }
      hide *;
      assert false;
    }
  }

  /** Every seq up to the one a client has reached was delivered to it, or a gap
      told it that the seq is lost. */
  lemma {:induction false} NothingSilentlyLost(heard: seq<Message>, s: nat)
    requires Honest(heard) && 0 < s <= Seen(heard)
    ensures Accounted(heard, s)
    decreases |heard|
  {
    var n := |heard| - 1;
    var init, m := heard[..n], heard[n];
    assert heard == init + [m];
    HonestSnoc(init, m);
    hide Honest, MayHear, Accounted, SeenAfter;
    if s <= Seen(init) {
      NothingSilentlyLost(init, s);
      AccountedInLonger(init, m, s);
    } else {
      LastAccounts(init, m, s);
    }
  }

  /** Every seq up to the one a client has reached was either delivered to it or
      told to it as lost, and never both. */
  lemma {:induction false} DeliveredOrLost(heard: seq<Message>, s: nat)
    requires Honest(heard) && 0 < s <= Seen(heard)
    ensures Carried(heard, s) <==> !Lost(heard, s)
  {
    NothingSilentlyLost(heard, s);
    if Carried(heard, s) {
      var p :| 0 <= p < |heard| && Carries(heard[p], s);
      forall q | 0 <= q < |heard| ensures !Announces(heard, q, s) {
        DeliveredIsNotLost(heard, s, p, q);
      }
    }
  }
}

/** What the consumers conclude from what they hear, said by the positions of the
    messages and not by what the consumers keep track of. */
module AgentReports {
  import opened Options
  import opened Protocol
  import opened Subscribers
  import opened Honesty

  // ---------------------------------------------------------------- the last seen seq

  /** A message brings its hearer to a seq. */
  ghost predicate Brings(m: Message, v: nat) {
    match m
    case Replay(events) => exists i :: 0 <= i < |events| && events[i].seqNo == v
    case Gap(k) => k == v + 1
    case Live(e) => e.seqNo == v
  }

  lemma BringsExactly(seen: nat, m: Message)
    ensures seen <= SeenAfter(seen, m)
    ensures forall v: nat :: Brings(m, v) ==> v <= SeenAfter(seen, m)
    ensures SeenAfter(seen, m) == seen || Brings(m, SeenAfter(seen, m))
  {
    if m.Replay? && m.events != [] {
      var i :| 0 <= i < |m.events| && m.events[i].seqNo == Highest(m.events);
    }
  }

  ghost predicate BroughtTo(heard: seq<Message>, v: nat) {
    exists p :: 0 <= p < |heard| && Brings(heard[p], v)
  }

  /** A client's last seen seq is the greatest that any message brought it to, and
      zero if none brought it to any. */
  lemma {:induction false} SeenIsGreatest(heard: seq<Message>)
    ensures forall v: nat :: BroughtTo(heard, v) ==> v <= Seen(heard)
    ensures Seen(heard) == 0 || BroughtTo(heard, Seen(heard))
    decreases |heard|
  {
    if heard != [] {
      var n := |heard| - 1;
      SeenIsGreatest(heard[..n]);
      BringsExactly(Seen(heard[..n]), heard[n]);
      hide Brings, SeenAfter;
      forall v: nat | BroughtTo(heard, v) ensures v <= Seen(heard) {
        var p :| 0 <= p < |heard| && Brings(heard[p], v);
        if p < n { assert Brings(heard[..n][p], v); assert BroughtTo(heard[..n], v); }
      }
      if BroughtTo(heard[..n], Seen(heard[..n])) {
        var p :| 0 <= p < n && Brings(heard[..n][p], Seen(heard[..n]));
        assert Brings(heard[p], Seen(heard[..n]));
      }
    }
  }

  // ---------------------------------------------------------------- the ordering agent

  /** A message that says, or takes back, what comes next: anything but an empty
      replay. */
  predicate Tells(m: Message) {
    !(m.Replay? && m.events == [])
  }

  /** The last telling message before a position is not a gap, and the seq after
      the one it ends at is this. */
  ghost predicate DueAt(heard: seq<Message>, p: nat, v: nat) {
    exists q :: 0 <= q < p <= |heard| && EndsJustBelow(heard[q], v)
                && forall r :: q < r < p ==> !Tells(heard[r])
  }

  predicate EndsJustBelow(m: Message, v: nat) {
    match m
    case Replay(events) => events != [] && events[|events| - 1].seqNo + 1 == v
    case Gap(_) => false
    case Live(e) => e.seqNo + 1 == v
  }

  lemma DueSnoc(heard: seq<Message>, m: Message, v: nat)
    ensures DueAt(heard + [m], |heard| + 1, v)
            <==> if Tells(m) then EndsJustBelow(m, v) else DueAt(heard, |heard|, v)
  {
    var longer, n := heard + [m], |heard|;
    assert longer[n] == m && forall r :: 0 <= r < n ==> longer[r] == heard[r];
    if Tells(m) {
      if DueAt(longer, n + 1, v) {
        var q :| 0 <= q < n + 1 && EndsJustBelow(longer[q], v) && forall r :: q < r < n + 1 ==> !Tells(longer[r]);
        assert q == n;
      }
      if EndsJustBelow(m, v) { assert EndsJustBelow(longer[n], v); }
    } else {
      if DueAt(longer, n + 1, v) {
        var q :| 0 <= q < n + 1 && EndsJustBelow(longer[q], v) && forall r :: q < r < n + 1 ==> !Tells(longer[r]);
        assert q < n && EndsJustBelow(heard[q], v);
        assert forall r :: q < r < n ==> !Tells(heard[r]);
      }
      if DueAt(heard, n, v) {
        var q :| 0 <= q < n && EndsJustBelow(heard[q], v) && forall r :: q < r < n ==> !Tells(heard[r]);
        assert EndsJustBelow(longer[q], v) && forall r :: q < r < n + 1 ==> !Tells(longer[r]);
      }
    }
  }

  lemma DueInLonger(heard: seq<Message>, m: Message, p: nat, v: nat)
    requires p <= |heard|
    ensures DueAt(heard + [m], p, v) <==> DueAt(heard, p, v)
  {
    var longer := heard + [m];
    assert forall r :: 0 <= r < |heard| ==> longer[r] == heard[r];
    if DueAt(heard, p, v) {
      var q :| 0 <= q < p && EndsJustBelow(heard[q], v) && forall r :: q < r < p ==> !Tells(heard[r]);
      assert EndsJustBelow(longer[q], v) && forall r :: q < r < p ==> !Tells(longer[r]);
    }
    if DueAt(longer, p, v) {
      var q :| 0 <= q < p && EndsJustBelow(longer[q], v) && forall r :: q < r < p ==> !Tells(longer[r]);
      assert EndsJustBelow(heard[q], v) && forall r :: q < r < p ==> !Tells(heard[r]);
    }
  }

  /** What is due after everything heard so far. */
  ghost predicate Due(heard: seq<Message>, v: nat) {
    DueAt(heard, |heard|, v)
  }

  lemma ExpectsStep(o: Ordering, m: Message, v: nat)
    ensures Observed(o, m).expecting == Some(v)
            <==> if Tells(m) then EndsJustBelow(m, v) else o.expecting == Some(v)
  {
  }

  /** The agent expects exactly what is due. */
  lemma {:induction false} ExpectsWhatIsDue(heard: seq<Message>, v: nat)
    ensures ObservedAll(heard).expecting == Some(v) <==> Due(heard, v)
    decreases |heard|
  {
    if heard != [] {
      var n := |heard| - 1;
      var init, m := heard[..n], heard[n];
      assert heard == init + [m];
      ExpectsWhatIsDue(init, v);
      DueSnoc(init, m, v);
      ExpectsStep(ObservedAll(init), m, v);
      hide DueAt, Observed, Tells, EndsJustBelow;
    }
  }

  /** A live event that is not the one due. */
  ghost predicate OutOfOrder(heard: seq<Message>, p: nat, due: nat) {
    p < |heard| && heard[p].Live? && DueAt(heard, p, due) && heard[p].event.seqNo != due
  }

  /** How many of the live events heard are not the ones due. */
  ghost function Disorders(heard: seq<Message>): nat {
    if heard == [] then 0
    else
      var n := |heard| - 1;
      Disorders(heard[..n]) + (if exists due: nat :: OutOfOrder(heard, n, due) then 1 else 0)
  }

  function LiveCount(heard: seq<Message>): nat {
    if heard == [] then 0 else LiveCount(heard[..|heard| - 1]) + (if heard[|heard| - 1].Live? then 1 else 0)
  }

  /** How many status reports an agent has logged. */
  function Reports(actions: seq<OrderAction>): nat {
    if actions == [] then 0
    else Reports(actions[..|actions| - 1]) + (if actions[|actions| - 1].OrderCheck? then 1 else 0)
  }

  lemma ReportsSnoc(actions: seq<OrderAction>, a: OrderAction)
    ensures Reports(actions + [a]) == Reports(actions) + (if a.OrderCheck? then 1 else 0)
  {
    assert (actions + [a])[..|actions|] == actions;
  }

  lemma LastOutOfOrder(init: seq<Message>, m: Message)
    ensures (exists due: nat :: OutOfOrder(init + [m], |init|, due))
            <==> m.Live? && exists due: nat :: Due(init, due) && m.event.seqNo != due
  {
    var heard := init + [m];
    assert heard[|init|] == m;
    if due: nat :| OutOfOrder(heard, |init|, due) {
      DueInLonger(init, m, |init|, due);
      assert Due(init, due);
    }
    if m.Live? {
      if due: nat :| Due(init, due) && m.event.seqNo != due {
        DueInLonger(init, m, |init|, due);
        assert OutOfOrder(heard, |init|, due);
      }
    }
  }

  /** What one message does to the violations, and to the count since the last
      status report. */
  lemma ViolationsStep(o: Ordering, m: Message)
    ensures Observed(o, m).violations
            == o.violations + (if m.Live? && o.expecting.Some? && o.expecting.value != m.event.seqNo then 1 else 0)
    ensures Observed(o, m).sinceHeartbeat
            == (if !m.Live? then o.sinceHeartbeat else if o.sinceHeartbeat + 1 >= 25 then 0 else o.sinceHeartbeat + 1)
  {
  }

  lemma ReportsStep(o: Ordering, m: Message)
    ensures Reports(Observed(o, m).actions)
            == Reports(o.actions) + (if m.Live? && o.sinceHeartbeat + 1 >= 25 then 1 else 0)
  {
    if m.Live? {
      var v := if o.expecting.Some? then o.expecting.value else 0;
      var violated := OrderingViolation(v, m.event.seqNo);
      var bad := o.expecting.Some? && m.event.seqNo != o.expecting.value;
      var logged := if bad then o.actions + [violated] else o.actions;
      var check := OrderCheck(m.event.seqNo, o.violations + (if bad then 1 else 0));
      ReportsSnoc(o.actions, violated);
      ReportsSnoc(logged, check);
      assert Observed(o, m).actions == if o.sinceHeartbeat + 1 >= 25 then logged + [check] else logged;
    }
    hide Reports, Observed;
  }

  /** A live event is out of order exactly when the agent expects another. */
  lemma DisorderIsViolation(init: seq<Message>, m: Message)
    ensures (exists due: nat :: OutOfOrder(init + [m], |init|, due))
            <==> m.Live? && ObservedAll(init).expecting.Some? && ObservedAll(init).expecting.value != m.event.seqNo
  {
    LastOutOfOrder(init, m);
    DueIsExpected(init);
    hide OutOfOrder, Due, ObservedAll;
    var o := ObservedAll(init);
    if o.expecting.Some? { assert Due(init, o.expecting.value); }
  }

  lemma CountsSnoc(init: seq<Message>, m: Message)
    ensures ObservedAll(init + [m]) == Observed(ObservedAll(init), m)
    ensures LiveCount(init + [m]) == LiveCount(init) + (if m.Live? then 1 else 0)
  {
    assert (init + [m])[..|init|] == init;
    hide Observed;
  }

  lemma DisordersSnoc(init: seq<Message>, m: Message)
    ensures Disorders(init + [m])
            == Disorders(init) + (if exists due: nat :: OutOfOrder(init + [m], |init|, due) then 1 else 0)
  {
    assert (init + [m])[..|init|] == init;
    hide OutOfOrder;
  }

  /** The agent's violations are the live events that are not the ones due: not one
      past the live event or replay that came last since the last gap. */
  lemma {:induction false} ViolationsAreDisorders(heard: seq<Message>)
    ensures ObservedAll(heard).violations == Disorders(heard)
    decreases |heard|
  {
    if heard != [] {
      var n := |heard| - 1;
      var init, m := heard[..n], heard[n];
      assert heard == init + [m];
      ViolationsAreDisorders(init);
      ViolationsStep(ObservedAll(init), m);
      DisorderIsViolation(init, m);
      CountsSnoc(init, m);
      DisordersSnoc(init, m);
      hide *;
    }
  }

  predicate OnceInTwentyFive(live: nat, since: nat, reports: nat) {
    since == live % 25 && reports == live / 25
  }

  lemma OneMore(live: nat, since: nat, reports: nat)
    requires OnceInTwentyFive(live, since, reports)
    ensures OnceInTwentyFive(live + 1, if since + 1 >= 25 then 0 else since + 1,
                             reports + (if since + 1 >= 25 then 1 else 0))
  {
  }

  ghost predicate ReportsDue(heard: seq<Message>) {
    var o := ObservedAll(heard);
    OnceInTwentyFive(LiveCount(heard), o.sinceHeartbeat, Reports(o.actions))
  }

  lemma ReportsDueStep(init: seq<Message>, m: Message)
    requires ReportsDue(init)
    ensures ReportsDue(init + [m])
  {
    var o := ObservedAll(init);
    OneMore(LiveCount(init), o.sinceHeartbeat, Reports(o.actions));
    ViolationsStep(o, m);
    ReportsStep(o, m);
    CountsSnoc(init, m);
    hide OnceInTwentyFive, ObservedAll, LiveCount, Reports, Observed;
  }

  /** It reports once in every twenty-five live events. */
  lemma {:induction false} ReportsEveryTwentyFive(heard: seq<Message>)
    ensures ReportsDue(heard)
    decreases |heard|
  {
    if heard != [] {
      var n := |heard| - 1;
      var init, m := heard[..n], heard[n];
      assert heard == init + [m];
      ReportsEveryTwentyFive(init);
      hide ReportsDue;
      ReportsDueStep(init, m);
    }
  }

  lemma {:induction false} DueIsExpected(heard: seq<Message>)
    ensures forall v: nat :: Due(heard, v) <==> ObservedAll(heard).expecting == Some(v)
  {
    hide Due, ObservedAll;
    forall v: nat ensures Due(heard, v) <==> ObservedAll(heard).expecting == Some(v) {
      ExpectsWhatIsDue(heard, v);
    }
  }

  // ---------------------------------------------------------------- the resume agent

  /** What is logged of a replay: its first hole if it has one; else, after a
      reconnect, a start that was not the expected one, or what was verified. */
  lemma ReplayLogged(r: Resume, expected: nat, events: seq<BufferedEvent>)
    ensures var actions := Resumed(r, expected, Replay(events)).actions;
            if exists i: nat :: HoleAt(events, i) then
              exists i: nat :: HoleAt(events, i) && (forall j: nat :: 0 < j < i ==> !HoleAt(events, j))
                          && actions == r.actions + [InternalGap(events[i - 1].seqNo, events[i].seqNo)]
            else if !r.hasConnectedBefore then actions == r.actions
            else if events == [] then actions == r.actions + [CaughtUp]
            else if events[0].seqNo != expected then actions == r.actions + [WrongStart(expected, events[0].seqNo)]
            else actions == r.actions + [ReconnectVerified(events[0].seqNo, events[|events| - 1].seqNo)]
  {
    HoleFromExactly(events, 1);
    hide HoleFrom;
    if i: nat :| HoleAt(events, i) {
      assert HoleFrom(events, 1).Some?;
      assert HoleAt(events, HoleFrom(events, 1).value);
    }
  }

  /** The gaps named by the resyncs an agent has logged. */
  function Resyncs(actions: seq<ResumeAction>): seq<nat> {
    if actions == [] then []
    else
      var last := actions[|actions| - 1];
      Resyncs(actions[..|actions| - 1]) + (if last.Resync? then [last.from] else [])
  }

  lemma ResyncsSnoc(actions: seq<ResumeAction>, a: ResumeAction)
    ensures Resyncs(actions + [a]) == Resyncs(actions) + (if a.Resync? then [a.from] else [])
  {
    assert (actions + [a])[..|actions|] == actions;
  }

  /** Every gap heard is logged as a resync from the seq it names, and nothing else
      is; a live event logs nothing at all. */
  lemma ResyncsAreGaps(r: Resume, expected: nat, m: Message)
    ensures var after := Resumed(r, expected, m);
            && Resyncs(after.actions) == Resyncs(r.actions) + (if m.Gap? then [m.oldestAvailableSeq] else [])
            && (m.Live? ==> after.actions == r.actions)
  {
    var after := Resumed(r, expected, m);
    assert Resyncs(r.actions) + [] == Resyncs(r.actions);
    if |after.actions| == |r.actions| {
      assert after.actions == r.actions;
    } else {
      assert after.actions == r.actions + [after.actions[|r.actions|]];
      ResyncsSnoc(r.actions, after.actions[|r.actions|]);
    }
    hide Resyncs, HoleFrom;
  }

  /** On an honest message the resume agent goes where the chaos client goes. */
  lemma ResumeReaches(r: Resume, expected: nat, resync: bool, m: Message)
    requires MayHear(r.lastSeen, resync, m)
    ensures Resumed(r, expected, m).lastSeen == SeenAfter(r.lastSeen, m)
  {
    SeenExactly(r.lastSeen, resync, m);
    hide Verdict, SeenAfter;
  }

  /** It takes itself to have connected once a connection has answered, and not
      before. */
  lemma ResumeConnects(r: Resume, expected: nat, m: Message)
    ensures Resumed(r, expected, m).hasConnectedBefore <==> r.hasConnectedBefore || !m.Live?
  {
  }
}

/** What the analysis reports, said by the positions of the messages it looks at:
    which violations, of which client, naming which seqs. */
module FaultReports {
  import opened Metrics

  // ---------------------------------------------------------------- neighbouring events

  /** The events at a position and right before it, both live. */
  predicate EventPair(ms: seq<Received>, p: nat) {
    0 < p < |ms| && ms[p - 1].body.EventSeq? && ms[p].body.EventSeq?
  }

  ghost predicate JumpAt(client: ClientId, ms: seq<Received>, p: nat, v: Violation) {
    EventPair(ms, p)
    && var prev, next := ms[p - 1].body.seqNo, ms[p].body.seqNo;
       next != prev + 1 && v == SilentGap(client, prev, next)
  }

  ghost predicate Jumps(client: ClientId, ms: seq<Received>, v: Violation) {
    exists p :: JumpAt(client, ms, p, v)
  }

  ghost predicate BackwardAt(client: ClientId, ms: seq<Received>, p: nat, v: Violation) {
    EventPair(ms, p)
    && var prev, next := ms[p - 1].body.seqNo, ms[p].body.seqNo;
       next <= prev && v == NotIncreasing(client, prev, next)
  }

  ghost predicate GoesBack(client: ClientId, ms: seq<Received>, v: Violation) {
    exists p :: BackwardAt(client, ms, p, v)
  }

  lemma JumpsInLonger(client: ClientId, ms: seq<Received>, v: Violation)
    requires ms != []
    ensures Jumps(client, ms, v)
            <==> Jumps(client, ms[..|ms| - 1], v) || JumpAt(client, ms, |ms| - 1, v)
  {
    var n := |ms| - 1;
    if p: nat :| JumpAt(client, ms[..n], p, v) {
      assert JumpAt(client, ms, p, v);
    }
    if p: nat :| JumpAt(client, ms, p, v) {
      assert p < n ==> JumpAt(client, ms[..n], p, v);
    }
  }

  lemma BackwardsInLonger(client: ClientId, ms: seq<Received>, v: Violation)
    requires ms != []
    ensures GoesBack(client, ms, v)
            <==> GoesBack(client, ms[..|ms| - 1], v) || BackwardAt(client, ms, |ms| - 1, v)
  {
    var n := |ms| - 1;
    if p: nat :| BackwardAt(client, ms[..n], p, v) {
      assert BackwardAt(client, ms, p, v);
    }
    if p: nat :| BackwardAt(client, ms, p, v) {
      assert p < n ==> BackwardAt(client, ms[..n], p, v);
    }
  }

  /** The silent gaps reported are exactly the jumps between neighbouring events. */
  lemma {:induction false} SilentGapsAre(client: ClientId, ms: seq<Received>, v: Violation)
    ensures v in NeighbourFaults(Consecutive, client, ms) <==> Jumps(client, ms, v)
    decreases |ms|
  {
    if ms != [] {
      SilentGapsAre(client, ms[..|ms| - 1], v);
      JumpsInLonger(client, ms, v);
      assert v in LastFault(Consecutive, client, ms) <==> JumpAt(client, ms, |ms| - 1, v);
      hide Jumps, JumpAt, LastFault;
    }
  }

  /** The events reported as not increasing are exactly those that are not larger
      than the event right before them. */
  lemma {:induction false} NotIncreasingAre(client: ClientId, ms: seq<Received>, v: Violation)
    ensures v in NeighbourFaults(Ascending, client, ms) <==> GoesBack(client, ms, v)
    decreases |ms|
  {
    if ms != [] {
      NotIncreasingAre(client, ms[..|ms| - 1], v);
      BackwardsInLonger(client, ms, v);
      assert v in LastFault(Ascending, client, ms) <==> BackwardAt(client, ms, |ms| - 1, v);
      hide GoesBack, BackwardAt, LastFault;
    }
  }

  // ---------------------------------------------------------------- duplicates

  ghost predicate RepeatAt(client: ClientId, ms: seq<Received>, q: nat, v: Violation) {
    q < |ms| && ms[q].body.EventSeq? && v == DuplicateSeq(client, ms[q].body.seqNo)
    && exists p :: 0 <= p < q && ms[p].body == ms[q].body
  }

  ghost predicate RepeatsSome(client: ClientId, ms: seq<Received>, v: Violation) {
    exists q :: RepeatAt(client, ms, q, v)
  }

  lemma RepeatsInLonger(client: ClientId, ms: seq<Received>, v: Violation)
    requires ms != []
    ensures RepeatsSome(client, ms, v)
            <==> RepeatsSome(client, ms[..|ms| - 1], v) || RepeatAt(client, ms, |ms| - 1, v)
  {
    var n := |ms| - 1;
    assert forall p :: 0 <= p < n ==> ms[..n][p] == ms[p];
    if q: nat :| RepeatAt(client, ms[..n], q, v) {
      assert RepeatAt(client, ms, q, v);
    }
    if q: nat :| RepeatAt(client, ms, q, v) {
      assert q < n ==> RepeatAt(client, ms[..n], q, v);
    }
  }

  lemma LastRepeat(client: ClientId, ms: seq<Received>, v: Violation)
    requires ms != []
    ensures var n := |ms| - 1;
            RepeatAt(client, ms, n, v)
            <==> ms[n].body.EventSeq? && Delivered(ms[..n], ms[n].body.seqNo)
                 && v == DuplicateSeq(client, ms[n].body.seqNo)
  {
    var n := |ms| - 1;
    assert forall p :: 0 <= p < n ==> ms[..n][p] == ms[p];
  }

  /** The duplicates reported are exactly the events whose seq a live event had
      carried before. */
  lemma {:induction false} DuplicatesAre(client: ClientId, ms: seq<Received>, v: Violation)
    ensures v in Repeats(client, ms) <==> RepeatsSome(client, ms, v)
    decreases |ms|
  {
    if ms != [] {
      DuplicatesAre(client, ms[..|ms| - 1], v);
      RepeatsInLonger(client, ms, v);
      LastRepeat(client, ms, v);
      hide RepeatsSome, RepeatAt, Delivered;
    }
  }

  // ---------------------------------------------------------------- replays

  ghost predicate HoleIn(client: ClientId, seqs: seq<int>, v: Violation) {
    exists i :: 0 < i < |seqs| && seqs[i] != seqs[i - 1] + 1 && v == ReplayHole(client, seqs[i - 1], seqs[i])
  }

  /** A replay does not start right after what its client had reached. */
  ghost predicate WrongStart(client: ClientId, before: seq<Received>, seqs: seq<int>, v: Violation) {
    seqs != [] && exists k :: Reached(before, k) && seqs[0] != k + 1 && v == ReplayStart(client, seqs[0], k + 1)
  }

  ghost predicate BadReplayAt(client: ClientId, ms: seq<Received>, p: nat, v: Violation) {
    p < |ms| && ms[p].body.ReplaySeqs?
    && (HoleIn(client, ms[p].body.seqs, v) || WrongStart(client, ms[..p], ms[p].body.seqs, v))
  }

  ghost predicate HasBadReplay(client: ClientId, ms: seq<Received>, v: Violation) {
    exists p :: BadReplayAt(client, ms, p, v)
  }

  lemma HoleSnoc(client: ClientId, seqs: seq<int>, v: Violation)
    requires |seqs| >= 2
    ensures HoleIn(client, seqs, v)
            <==> HoleIn(client, seqs[..|seqs| - 1], v)
                 || (seqs[|seqs| - 1] != seqs[|seqs| - 2] + 1
                     && v == ReplayHole(client, seqs[|seqs| - 2], seqs[|seqs| - 1]))
  {
    var init := seqs[..|seqs| - 1];
    assert forall i :: 0 <= i < |init| ==> init[i] == seqs[i];
  }

  lemma {:induction false} HolesAre(client: ClientId, seqs: seq<int>, v: Violation)
    ensures v in PairFaults(WithinReplay, client, seqs) <==> HoleIn(client, seqs, v)
    decreases |seqs|
  {
    if |seqs| >= 2 {
      HolesAre(client, seqs[..|seqs| - 1], v);
      HoleSnoc(client, seqs, v);
      hide HoleIn;
    }
  }

  lemma StartIs(client: ClientId, before: seq<Received>, seqs: seq<int>, v: Violation)
    ensures WrongStart(client, before, seqs, v)
            <==> Known(before).Some? && seqs != [] && seqs[0] != Known(before).value + 1
                 && v == ReplayStart(client, seqs[0], Known(before).value + 1)
  {
    KnownIsRight(before);
    hide Known, Reached, Unknown;
    if Known(before).Some? {
      forall k | Reached(before, k) ensures k == Known(before).value { ReachedOnce(before, k, Known(before).value); }
    } else {
      UnknownIsNotReached(before);
    }
  }

  lemma BadReplaysInLonger(client: ClientId, ms: seq<Received>, v: Violation)
    requires ms != []
    ensures HasBadReplay(client, ms, v)
            <==> HasBadReplay(client, ms[..|ms| - 1], v) || BadReplayAt(client, ms, |ms| - 1, v)
  {
    hide HoleIn, WrongStart;
    var n := |ms| - 1;
    assert forall p :: 0 <= p < n ==> ms[..n][p] == ms[p] && ms[..n][..p] == ms[..p];
    if p: nat :| BadReplayAt(client, ms[..n], p, v) {
      assert BadReplayAt(client, ms, p, v);
    }
    if p: nat :| BadReplayAt(client, ms, p, v) {
      assert p < n ==> BadReplayAt(client, ms[..n], p, v);
    }
  }

  lemma LastReplay(client: ClientId, ms: seq<Received>, v: Violation)
    requires ms != []
    ensures var n := |ms| - 1;
            BadReplayAt(client, ms, n, v)
            <==> ms[n].body.ReplaySeqs? && v in ReplayFaults(client, Known(ms[..n]), ms[n].body.seqs)
  {
    var n := |ms| - 1;
    if ms[n].body.ReplaySeqs? {
      HolesAre(client, ms[n].body.seqs, v);
      StartIs(client, ms[..n], ms[n].body.seqs, v);
    }
    hide HoleIn, WrongStart, Known, PairFaults;
  }

  /** The replays reported are exactly those with a hole, at the hole, and those
      that do not start right after what the log shows to have been reached. */
  lemma {:induction false} BadReplaysAre(client: ClientId, ms: seq<Received>, v: Violation)
    ensures v in Inconsistencies(client, ms) <==> HasBadReplay(client, ms, v)
    decreases |ms|
  {
    if ms != [] {
      BadReplaysAre(client, ms[..|ms| - 1], v);
      BadReplaysInLonger(client, ms, v);
      LastReplay(client, ms, v);
      hide HasBadReplay, BadReplayAt, ReplayFaults, Known;
    }
  }

  lemma ReportIs(client: ClientId, lastSeen: nat, replaySeqs: seq<int>, capacity: nat, known: seq<int>)
    requires 0 <= Max(0, |known| - capacity) <= |known|
    ensures var expected := Above(known[Max(0, |known| - capacity)..], lastSeen);
            CheckReplayCorrectness(client, lastSeen, replaySeqs, capacity, known)
            == if replaySeqs == expected then [] else [ReplayIncorrect(client, expected, replaySeqs)]
  {
    hide Above;
  }

  /** The retained seqs above the last seen one, of n events. */
  function DueReplay(lastSeen: nat, capacity: nat, n: nat): seq<int> {
    if lastSeen >= n then [] else Upto(n)[Max(Max(0, n - capacity), lastSeen)..]
  }

  lemma DueIsAbove(lastSeen: nat, capacity: nat, n: nat)
    ensures 0 <= Max(0, n - capacity) <= n
    ensures Above(Upto(n)[Max(0, n - capacity)..], lastSeen) == DueReplay(lastSeen, capacity, n)
  {
    UptoIs(n);
    FloorIs(n, capacity);
    AboveFrom(Upto(n), Max(0, n - capacity), lastSeen);
    hide Above, Upto, FromOne, Max;
  }

  /** A replay that is not the accepted one is reported once, next to it. */
  lemma WrongReplayIs(client: ClientId, lastSeen: nat, replaySeqs: seq<int>, capacity: nat, n: nat)
    ensures var due := DueReplay(lastSeen, capacity, n);
            CheckReplayCorrectness(client, lastSeen, replaySeqs, capacity, Upto(n))
            == if replaySeqs == due then [] else [ReplayIncorrect(client, due, replaySeqs)]
  {
    DueIsAbove(lastSeen, capacity, n);
    ReportIs(client, lastSeen, replaySeqs, capacity, Upto(n));
    hide *;
  }

  // ---------------------------------------------------------------- runs and clients

  /** The seqs of the events, in order. */
  function EventSeqs(ms: seq<Received>): seq<int> {
    if ms == [] then []
    else EventSeqs(ms[..|ms| - 1]) + (if ms[|ms| - 1].body.EventSeq? then [ms[|ms| - 1].body.seqNo] else [])
  }

  function Joined(runs: seq<seq<int>>): seq<int> {
    if runs == [] then [] else Joined(runs[..|runs| - 1]) + runs[|runs| - 1]
  }

  lemma JoinedSnoc(runs: seq<seq<int>>, run: seq<int>)
    ensures Joined(runs + [run]) == Joined(runs) + run
  {
    assert (runs + [run])[..|runs|] == runs;
  }

  lemma AllRunsJoin(r: Runs)
    ensures Joined(AllRuns(r)) == Joined(r.closed) + r.current
  {
    JoinedSnoc(r.closed, r.current);
    hide Joined;
  }

  /** How often an event follows something that is no event. */
  function RunStarts(ms: seq<Received>): nat {
    if ms == [] then 0
    else
      var n := |ms| - 1;
      RunStarts(ms[..n]) + (if ms[n].body.EventSeq? && (n == 0 || !ms[n - 1].body.EventSeq?) then 1 else 0)
  }

  /** The runs, one after the other, are all events in order; none is empty; and
      there is one for every event that follows no event. */
  lemma {:induction false} RunsAre(ms: seq<Received>)
    ensures var runs := AllRuns(RunsOf(ms));
            && Joined(runs) == EventSeqs(ms) && |runs| == RunStarts(ms)
            && forall i :: 0 <= i < |runs| ==> runs[i] != []
    decreases |ms|
  {
    RunsAreSoFar(ms);
    AllRunsJoin(RunsOf(ms));
    hide Joined, EventSeqs, RunStarts, RunsOf;
  }

  lemma {:induction false} RunsAreSoFar(ms: seq<Received>)
    ensures var r := RunsOf(ms);
            && Joined(r.closed) + r.current == EventSeqs(ms)
            && |r.closed| + (if r.current == [] then 0 else 1) == RunStarts(ms)
            && forall i :: 0 <= i < |r.closed| ==> r.closed[i] != []
    decreases |ms|
  {
    if ms != [] {
      var init, last := ms[..|ms| - 1], ms[|ms| - 1].body;
      RunsAreSoFar(init);
      RunsEnd(init);
      AllRunsJoin(RunsOf(init));
      hide Joined;
      if last.EventSeq? {
        var r := RunsOf(init);
        assert Joined(r.closed) + (r.current + [last.seqNo]) == (Joined(r.closed) + r.current) + [last.seqNo];
      } else {
        assert forall s: seq<int> :: s + [] == s;
      }
    }
  }

  /** One client's first message comes before any of another's. */
  ghost predicate FirstBefore(ms: seq<Received>, a: ClientId, b: ClientId) {
    exists p :: 0 <= p < |ms| && ms[p].client == a && forall r :: 0 <= r <= p ==> ms[r].client != b
  }

  lemma FirstInLonger(ms: seq<Received>, m: Received, a: ClientId, b: ClientId)
    requires FirstBefore(ms, a, b)
    ensures FirstBefore(ms + [m], a, b)
  {
    var p :| 0 <= p < |ms| && ms[p].client == a && forall r :: 0 <= r <= p ==> ms[r].client != b;
    assert forall r :: 0 <= r <= p ==> (ms + [m])[r] == ms[r];
  }

  lemma FirstOfNewcomer(ms: seq<Received>, m: Received, a: ClientId)
    requires (exists p :: 0 <= p < |ms| && ms[p].client == a)
    requires forall p :: 0 <= p < |ms| ==> ms[p].client != m.client
    ensures FirstBefore(ms + [m], a, m.client)
  {
    var p :| 0 <= p < |ms| && ms[p].client == a;
    assert forall r :: 0 <= r <= p ==> (ms + [m])[r] == ms[r];
    assert (ms + [m])[p].client == a;
  }

  /** The clients are those with a message, each once, in the order of their first
      messages. */
  lemma {:induction false} ClientsAre(ms: seq<Received>)
    ensures forall c :: c in Clients(ms) <==> exists p :: 0 <= p < |ms| && ms[p].client == c
    ensures forall i, j :: 0 <= i < j < |Clients(ms)| ==> FirstBefore(ms, Clients(ms)[i], Clients(ms)[j])
    decreases |ms|
  {
    if ms != [] {
      var n := |ms| - 1;
      var init, m := ms[..n], ms[n];
      ClientsAre(init);
      assert ms == init + [m];
      assert forall p :: 0 <= p < n ==> init[p] == ms[p];
      var before, after := Clients(init), Clients(ms);
      assert after == if m.client in before then before else before + [m.client];
      forall i, j | 0 <= i < j < |after| ensures FirstBefore(ms, after[i], after[j]) {
        if j < |before| {
          FirstInLonger(init, m, before[i], before[j]);
        } else {
          assert before[i] in before;
          FirstOfNewcomer(init, m, before[i]);
        }
      }
      hide Clients, FirstBefore;
      forall c ensures c in after <==> exists p :: 0 <= p < |ms| && ms[p].client == c {
        if c in before { var p :| 0 <= p < |init| && init[p].client == c; assert ms[p].client == c; }
        if c == m.client { assert ms[n].client == c; }
      }
    }
  }
}

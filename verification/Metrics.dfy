/** The correctness analysis of a recorded run. */
module Metrics {
  import opened Options

  type ClientId = nat

  datatype Body =
    | ReplaySeqs(seqs: seq<int>)
    | EventSeq(seqNo: int)
    | GapSeq(from: int)

  datatype Received = Received(client: ClientId, body: Body)

  datatype Violation =
    | SilentGap(client: ClientId, prev: int, next: int)
    | DuplicateSeq(client: ClientId, seqNo: int)
    | NotIncreasing(client: ClientId, prev: int, next: int)
    | ReplayHole(client: ClientId, prev: int, next: int)
    | ReplayStart(client: ClientId, first: int, due: int)
    | ReplayIncorrect(client: ClientId, expected: seq<int>, got: seq<int>)

  // ---------------------------------------------------------------- runs of events

  /** What is asked of two neighbours in a run. */
  datatype Rule = Consecutive | Ascending | WithinReplay

  predicate Breaks(rule: Rule, prev: int, next: int) {
    if rule.Ascending? then next <= prev else next != prev + 1
  }

  function Fault(rule: Rule, client: ClientId, prev: int, next: int): Violation {
    match rule
    case Consecutive => SilentGap(client, prev, next)
    case Ascending => NotIncreasing(client, prev, next)
    case WithinReplay => ReplayHole(client, prev, next)
  }

  /** The runs of consecutive events so far, and the one still open. */
  datatype Runs = Runs(closed: seq<seq<int>>, current: seq<int>)

  function RunsOf(ms: seq<Received>): Runs {
    if ms == [] then Runs([], [])
    else
      var before, last := RunsOf(ms[..|ms| - 1]), ms[|ms| - 1].body;
      if last.EventSeq? then Runs(before.closed, before.current + [last.seqNo])
      else Runs(AllRuns(before), [])
  }

  function AllRuns(r: Runs): seq<seq<int>> {
    if r.current == [] then r.closed else r.closed + [r.current]
  }

  method EventSeqsBetweenGaps(messages: seq<Received>) returns (runs: seq<seq<int>>)
    ensures runs == AllRuns(RunsOf(messages))
  {
    runs := [];
    var current := [];
    for i := 0 to |messages|
      invariant RunsOf(messages[..i]) == Runs(runs, current)
    {
      assert messages[..i + 1][..i] == messages[..i];
      var body := messages[i].body;
      if body.EventSeq? {
        current := current + [body.seqNo];
      } else {
        if current != [] {
          runs := runs + [current];
        }
        current := [];
      }
    }
    assert messages[..|messages|] == messages;
    if current != [] {
      runs := runs + [current];
    }
  }

  /** The faults between neighbours of one run. */
  function PairFaults(rule: Rule, client: ClientId, run: seq<int>): seq<Violation> {
    if |run| < 2 then []
    else PairFaults(rule, client, run[..|run| - 1]) + FaultAt(rule, client, run[|run| - 2], run[|run| - 1])
  }

  function FaultAt(rule: Rule, client: ClientId, prev: int, next: int): seq<Violation> {
    if Breaks(rule, prev, next) then [Fault(rule, client, prev, next)] else []
  }

  method CheckPairs(rule: Rule, client: ClientId, run: seq<int>) returns (out: seq<Violation>)
    ensures out == PairFaults(rule, client, run)
  {
    out := [];
    if |run| < 2 {
      return;
    }
    for i := 1 to |run|
      invariant out == PairFaults(rule, client, run[..i])
    {
      assert run[..i + 1][..i] == run[..i];
      if Breaks(rule, run[i - 1], run[i]) {
        out := out + [Fault(rule, client, run[i - 1], run[i])];
      }
    }
    assert run[..|run|] == run;
  }

  function RunFaults(rule: Rule, client: ClientId, runs: seq<seq<int>>): seq<Violation> {
    if runs == [] then []
    else RunFaults(rule, client, runs[..|runs| - 1]) + PairFaults(rule, client, runs[|runs| - 1])
  }

  method CheckRuns(rule: Rule, client: ClientId, messages: seq<Received>) returns (out: seq<Violation>)
    ensures out == NeighbourFaults(rule, client, messages)
  {
    hide PairFaults, AllRuns, RunsOf, NeighbourFaults;
    out := [];
    var runs := EventSeqsBetweenGaps(messages);
    for i := 0 to |runs|
      invariant out == RunFaults(rule, client, runs[..i])
    {
      assert runs[..i + 1][..i] == runs[..i];
      var faults := CheckPairs(rule, client, runs[i]);
      out := out + faults;
    }
    assert runs[..|runs|] == runs;
    RunsHoldNeighbours(rule, client, messages);
  }

  /** The faults between neighbouring messages that are both events. */
  function NeighbourFaults(rule: Rule, client: ClientId, ms: seq<Received>): seq<Violation> {
    if ms == [] then []
    else NeighbourFaults(rule, client, ms[..|ms| - 1]) + LastFault(rule, client, ms)
  }

  function LastFault(rule: Rule, client: ClientId, ms: seq<Received>): seq<Violation>
    requires ms != []
  {
    var n := |ms|;
    if n >= 2 && ms[n - 2].body.EventSeq? && ms[n - 1].body.EventSeq? then
      FaultAt(rule, client, ms[n - 2].body.seqNo, ms[n - 1].body.seqNo)
    else []
  }

  lemma RunsEnd(ms: seq<Received>)
    ensures var current := RunsOf(ms).current;
            if ms == [] || !ms[|ms| - 1].body.EventSeq? then current == []
            else current != [] && current[|current| - 1] == ms[|ms| - 1].body.seqNo
  {
  }

  lemma PairFaultsSnoc(rule: Rule, client: ClientId, run: seq<int>, next: int)
    ensures PairFaults(rule, client, run + [next])
            == PairFaults(rule, client, run) + (if run == [] then [] else FaultAt(rule, client, run[|run| - 1], next))
  {
    assert (run + [next])[..|run|] == run;
  }

  lemma AllRunsFaults(rule: Rule, client: ClientId, r: Runs)
    ensures RunFaults(rule, client, AllRuns(r))
            == RunFaults(rule, client, r.closed) + PairFaults(rule, client, r.current)
  {
    assert (r.closed + [r.current])[..|r.closed|] == r.closed;
  }

  lemma RunGrows(rule: Rule, client: ClientId, r: Runs, next: int)
    ensures RunFaults(rule, client, AllRuns(Runs(r.closed, r.current + [next])))
            == RunFaults(rule, client, AllRuns(r))
               + (if r.current == [] then [] else FaultAt(rule, client, r.current[|r.current| - 1], next))
  {
    hide RunFaults, PairFaults, FaultAt, AllRuns;
    AllRunsFaults(rule, client, Runs(r.closed, r.current + [next]));
    PairFaultsSnoc(rule, client, r.current, next);
    AllRunsFaults(rule, client, r);
  }

  /** One more message adds to the runs' faults what it adds to the neighbours'. */
  lemma RunsGrow(rule: Rule, client: ClientId, ms: seq<Received>)
    requires ms != []
    ensures RunFaults(rule, client, AllRuns(RunsOf(ms)))
            == RunFaults(rule, client, AllRuns(RunsOf(ms[..|ms| - 1]))) + LastFault(rule, client, ms)
  {
    var init, last := ms[..|ms| - 1], ms[|ms| - 1].body;
    RunsEnd(init);
    hide RunFaults, FaultAt;
    if last.EventSeq? {
      RunGrows(rule, client, RunsOf(init), last.seqNo);
    }
  }

  /** Splitting into runs loses no pair of neighbouring events and makes up none. */
  lemma {:induction false} RunsHoldNeighbours(rule: Rule, client: ClientId, ms: seq<Received>)
    ensures RunFaults(rule, client, AllRuns(RunsOf(ms))) == NeighbourFaults(rule, client, ms)
    decreases |ms|
  {
    if ms != [] {
      hide RunFaults, AllRuns, RunsOf, LastFault;
      RunsHoldNeighbours(rule, client, ms[..|ms| - 1]);
      RunsGrow(rule, client, ms);
    }
  }

  /** Every two events received one right after the other obey the rule. */
  ghost predicate Neighbours(rule: Rule, ms: seq<Received>) {
    forall p :: 0 < p < |ms| && ms[p - 1].body.EventSeq? && ms[p].body.EventSeq?
      ==> !Breaks(rule, ms[p - 1].body.seqNo, ms[p].body.seqNo)
  }

  lemma NeighboursSnoc(rule: Rule, client: ClientId, ms: seq<Received>)
    requires ms != []
    ensures Neighbours(rule, ms) <==> Neighbours(rule, ms[..|ms| - 1]) && LastFault(rule, client, ms) == []
  {
    hide Breaks, Fault;
    var init := ms[..|ms| - 1];
    assert forall p :: 0 <= p < |init| ==> init[p] == ms[p];
  }

  lemma {:induction false} NeighbourFaultsNone(rule: Rule, client: ClientId, ms: seq<Received>)
    ensures NeighbourFaults(rule, client, ms) == [] <==> Neighbours(rule, ms)
    decreases |ms|
  {
    if ms != [] {
      hide LastFault, Neighbours;
      NeighbourFaultsNone(rule, client, ms[..|ms| - 1]);
      NeighboursSnoc(rule, client, ms);
    } else {
      hide Breaks;
    }
  }

  // ---------------------------------------------------------------- the four checks

  method CheckNoSilentGaps(client: ClientId, messages: seq<Received>) returns (out: seq<Violation>)
    ensures out == NeighbourFaults(Consecutive, client, messages)
    ensures out == [] <==> Neighbours(Consecutive, messages)
  {
    out := CheckRuns(Consecutive, client, messages);
    NeighbourFaultsNone(Consecutive, client, messages);
  }

  method CheckStrictlyIncreasing(client: ClientId, messages: seq<Received>) returns (out: seq<Violation>)
    ensures out == NeighbourFaults(Ascending, client, messages)
    ensures out == [] <==> Neighbours(Ascending, messages)
  {
    out := CheckRuns(Ascending, client, messages);
    NeighbourFaultsNone(Ascending, client, messages);
  }

  ghost predicate Delivered(ms: seq<Received>, seqNo: int) {
    exists p :: 0 <= p < |ms| && ms[p].body == EventSeq(seqNo)
  }

  /** The events that had been delivered before, in order of arrival. */
  ghost function Repeats(client: ClientId, ms: seq<Received>): seq<Violation> {
    if ms == [] then []
    else
      var init, last := ms[..|ms| - 1], ms[|ms| - 1].body;
      Repeats(client, init)
      + (if last.EventSeq? && Delivered(init, last.seqNo) then [DuplicateSeq(client, last.seqNo)] else [])
  }

  ghost predicate NoDuplicates(ms: seq<Received>) {
    forall p, q :: 0 <= p < q < |ms| && ms[p].body.EventSeq? && ms[q].body.EventSeq?
      ==> ms[p].body.seqNo != ms[q].body.seqNo
  }

  lemma NoDuplicatesSnoc(ms: seq<Received>)
    requires ms != []
    ensures var init, last := ms[..|ms| - 1], ms[|ms| - 1].body;
            NoDuplicates(ms) <==> NoDuplicates(init) && !(last.EventSeq? && Delivered(init, last.seqNo))
  {
    var n := |ms| - 1;
    var init, last := ms[..n], ms[n].body;
    assert forall p :: 0 <= p < n ==> init[p] == ms[p];
    if last.EventSeq? && NoDuplicates(ms) {
      assert forall p :: 0 <= p < n ==> init[p].body != EventSeq(last.seqNo);
    }
  }

  lemma {:induction false} RepeatsNone(client: ClientId, ms: seq<Received>)
    ensures Repeats(client, ms) == [] <==> NoDuplicates(ms)
    decreases |ms|
  {
    if ms != [] {
      hide NoDuplicates, Delivered;
      RepeatsNone(client, ms[..|ms| - 1]);
      NoDuplicatesSnoc(ms);
    }
  }

  method CheckNoDuplicateSeqs(client: ClientId, messages: seq<Received>) returns (out: seq<Violation>)
    ensures out == Repeats(client, messages)
    ensures out == [] <==> NoDuplicates(messages)
  {
    var seen: set<int> := {};
    out := [];
    for i := 0 to |messages|
      invariant out == Repeats(client, messages[..i])
      invariant forall s :: s in seen <==> Delivered(messages[..i], s)
    {
      DeliveredSnoc(messages, i);
      assert messages[..i + 1][..i] == messages[..i];
      var body := messages[i].body;
      if body.EventSeq? {
        if body.seqNo in seen {
          out := out + [DuplicateSeq(client, body.seqNo)];
        }
        seen := seen + {body.seqNo};
      }
    }
    assert messages[..|messages|] == messages;
    RepeatsNone(client, messages);
  }

  lemma DeliveredSnoc(ms: seq<Received>, i: nat)
    requires i < |ms|
    ensures forall s :: Delivered(ms[..i + 1], s) <==> Delivered(ms[..i], s) || ms[i].body == EventSeq(s)
  {
    forall s ensures Delivered(ms[..i + 1], s) <==> Delivered(ms[..i], s) || ms[i].body == EventSeq(s) {
      if Delivered(ms[..i], s) {
        var p :| 0 <= p < i && ms[..i][p].body == EventSeq(s);
        assert ms[..i + 1][p].body == EventSeq(s);
      }
      if ms[i].body == EventSeq(s) {
        assert ms[..i + 1][i].body == EventSeq(s);
      }
      if Delivered(ms[..i + 1], s) {
        var p :| 0 <= p < i + 1 && ms[..i + 1][p].body == EventSeq(s);
        assert p < i ==> ms[..i][p].body == EventSeq(s);
      }
    }
  }

  function Max(a: int, b: int): int {
    if a >= b then a else b
  }

  /** The seq a client is known to have reached. */
  function KnownAfter(known: Option<int>, body: Body): Option<int> {
    match body
    case EventSeq(s) => Some(s)
    case GapSeq(k) => Some(if known.None? then k - 1 else Max(known.value, k - 1))
    case ReplaySeqs(seqs) =>
      if seqs == [] then known
      else Some(if known.None? then seqs[|seqs| - 1] else Max(known.value, seqs[|seqs| - 1]))
  }

  function Known(ms: seq<Received>): Option<int> {
    if ms == [] then None else KnownAfter(Known(ms[..|ms| - 1]), ms[|ms| - 1].body)
  }

  function ReplayFaults(client: ClientId, known: Option<int>, seqs: seq<int>): seq<Violation> {
    PairFaults(WithinReplay, client, seqs)
    + (if known.Some? && seqs != [] && seqs[0] != known.value + 1
       then [ReplayStart(client, seqs[0], known.value + 1)] else [])
  }

  function Inconsistencies(client: ClientId, ms: seq<Received>): seq<Violation> {
    if ms == [] then []
    else
      var init, last := ms[..|ms| - 1], ms[|ms| - 1].body;
      Inconsistencies(client, init) + (if last.ReplaySeqs? then ReplayFaults(client, Known(init), last.seqs) else [])
  }

  ghost predicate Contiguous(seqs: seq<int>) {
    forall i :: 0 < i < |seqs| ==> seqs[i] == seqs[i - 1] + 1
  }

  /** The message at a position shows that its client had reached a seq. */
  ghost predicate Shows(ms: seq<Received>, q: nat, v: int) {
    q < |ms| &&
    match ms[q].body
    case EventSeq(s) => v == s
    case GapSeq(k) => v == k - 1
    case ReplaySeqs(seqs) => seqs != [] && v == seqs[|seqs| - 1]
  }

  /** No live event comes after a position. */
  ghost predicate SinceLastEvent(ms: seq<Received>, q: nat) {
    forall r :: q < r < |ms| ==> !ms[r].body.EventSeq?
  }

  /** The greatest seq shown by the last live event and all that follows it, or by
      the whole log if it has no live event. */
  ghost predicate Reached(ms: seq<Received>, v: int) {
    && (exists q :: SinceLastEvent(ms, q) && Shows(ms, q, v))
    && forall q, u :: SinceLastEvent(ms, q) && Shows(ms, q, u) ==> u <= v
  }

  /** A replay has no hole and starts right after what its client had reached. */
  ghost predicate Seamless(before: seq<Received>, body: Body) {
    body.ReplaySeqs? ==>
      && Contiguous(body.seqs)
      && forall v :: Reached(before, v) && body.seqs != [] ==> body.seqs[0] == v + 1
  }

  ghost predicate ReplaysSeamless(ms: seq<Received>) {
    forall p :: 0 <= p < |ms| ==> Seamless(ms[..p], ms[p].body)
  }

  lemma ShowsSnoc(ms: seq<Received>, m: Received)
    ensures forall q: nat, v :: q < |ms| ==> (Shows(ms + [m], q, v) <==> Shows(ms, q, v))
    ensures forall q: nat :: q < |ms| ==>
              (SinceLastEvent(ms + [m], q) <==> SinceLastEvent(ms, q) && !m.body.EventSeq?)
    ensures SinceLastEvent(ms + [m], |ms|)
  {
    var longer := ms + [m];
    assert longer[|ms|] == m;
    assert forall r :: 0 <= r < |ms| ==> longer[r] == ms[r];
    forall q: nat | q < |ms|
      ensures SinceLastEvent(longer, q) <==> SinceLastEvent(ms, q) && !m.body.EventSeq?
    {
      if SinceLastEvent(longer, q) {
        assert forall r :: q < r < |ms| ==> !longer[r].body.EventSeq?;
      }
    }
  }

  /** Nothing shows what the client had reached. */
  ghost predicate Unknown(ms: seq<Received>) {
    forall q, v :: !Shows(ms, q, v)
  }

  /** What is known, as a value, is what the log shows to have been reached. */
  ghost predicate KnownRight(ms: seq<Received>, known: Option<int>) {
    match known
    case None => Unknown(ms)
    case Some(v) => Reached(ms, v)
  }

  lemma EventReached(ms: seq<Received>, m: Received)
    requires m.body.EventSeq?
    ensures Reached(ms + [m], m.body.seqNo)
  {
    ShowsSnoc(ms, m);
    assert Shows(ms + [m], |ms|, m.body.seqNo);
  }

  lemma FirstReached(ms: seq<Received>, m: Received, v: int)
    requires Unknown(ms) && !m.body.EventSeq? && Shows(ms + [m], |ms|, v)
    ensures Reached(ms + [m], v)
  {
    ShowsSnoc(ms, m);
  }

  lemma FurtherReached(ms: seq<Received>, m: Received, known: int, v: int)
    requires Reached(ms, known) && !m.body.EventSeq? && Shows(ms + [m], |ms|, v)
    ensures Reached(ms + [m], Max(known, v))
  {
    var longer := ms + [m];
    ShowsSnoc(ms, m);
    var q: nat :| SinceLastEvent(ms, q) && Shows(ms, q, known);
    assert SinceLastEvent(longer, q) && Shows(longer, q, known);
    forall r: nat, u | SinceLastEvent(longer, r) && Shows(longer, r, u) ensures u <= Max(known, v) {
      if r < |ms| { assert SinceLastEvent(ms, r) && Shows(ms, r, u); }
    }
  }

  lemma NothingShown(ms: seq<Received>, m: Received, known: Option<int>)
    requires m.body == ReplaySeqs([]) && KnownRight(ms, known)
    ensures KnownRight(ms + [m], known)
  {
    var longer := ms + [m];
    ShowsSnoc(ms, m);
    if known.Some? {
      var q: nat :| SinceLastEvent(ms, q) && Shows(ms, q, known.value);
      assert SinceLastEvent(longer, q) && Shows(longer, q, known.value);
      forall r: nat, u | SinceLastEvent(longer, r) && Shows(longer, r, u) ensures u <= known.value {
        assert r < |ms| && SinceLastEvent(ms, r) && Shows(ms, r, u);
      }
    }
  }

  lemma KnownStepRight(ms: seq<Received>, m: Received, known: Option<int>)
    requires KnownRight(ms, known)
    ensures KnownRight(ms + [m], KnownAfter(known, m.body))
  {
    var n := |ms|;
    assert (ms + [m])[n] == m;
    match m.body
    case EventSeq(s) => EventReached(ms, m);
    case GapSeq(k) =>
      assert Shows(ms + [m], n, k - 1);
      if known.None? { FirstReached(ms, m, k - 1); } else { FurtherReached(ms, m, known.value, k - 1); }
    case ReplaySeqs(seqs) =>
      if seqs == [] {
        NothingShown(ms, m, known);
      } else {
        var v := seqs[|seqs| - 1];
        assert Shows(ms + [m], n, v);
        if known.None? { FirstReached(ms, m, v); } else { FurtherReached(ms, m, known.value, v); }
      }
  }

  /** What a log makes known, said by the positions of its messages. */
  lemma {:induction false} KnownExactly(ms: seq<Received>)
    ensures Known(ms).None? <==> Unknown(ms)
    ensures Known(ms).Some? ==> Reached(ms, Known(ms).value)
    decreases |ms|
  {
    KnownIsRight(ms);
    if Known(ms).Some? {
      var q: nat :| SinceLastEvent(ms, q) && Shows(ms, q, Known(ms).value);
    }
    hide Known, Shows, SinceLastEvent;
  }

  lemma {:induction false} KnownIsRight(ms: seq<Received>)
    ensures KnownRight(ms, Known(ms))
    decreases |ms|
  {
    if ms != [] {
      var init, m := ms[..|ms| - 1], ms[|ms| - 1];
      assert ms == init + [m];
      KnownIsRight(init);
      KnownStepRight(init, m, Known(init));
      hide KnownRight, KnownAfter;
    }
  }

  lemma ReachedOnce(ms: seq<Received>, u: int, v: int)
    requires Reached(ms, u) && Reached(ms, v)
    ensures u == v
  {
  }

  /** The check's own test, in terms of what it keeps track of. */
  ghost predicate Connects(known: Option<int>, seqs: seq<int>) {
    Contiguous(seqs) && (known.Some? && seqs != [] ==> seqs[0] == known.value + 1)
  }

  lemma SeamlessIs(before: seq<Received>, seqs: seq<int>)
    ensures Seamless(before, ReplaySeqs(seqs)) <==> Connects(Known(before), seqs)
  {
    KnownIsRight(before);
    hide Contiguous, Known;
    if Known(before).Some? {
      var known := Known(before).value;
      forall v | Reached(before, v) ensures v == known { ReachedOnce(before, v, known); }
    } else {
      UnknownIsNotReached(before);
    }
  }

  lemma UnknownIsNotReached(ms: seq<Received>)
    requires Unknown(ms)
    ensures forall v :: !Reached(ms, v)
  {
  }

  lemma {:induction false} PairFaultsNone(client: ClientId, run: seq<int>)
    ensures PairFaults(WithinReplay, client, run) == [] <==> Contiguous(run)
    decreases |run|
  {
    if |run| >= 2 {
      var init := run[..|run| - 1];
      PairFaultsNone(client, init);
      assert Contiguous(run) <==> Contiguous(init) && run[|run| - 1] == run[|run| - 2] + 1 by {
        assert forall i :: 0 <= i < |init| ==> init[i] == run[i];
      }
    }
  }

  lemma SeamlessSnoc(ms: seq<Received>)
    requires ms != []
    ensures var n := |ms| - 1;
            ReplaysSeamless(ms) <==> ReplaysSeamless(ms[..n]) && Seamless(ms[..n], ms[n].body)
  {
    hide Seamless;
    var n := |ms| - 1;
    assert forall p :: 0 <= p <= n ==> ms[..n][..p] == ms[..p];
  }

  lemma ReplayFaultsNone(client: ClientId, known: Option<int>, seqs: seq<int>)
    ensures ReplayFaults(client, known, seqs) == [] <==> Connects(known, seqs)
  {
    PairFaultsNone(client, seqs);
    hide PairFaults, Contiguous;
  }

  lemma OthersSeamless(before: seq<Received>, body: Body)
    requires !body.ReplaySeqs?
    ensures Seamless(before, body)
  {
  }

  lemma {:induction false} InconsistenciesNone(client: ClientId, ms: seq<Received>)
    ensures Inconsistencies(client, ms) == [] <==> ReplaysSeamless(ms)
    decreases |ms|
  {
    if ms != [] {
      var n := |ms| - 1;
      InconsistenciesNone(client, ms[..n]);
      SeamlessSnoc(ms);
      if ms[n].body.ReplaySeqs? {
        ReplayFaultsNone(client, Known(ms[..n]), ms[n].body.seqs);
        SeamlessIs(ms[..n], ms[n].body.seqs);
      } else {
        OthersSeamless(ms[..n], ms[n].body);
      }
      hide Known, ReplayFaults, ReplaysSeamless, Connects, Seamless;
    }
  }

  method CheckReplayIsSelfConsistent(client: ClientId, messages: seq<Received>) returns (out: seq<Violation>)
    ensures out == Inconsistencies(client, messages)
    ensures out == [] <==> ReplaysSeamless(messages)
  {
    hide PairFaults, Contiguous, ReplaysSeamless;
    out := [];
    var known: Option<int> := None;
    for i := 0 to |messages|
      invariant known == Known(messages[..i])
      invariant out == Inconsistencies(client, messages[..i])
    {
      assert messages[..i + 1][..i] == messages[..i];
      match messages[i].body
      case EventSeq(s) => known := Some(s);
      case GapSeq(k) => known := Some(if known.None? then k - 1 else Max(known.value, k - 1));
      case ReplaySeqs(seqs) =>
        var holes := CheckPairs(WithinReplay, client, seqs);
        if known.Some? && seqs != [] && seqs[0] != known.value + 1 {
          holes := holes + [ReplayStart(client, seqs[0], known.value + 1)];
        }
        out := out + holes;
        if seqs != [] {
          known := Some(if known.None? then seqs[|seqs| - 1] else Max(known.value, seqs[|seqs| - 1]));
        }
    }
    assert messages[..|messages|] == messages;
    InconsistenciesNone(client, messages);
  }

  // ---------------------------------------------------------------- all clients

  /** One client's messages, in order. */
  function Of(ms: seq<Received>, client: ClientId): seq<Received> {
    if ms == [] then []
    else Of(ms[..|ms| - 1], client) + (if ms[|ms| - 1].client == client then [ms[|ms| - 1]] else [])
  }

  /** The clients, in order of their first message. */
  function Clients(ms: seq<Received>): seq<ClientId> {
    if ms == [] then []
    else
      var before, last := Clients(ms[..|ms| - 1]), ms[|ms| - 1].client;
      if last in before then before else before + [last]
  }

  ghost function ClientFaults(client: ClientId, ms: seq<Received>): seq<Violation> {
    NeighbourFaults(Consecutive, client, ms) + Repeats(client, ms)
    + NeighbourFaults(Ascending, client, ms) + Inconsistencies(client, ms)
  }

  ghost function Faults(clients: seq<ClientId>, ms: seq<Received>): seq<Violation> {
    if clients == [] then []
    else
      var n := |clients| - 1;
      Faults(clients[..n], ms) + ClientFaults(clients[n], Of(ms, clients[n]))
  }

  /** What a log that passes looks like. */
  ghost predicate Passes(ms: seq<Received>) {
    Neighbours(Consecutive, ms) && NoDuplicates(ms) && Neighbours(Ascending, ms) && ReplaysSeamless(ms)
  }

  ghost predicate ClientPasses(ms: seq<Received>, client: ClientId) {
    Passes(Of(ms, client))
  }

  lemma ClientFaultsNone(client: ClientId, ms: seq<Received>)
    ensures ClientFaults(client, ms) == [] <==> Passes(ms)
  {
    NeighbourFaultsNone(Consecutive, client, ms);
    NeighbourFaultsNone(Ascending, client, ms);
    RepeatsNone(client, ms);
    InconsistenciesNone(client, ms);
  }

  lemma {:induction false} ClientsAreThose(ms: seq<Received>, client: ClientId)
    ensures client in Clients(ms) <==> Of(ms, client) != []
    decreases |ms|
  {
    if ms != [] {
      ClientsAreThose(ms[..|ms| - 1], client);
    }
  }

  ghost predicate AllPass(clients: seq<ClientId>, ms: seq<Received>) {
    forall c :: c in clients ==> ClientPasses(ms, c)
  }

  lemma AllPassSnoc(clients: seq<ClientId>, ms: seq<Received>)
    requires clients != []
    ensures var n := |clients| - 1;
            AllPass(clients, ms) <==> AllPass(clients[..n], ms) && ClientPasses(ms, clients[n])
  {
    hide ClientPasses;
    var n := |clients| - 1;
    assert forall c :: c in clients <==> c in clients[..n] || c == clients[n];
  }

  lemma {:induction false} FaultsNoneAmong(clients: seq<ClientId>, ms: seq<Received>)
    ensures Faults(clients, ms) == [] <==> AllPass(clients, ms)
    decreases |clients|
  {
    if clients != [] {
      hide AllPass, Passes, ClientFaults;
      var n := |clients| - 1;
      FaultsNoneAmong(clients[..n], ms);
      AllPassSnoc(clients, ms);
      ClientFaultsNone(clients[n], Of(ms, clients[n]));
    }
  }

  /** An analysis finds nothing exactly when every client's own log passes. */
  lemma {:induction false} FaultsNone(ms: seq<Received>)
    ensures Faults(Clients(ms), ms) == [] <==> forall c :: ClientPasses(ms, c)
  {
    FaultsNoneAmong(Clients(ms), ms);
    hide Passes;
    if AllPass(Clients(ms), ms) {
      forall c ensures ClientPasses(ms, c) {
        ClientsAreThose(ms, c);
        EmptyPasses();
      }
    }
  }

  lemma EmptyPasses()
    ensures Passes([])
  {
  }

  method GroupByClient(messages: seq<Received>) returns (order: seq<ClientId>, byClient: map<ClientId, seq<Received>>)
    ensures order == Clients(messages)
    ensures forall c :: c in byClient <==> c in order
    ensures forall c :: c in byClient ==> byClient[c] == Of(messages, c)
  {
    order, byClient := [], map[];
    for i := 0 to |messages|
      invariant order == Clients(messages[..i])
      invariant forall c :: c in byClient <==> c in order
      invariant forall c :: c in byClient ==> byClient[c] == Of(messages[..i], c)
    {
      assert messages[..i + 1][..i] == messages[..i];
      var m := messages[i];
      ClientsAreThose(messages[..i], m.client);
      if m.client !in byClient {
        order := order + [m.client];
        byClient := byClient[m.client := []];
      }
      byClient := byClient[m.client := byClient[m.client] + [m]];
    }
    assert messages[..|messages|] == messages;
  }

  method CheckClient(client: ClientId, messages: seq<Received>) returns (out: seq<Violation>)
    ensures out == ClientFaults(client, messages)
  {
    hide NeighbourFaults, Repeats, Inconsistencies, Neighbours, NoDuplicates, ReplaysSeamless;
    out := CheckNoSilentGaps(client, messages);
    var repeats := CheckNoDuplicateSeqs(client, messages);
    out := out + repeats;
    var backwards := CheckStrictlyIncreasing(client, messages);
    out := out + backwards;
    var replays := CheckReplayIsSelfConsistent(client, messages);
    out := out + replays;
  }

  method Analyze(messages: seq<Received>) returns (total: nat, violations: seq<Violation>)
    ensures total == |messages|
    ensures violations == Faults(Clients(messages), messages)
    ensures violations == [] <==> forall c :: ClientPasses(messages, c)
  {
    hide ClientFaults, Passes, Clients, Of;
    var order, byClient := GroupByClient(messages);
    total, violations := |messages|, [];
    for i := 0 to |order|
      invariant violations == Faults(order[..i], messages)
    {
      assert order[..i + 1][..i] == order[..i];
      var faults := CheckClient(order[i], byClient[order[i]]);
      violations := violations + faults;
    }
    assert order[..|order|] == order;
    FaultsNone(messages);
  }

  // ---------------------------------------------------------------- against the truth

  function Above(seqs: seq<int>, lastSeen: int): seq<int> {
    if seqs == [] then []
    else (if seqs[0] > lastSeen then [seqs[0]] else []) + Above(seqs[1..], lastSeen)
  }

  function CheckReplayCorrectness(
    client: ClientId, lastSeen: int, replaySeqs: seq<int>, capacity: nat, known: seq<int>): (out: seq<Violation>)
  {
    var retainedFloor := Max(0, |known| - capacity);
    var expected := Above(known[retainedFloor..], lastSeen);
    if replaySeqs != expected then [ReplayIncorrect(client, expected, replaySeqs)] else []
  }

  /** The seqs one to n. */
  function Upto(n: nat): (r: seq<int>)
    ensures |r| == n && forall i :: 0 <= i < n ==> r[i] == i + 1
  {
    if n == 0 then [] else Upto(n - 1) + [n]
  }

  lemma AboveStep(u: seq<int>, lo: nat, lastSeen: int)
    requires lo < |u|
    ensures Above(u[lo..], lastSeen) == (if u[lo] > lastSeen then [u[lo]] else []) + Above(u[lo + 1..], lastSeen)
  {
    assert u[lo..][1..] == u[lo + 1..];
  }

  ghost predicate FromOne(u: seq<int>) {
    forall i :: 0 <= i < |u| ==> u[i] == i + 1
  }

  lemma FromOneAt(u: seq<int>, lo: nat)
    requires FromOne(u) && lo < |u|
    ensures u[lo] == lo + 1
  {
  }

  lemma SuffixHead(u: seq<int>, lo: nat)
    requires lo < |u|
    ensures u[lo..] == [u[lo]] + u[lo + 1..]
  {
  }

  lemma NothingAbove(u: seq<int>, lastSeen: int)
    ensures u[|u|..] == [] && Above(u[|u|..], lastSeen) == []
  {
  }

  lemma {:induction false} AboveSuffix(u: seq<int>, lo: nat, lastSeen: nat)
    requires FromOne(u)
    requires lo <= |u|
    ensures Above(u[lo..], lastSeen)
            == if lastSeen >= |u| then [] else if lastSeen <= lo then u[lo..] else u[lastSeen..]
    decreases |u| - lo
  {
    hide *;
    if lo == |u| {
      NothingAbove(u, lastSeen);
    } else {
      FromOneAt(u, lo);
      AboveStep(u, lo, lastSeen);
      AboveSuffix(u, lo + 1, lastSeen);
      SuffixHead(u, lo);
      assert [] + u[lo + 1..] == u[lo + 1..];
    }
  }

  lemma AcceptedIs(client: ClientId, lastSeen: int, replaySeqs: seq<int>, capacity: nat, known: seq<int>)
    ensures CheckReplayCorrectness(client, lastSeen, replaySeqs, capacity, known) == []
            <==> replaySeqs == Above(known[Max(0, |known| - capacity)..], lastSeen)
  {
    hide Above;
  }

  lemma UptoIs(n: nat)
    ensures |Upto(n)| == n && FromOne(Upto(n))
  {
  }

  lemma FloorIs(n: nat, capacity: nat)
    ensures 0 <= Max(0, n - capacity) <= n
  {
  }

  lemma AboveFrom(u: seq<int>, lo: nat, lastSeen: nat)
    requires FromOne(u) && lo <= |u|
    ensures Above(u[lo..], lastSeen) == if lastSeen >= |u| then [] else u[Max(lo, lastSeen)..]
  {
    AboveSuffix(u, lo, lastSeen);
    hide Above, FromOne;
  }

  /** Against a truth of n numbered events, exactly one replay is accepted. */
  lemma {:induction false} ReplayAcceptedExactly(
    client: ClientId, lastSeen: nat, replaySeqs: seq<int>, capacity: nat, n: nat)
    ensures CheckReplayCorrectness(client, lastSeen, replaySeqs, capacity, Upto(n)) == []
            <==> replaySeqs == if lastSeen >= n then [] else Upto(n)[Max(Max(0, n - capacity), lastSeen)..]
  {
    UptoIs(n);
    FloorIs(n, capacity);
    AcceptedIs(client, lastSeen, replaySeqs, capacity, Upto(n));
    AboveFrom(Upto(n), Max(0, n - capacity), lastSeen);
    hide *;
  }
}

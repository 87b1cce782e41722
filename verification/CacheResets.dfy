/** When a store wipes out hits that were counted: two misses of one key at once. */
module CacheResets {
  import opened CodeUnits
  import opened Options
  import opened Json
  import opened CacheKey
  import opened ContextIndex
  import opened RelayRoute

  // ---------------------------------------------------------------- the exact condition

  /** A lookup has found a key since the key was last stored. */
  ghost predicate FoundSinceStore(trace: seq<IndexEvent>, key: Text) {
    exists p :: FoundAt(trace, key, p)
  }

  ghost predicate FoundAt(trace: seq<IndexEvent>, key: Text, p: nat) {
    p < |trace| && trace[p] == Lookup(key, true) && forall r :: p < r < |trace| ==> trace[r] != Store(key)
  }

  lemma FoundSnoc(trace: seq<IndexEvent>, event: IndexEvent, key: Text)
    ensures FoundSinceStore(trace + [event], key)
            <==> event != Store(key) && (event == Lookup(key, true) || FoundSinceStore(trace, key))
  {
    var longer := trace + [event];
    if event == Lookup(key, true) {
      assert FoundAt(longer, key, |trace|);
    } else if event != Store(key) {
      if FoundSinceStore(trace, key) {
        var p :| FoundAt(trace, key, p);
        assert FoundAt(longer, key, p);
      }
      if FoundSinceStore(longer, key) {
        var p :| FoundAt(longer, key, p);
        assert FoundAt(trace, key, p) by {
          assert forall r :: 0 <= r < |trace| ==> trace[r] == longer[r];
        }
      }
    } else {
      assert longer[|trace|] == Store(key);
    }
  }

  lemma {:induction false} HitsExactly(trace: seq<IndexEvent>, key: Text)
    ensures HitsSince(trace, key) > 0 <==> FoundSinceStore(trace, key)
    decreases |trace|
  {
    if trace != [] {
      var init, last := trace[..|trace| - 1], trace[|trace| - 1];
      assert trace == init + [last];
      HitsExactly(init, key);
      HitsSnoc(init, last, key);
      FoundSnoc(init, last, key);
      hide FoundSinceStore;
    }
  }

  /** A key that a lookup found, and every key that was stored, is still there. */
  ghost predicate TraceKept(shelf: Shelf) {
    forall p :: 0 <= p < |shelf.trace| && (shelf.trace[p].Store? || shelf.trace[p].found)
      ==> shelf.trace[p].key in shelf.table
  }

  lemma ShelfKeepsTrace(hash: Text -> Text, c: Call, shelf: Shelf, step: Step)
    requires TraceKept(shelf)
    ensures TraceKept(ShelfAfter(hash, c, shelf, step))
  {
    hide BuildRequestHash, Utf8;
  }

  ghost predicate TracesKept(hub: Hub) {
    forall s :: s in hub.shelves ==> TraceKept(hub.shelves[s])
  }

  lemma {:induction false} TracesAlwaysKept(hash: Text -> Text, steps: seq<Step>)
    requires IsRun(hash, steps)
    ensures TracesKept(After(hash, steps))
    decreases |steps|
  {
    if steps != [] {
      var hub, last := After(hash, steps[..|steps| - 1]), steps[|steps| - 1];
      TracesAlwaysKept(hash, steps[..|steps| - 1]);
      EmptyTraceKept();
      StepKeepsTraces(hash, hub, last);
      hide TracesKept, Next, Enabled;
    }
  }

  lemma EmptyTraceKept()
    ensures TraceKept(EMPTY_SHELF)
  {
  }

  lemma StepKeepsTraces(hash: Text -> Text, hub: Hub, step: Step)
    requires TracesKept(hub) && Enabled(hub, step)
    ensures TracesKept(Next(hash, hub, step))
  {
    EmptyTraceKept();
    var c := CallOf(hub, step);
    hide TraceKept, ShelfAfter, CallAfter, Enabled;
    ShelfKeepsTrace(hash, c, ShelfOf(hub, c.scope), step);
  }

  lemma FoundIsKept(shelf: Shelf, key: Text)
    requires TraceKept(shelf) && FoundSinceStore(shelf.trace, key)
    ensures key in shelf.table
  {
    var p :| FoundAt(shelf.trace, key, p);
  }

  lemma ShelfKept(hub: Hub, scope: Scope)
    requires TracesKept(hub)
    ensures TraceKept(ShelfOf(hub, scope))
  {
  }

  /** Hits that a table has counted for a key. */
  function Counts(t: Table, key: Text): nat {
    if key in t then t[key].hitCount else 0
  }

  /** What a table counts for a key is the successful lookups since its store. */
  lemma {:induction false} CountsHits(hash: Text -> Text, steps: seq<Step>, scope: Scope, key: Text)
    requires IsRun(hash, steps)
    ensures Counts(ShelfOf(After(hash, steps), scope).table, key) > 0
            <==> FoundSinceStore(ShelfOf(After(hash, steps), scope).trace, key)
  {
    var shelf := ShelfOf(After(hash, steps), scope);
    TracesAlwaysKept(hash, steps);
    ShelfKept(After(hash, steps), scope);
    HitsExactly(shelf.trace, key);
    InvAlways(hash, steps);
    hide IsRun, After, FoundSinceStore, TraceKept, HitsSince, Inv, ShelfOf;
    if key in shelf.table { EntryCount(hash, After(hash, steps), scope, key); }
    if FoundSinceStore(shelf.trace, key) { FoundIsKept(shelf, key); }
  }

  lemma StoreZeroes(hash: Text -> Text, hub: Hub, step: Step)
    requires Enabled(hub, step) && step.Stores? && !step.rpc.NeverRan?
    ensures var c := CallOf(hub, step);
            && Key(hash, c) in ShelfOf(Next(hash, hub, step), c.scope).table
            && ShelfOf(Next(hash, hub, step), c.scope).table[Key(hash, c)].hitCount == 0
  {
    hide BuildRequestHash, Utf8;
  }

  /** A store sets its entry's count to zero, and wipes out counted hits by it if
      and only if a lookup has found the key since its last store. */
  lemma {:induction false} StoreErasesExactly(hash: Text -> Text, steps: seq<Step>, step: Step)
    requires IsRun(hash, steps) && Enabled(After(hash, steps), step) && step.Stores? && !step.rpc.NeverRan?
    ensures var hub := After(hash, steps);
            var c := CallOf(hub, step);
            var shelf, after := ShelfOf(hub, c.scope), ShelfOf(Next(hash, hub, step), c.scope);
            && Counts(after.table, Key(hash, c)) == 0
            && (Counts(after.table, Key(hash, c)) < Counts(shelf.table, Key(hash, c))
                <==> FoundSinceStore(shelf.trace, Key(hash, c)))
  {
    var hub := After(hash, steps);
    var c := CallOf(hub, step);
    CountsHits(hash, steps, c.scope, Key(hash, c));
    StoreZeroes(hash, hub, step);
    hide IsRun, After, Next, Key, FoundSinceStore, ShelfOf, Enabled;
  }

  // ---------------------------------------------------------------- two misses at once

  const CALL := ToolCall([], [], Obj([]))
  const SCOPE: Scope := []

  /** Calls 0 and 1 both miss and both ask the origin; call 0 stores; call 2 is
      served what it stored. */
  const SERVED: seq<Step> :=
    [Arrives(0, SCOPE, CALL), Arrives(1, SCOPE, CALL), LooksUp(0, Replied), LooksUp(1, Replied),
     OriginAnswers(0, [], []), OriginAnswers(1, [], []), Stores(0, Replied),
     Arrives(2, SCOPE, CALL), LooksUp(2, Replied)]

  /** Then call 1 stores. */
  const LATE_STORE: Step := Stores(1, Replied)

  lemma RouteSnoc(hash: Text -> Text, steps: seq<Step>, step: Step)
    requires IsRun(hash, steps) && Enabled(After(hash, steps), step)
    ensures IsRun(hash, steps + [step]) && After(hash, steps + [step]) == Next(hash, After(hash, steps), step)
  {
    hide Next, Enabled;
    assert (steps + [step])[..|steps|] == steps;
  }

  /** A call of the request in the scope, at a given phase, or not there yet. */
  ghost predicate CallIs(hub: Hub, id: CallId, phase: Option<Phase>) {
    match phase
    case None => id !in hub.calls
    case Some(p) =>
      id in hub.calls && hub.calls[id].phase == p && hub.calls[id].scope == SCOPE && hub.calls[id].request == CALL
  }

  /** What there is to know of a hub with calls 0, 1 and 2 of one request. */
  ghost predicate Is(
    hash: Text -> Text, steps: seq<Step>, p0: Option<Phase>, p1: Option<Phase>, p2: Option<Phase>, t: Table)
  {
    && IsRun(hash, steps)
    && CallIs(After(hash, steps), 0, p0) && CallIs(After(hash, steps), 1, p1) && CallIs(After(hash, steps), 2, p2)
    && ShelfOf(After(hash, steps), SCOPE).table == t
  }

  lemma CallIsWf()
    ensures Wf(CALL.arguments)
  {
  }

  lemma OtherCallKept(hash: Text -> Text, hub: Hub, step: Step, other: CallId, phase: Option<Phase>)
    requires Enabled(hub, step) && step.id != other && CallIs(hub, other, phase)
    ensures CallIs(Next(hash, hub, step), other, phase)
  {
    hide Enabled, CallAfter, ShelfAfter;
  }

  /** A step of one of the three calls, from what it does to that call and to the
      table. */
  lemma Moved(hash: Text -> Text, steps: seq<Step>, step: Step,
              p0: Option<Phase>, p1: Option<Phase>, p2: Option<Phase>, t: Table, phase: Option<Phase>, u: Table)
    requires Is(hash, steps, p0, p1, p2, t) && Enabled(After(hash, steps), step) && step.id <= 2
    requires CallIs(Next(hash, After(hash, steps), step), step.id, phase)
    requires ShelfOf(Next(hash, After(hash, steps), step), SCOPE).table == u
    ensures Is(hash, steps + [step], if step.id == 0 then phase else p0, if step.id == 1 then phase else p1,
               if step.id == 2 then phase else p2, u)
  {
    var hub := After(hash, steps);
    RouteSnoc(hash, steps, step);
    hide IsRun, After, Enabled, Next, CallIs, ShelfOf;
    if step.id != 0 { OtherCallKept(hash, hub, step, 0, p0); }
    if step.id != 1 { OtherCallKept(hash, hub, step, 1, p1); }
    if step.id != 2 { OtherCallKept(hash, hub, step, 2, p2); }
  }

  lemma Arriving(hash: Text -> Text, hub: Hub, id: CallId)
    requires CallIs(hub, id, None)
    ensures var step := Arrives(id, SCOPE, CALL);
            && Enabled(hub, step) && CallIs(Next(hash, hub, step), id, Some(Arrived))
            && ShelfOf(Next(hash, hub, step), SCOPE).table == ShelfOf(hub, SCOPE).table
  {
    CallIsWf();
    hide Wf;
  }

  lemma Looking(hash: Text -> Text, hub: Hub, id: CallId)
    requires CallIs(hub, id, Some(Arrived))
    ensures var step, key, t := LooksUp(id, Replied), BuildRequestHash(hash, CALL), ShelfOf(hub, SCOPE).table;
            && Enabled(hub, step) && CallIs(Next(hash, hub, step), id, Some(AfterLookup(t, key, Replied)))
            && ShelfOf(Next(hash, hub, step), SCOPE).table == LookedUp(t, key, Replied)
  {
    hide Wf, BuildRequestHash, AfterLookup, LookedUp;
  }

  lemma Answering(hash: Text -> Text, hub: Hub, id: CallId)
    requires CallIs(hub, id, Some(AtOrigin(false)))
    ensures var step := OriginAnswers(id, [], []);
            && Enabled(hub, step) && CallIs(Next(hash, hub, step), id, Some(Fetched(false, [], [])))
            && ShelfOf(Next(hash, hub, step), SCOPE).table == ShelfOf(hub, SCOPE).table
  {
    hide Wf, BuildRequestHash;
  }

  lemma Storing(hash: Text -> Text, hub: Hub, id: CallId)
    requires CallIs(hub, id, Some(Fetched(false, [], [])))
    ensures var step, key, t := Stores(id, Replied), BuildRequestHash(hash, CALL), ShelfOf(hub, SCOPE).table;
            && Enabled(hub, step)
            && CallIs(Next(hash, hub, step), id, Some(AfterStore(hash, false, [], [], Replied)))
            && ShelfOf(Next(hash, hub, step), SCOPE).table == StoredBy(hash, t, key, [], [], Replied)
  {
    hide Wf, BuildRequestHash, AfterStore, StoredBy;
  }

  lemma IsParts(hash: Text -> Text, steps: seq<Step>, p0: Option<Phase>, p1: Option<Phase>, p2: Option<Phase>, t: Table)
    requires Is(hash, steps, p0, p1, p2, t)
    ensures IsRun(hash, steps) && ShelfOf(After(hash, steps), SCOPE).table == t
    ensures CallIs(After(hash, steps), 0, p0) && CallIs(After(hash, steps), 1, p1) && CallIs(After(hash, steps), 2, p2)
  {
    hide IsRun, After, CallIs, ShelfOf;
  }

  lemma MissesFirst(key: Text)
    ensures AfterLookup(map[], key, Replied) == AtOrigin(false) && LookedUp(map[], key, Replied) == map[]
  {
  }

  /** Both calls past their lookups. */
  lemma BothMiss(hash: Text -> Text)
    ensures Is(hash, SERVED[..4], Some(AtOrigin(false)), Some(AtOrigin(false)), None, map[])
  {
    var here, miss := Some(Arrived), Some(AtOrigin(false));
    var s1 := [] + [Arrives(0, SCOPE, CALL)];
    var s2 := s1 + [Arrives(1, SCOPE, CALL)];
    var s3 := s2 + [LooksUp(0, Replied)];
    NothingYet(hash);
    MissesFirst(BuildRequestHash(hash, CALL));
    Prefixes();
    hide *;
    IsParts(hash, [], None, None, None, map[]);
    Arriving(hash, After(hash, []), 0);
    Moved(hash, [], Arrives(0, SCOPE, CALL), None, None, None, map[], here, map[]);
    IsParts(hash, s1, here, None, None, map[]);
    Arriving(hash, After(hash, s1), 1);
    Moved(hash, s1, Arrives(1, SCOPE, CALL), here, None, None, map[], here, map[]);
    IsParts(hash, s2, here, here, None, map[]);
    Looking(hash, After(hash, s2), 0);
    Moved(hash, s2, LooksUp(0, Replied), here, here, None, map[], miss, map[]);
    IsParts(hash, s3, miss, here, None, map[]);
    Looking(hash, After(hash, s3), 1);
    Moved(hash, s3, LooksUp(1, Replied), miss, here, None, map[], miss, map[]);
  }

  lemma NothingYet(hash: Text -> Text)
    ensures Is(hash, [], None, None, None, map[])
  {
  }

  lemma Prefixes()
    ensures [] + [Arrives(0, SCOPE, CALL)] + [Arrives(1, SCOPE, CALL)] + [LooksUp(0, Replied)] + [LooksUp(1, Replied)]
            == SERVED[..4]
    ensures SERVED[..4] + [OriginAnswers(0, [], [])] + [OriginAnswers(1, [], [])] + [Stores(0, Replied)]
            + [Arrives(2, SCOPE, CALL)] + [LooksUp(2, Replied)] == SERVED
  {
  }

  /** An entry for the call, with a count. */
  function Kept(hash: Text -> Text, count: nat): Table {
    map[BuildRequestHash(hash, CALL) := Entry(hash([]), [], [], 0, count)]
  }

  lemma TableFacts(hash: Text -> Text, count: nat)
    ensures var key := BuildRequestHash(hash, CALL);
            && StoredBy(hash, map[], key, [], [], Replied) == Kept(hash, 0)
            && StoredBy(hash, Kept(hash, count), key, [], [], Replied) == Kept(hash, 0)
            && LookedUp(Kept(hash, count), key, Replied) == Kept(hash, count + 1)
            && AfterLookup(Kept(hash, count), key, Replied) == Done(Cached(Entry(hash([]), [], [], 0, count + 1)))
            && Counts(Kept(hash, count), key) == count
  {
    hide BuildRequestHash;
  }

  lemma BothAnswered(hash: Text -> Text)
    ensures Is(hash, SERVED[..4] + [OriginAnswers(0, [], [])] + [OriginAnswers(1, [], [])],
               Some(Fetched(false, [], [])), Some(Fetched(false, [], [])), None, map[])
  {
    var s4 := SERVED[..4];
    hide *;
    var miss, got := Some(AtOrigin(false)), Some(Fetched(false, [], []));
    var s5 := s4 + [OriginAnswers(0, [], [])];
    BothMiss(hash);
    IsParts(hash, s4, miss, miss, None, map[]);
    Answering(hash, After(hash, s4), 0);
    Moved(hash, s4, OriginAnswers(0, [], []), miss, miss, None, map[], got, map[]);
    IsParts(hash, s5, got, miss, None, map[]);
    Answering(hash, After(hash, s5), 1);
    Moved(hash, s5, OriginAnswers(1, [], []), got, miss, None, map[], got, map[]);
  }

  lemma ThirdIsServed(hash: Text -> Text)
    ensures Is(hash, SERVED, Some(AfterStore(hash, false, [], [], Replied)), Some(Fetched(false, [], [])),
               Some(Done(Cached(Entry(hash([]), [], [], 0, 1)))), Kept(hash, 1))
  {
    var got, stored := Some(Fetched(false, [], [])), Some(AfterStore(hash, false, [], [], Replied));
    var served := Some(Done(Cached(Entry(hash([]), [], [], 0, 1))));
    var s6 := SERVED[..4] + [OriginAnswers(0, [], [])] + [OriginAnswers(1, [], [])];
    var s7 := s6 + [Stores(0, Replied)];
    var s8 := s7 + [Arrives(2, SCOPE, CALL)];
    TableFacts(hash, 0);
    Prefixes();
    hide *;
    BothAnswered(hash);
    IsParts(hash, s6, got, got, None, map[]);
    Storing(hash, After(hash, s6), 0);
    Moved(hash, s6, Stores(0, Replied), got, got, None, map[], stored, Kept(hash, 0));
    IsParts(hash, s7, stored, got, None, Kept(hash, 0));
    Arriving(hash, After(hash, s7), 2);
    Moved(hash, s7, Arrives(2, SCOPE, CALL), stored, got, None, Kept(hash, 0), Some(Arrived), Kept(hash, 0));
    IsParts(hash, s8, stored, got, Some(Arrived), Kept(hash, 0));
    Looking(hash, After(hash, s8), 2);
    Moved(hash, s8, LooksUp(2, Replied), stored, got, Some(Arrived), Kept(hash, 0), served, Kept(hash, 1));
  }

  /** A caller has been served the entry from the cache, the count says so, and
      the late store sets it back to zero. */
  lemma ServedHitErased(hash: Text -> Text)
    ensures IsRun(hash, SERVED) && IsRun(hash, SERVED + [LATE_STORE])
    ensures var key := BuildRequestHash(hash, CALL);
            var hub, later := After(hash, SERVED), After(hash, SERVED + [LATE_STORE]);
            && 2 in hub.calls && hub.calls[2].phase == Done(Cached(Entry(hash([]), [], [], 0, 1)))
            && Counts(ShelfOf(hub, SCOPE).table, key) == 1
            && Counts(ShelfOf(later, SCOPE).table, key) == 0
  {
    var got, stored := Some(Fetched(false, [], [])), Some(AfterStore(hash, false, [], [], Replied));
    var served := Some(Done(Cached(Entry(hash([]), [], [], 0, 1))));
    ThirdIsServed(hash);
    TableFacts(hash, 1);
    TableFacts(hash, 0);
    assert LATE_STORE == Stores(1, Replied);
    hide After, IsRun, Next, Enabled, Is, ShelfOf, Kept, Counts, BuildRequestHash, AfterStore;
    IsParts(hash, SERVED, stored, got, served, Kept(hash, 1));
    Storing(hash, After(hash, SERVED), 1);
    Moved(hash, SERVED, LATE_STORE, stored, got, served, Kept(hash, 1), stored, Kept(hash, 0));
    IsParts(hash, SERVED + [LATE_STORE], stored, stored, served, Kept(hash, 0));
  }
}

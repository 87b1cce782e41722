/** What a call reports of its lookup and its store, in terms of what became of
    the two requests to the index. */
module CallOutcomes {
  import opened Options
  import opened CodeUnits
  import opened CacheKey
  import opened ContextIndex
  import opened RelayRoute

  /** What a call says of its lookup, once it is past it without a hit. */
  function SaysFailedOpen(phase: Phase): Option<bool> {
    match phase
    case AtOrigin(failedOpen) => Some(failedOpen)
    case Fetched(failedOpen, _, _) => Some(failedOpen)
    case Done(Fresh(_, _, _, failedOpen, _)) => Some(failedOpen)
    case _ => None
  }

  /** What a call says of its store, once it has answered. */
  function SaysStored(phase: Phase): Option<bool> {
    match phase
    case Done(Fresh(_, _, _, _, stored)) => Some(stored)
    case _ => None
  }

  predicate LookupUnanswered(steps: seq<Step>, id: CallId) {
    LooksUp(id, ReplyLost) in steps || LooksUp(id, NeverRan) in steps
  }

  predicate Looked(steps: seq<Step>, id: CallId) {
    LookupUnanswered(steps, id) || LooksUp(id, Replied) in steps
  }

  predicate TriedToStore(steps: seq<Step>, id: CallId) {
    Stores(id, Replied) in steps || Stores(id, ReplyLost) in steps || Stores(id, NeverRan) in steps
  }

  /** What there is to know of one call after a run. */
  ghost predicate Told(steps: seq<Step>, hub: Hub, id: CallId) {
    if id !in hub.calls then !Looked(steps, id) && !TriedToStore(steps, id)
    else
      var phase := hub.calls[id].phase;
      && (phase.Arrived? ==> !Looked(steps, id))
      && (SaysFailedOpen(phase).Some? ==> (SaysFailedOpen(phase).value <==> LookupUnanswered(steps, id)))
      && (phase.Arrived? || phase.AtOrigin? || phase.Fetched? ==> !TriedToStore(steps, id))
      && (SaysStored(phase).Some? ==> (SaysStored(phase).value <==> Stores(id, Replied) in steps))
      && (phase.Done? && phase.response.Cached? ==> !LookupUnanswered(steps, id) && !TriedToStore(steps, id))
  }

  lemma InSnoc(steps: seq<Step>, step: Step, id: CallId)
    ensures LookupUnanswered(steps + [step], id)
            <==> LookupUnanswered(steps, id) || (step.LooksUp? && step.id == id && !step.rpc.Replied?)
    ensures Looked(steps + [step], id) <==> Looked(steps, id) || (step.LooksUp? && step.id == id)
    ensures TriedToStore(steps + [step], id) <==> TriedToStore(steps, id) || (step.Stores? && step.id == id)
    ensures Stores(id, Replied) in steps + [step]
            <==> Stores(id, Replied) in steps || step == Stores(id, Replied)
  {
    if step.LooksUp? && step.id == id {
      assert step == LooksUp(id, step.rpc) && (step.rpc == Replied || step.rpc == ReplyLost || step.rpc == NeverRan);
    }
    if step.Stores? && step.id == id {
      assert step == Stores(id, step.rpc) && (step.rpc == Replied || step.rpc == ReplyLost || step.rpc == NeverRan);
    }
  }

  lemma OwnTold(hash: Text -> Text, steps: seq<Step>, hub: Hub, step: Step)
    requires Enabled(hub, step) && Told(steps, hub, step.id)
    ensures Told(steps + [step], Next(hash, hub, step), step.id)
  {
    InSnoc(steps, step, step.id);
    LookedIs(steps, step.id);
    hide LookupUnanswered, Looked, TriedToStore, BuildRequestHash, ShelfAfter;
  }

  lemma LookedIs(steps: seq<Step>, id: CallId)
    ensures LookupUnanswered(steps, id) ==> Looked(steps, id)
    ensures Stores(id, Replied) in steps ==> TriedToStore(steps, id)
  {
  }

  lemma OtherTold(hash: Text -> Text, steps: seq<Step>, hub: Hub, step: Step, id: CallId)
    requires Enabled(hub, step) && id != step.id && Told(steps, hub, id)
    ensures Told(steps + [step], Next(hash, hub, step), id)
  {
    InSnoc(steps, step, id);
    hide LookupUnanswered, Looked, TriedToStore, CallAfter, ShelfAfter, Enabled;
  }

  lemma {:induction false} ToldAlways(hash: Text -> Text, steps: seq<Step>, id: CallId)
    requires IsRun(hash, steps)
    ensures Told(steps, After(hash, steps), id)
    decreases |steps|
  {
    if steps != [] {
      var before, last := steps[..|steps| - 1], steps[|steps| - 1];
      assert steps == before + [last];
      ToldAlways(hash, before, id);
      hide Told, Next, Enabled;
      if last.id == id {
        OwnTold(hash, before, After(hash, before), last);
      } else {
        OtherTold(hash, before, After(hash, before), last, id);
      }
    }
  }

  /** In every run, a call that was not a hit reports a failed lookup exactly when
      its lookup got no reply, and a store exactly when its store got one. */
  lemma {:induction false} OutcomesExactly(hash: Text -> Text, steps: seq<Step>, id: CallId)
    requires IsRun(hash, steps) && id in After(hash, steps).calls
    ensures var phase := After(hash, steps).calls[id].phase;
            && (SaysFailedOpen(phase).Some? ==> (SaysFailedOpen(phase).value <==> LookupUnanswered(steps, id)))
            && (SaysStored(phase).Some? ==> (SaysStored(phase).value <==> Stores(id, Replied) in steps))
            && (phase.Done? && phase.response.Cached? ==> !LookupUnanswered(steps, id) && !TriedToStore(steps, id))
  {
    ToldAlways(hash, steps, id);
    hide IsRun, After, LookupUnanswered, TriedToStore, Looked;
  }

  // ---------------------------------------------------------------- which lookups hit

  /** A step by which some call's answer was put into a scope under a key. */
  ghost predicate PutsUnder(hash: Text -> Text, hub: Hub, step: Step, scope: Scope, key: Text) {
    && step.Stores? && !step.rpc.NeverRan?
    && step.id in hub.calls && hub.calls[step.id].scope == scope && Key(hash, hub.calls[step.id]) == key
  }

  ghost predicate PutBefore(hash: Text -> Text, steps: seq<Step>, hub: Hub, scope: Scope, key: Text) {
    exists p :: 0 <= p < |steps| && PutsUnder(hash, hub, steps[p], scope, key)
  }

  ghost predicate CallersKnown(steps: seq<Step>, hub: Hub) {
    forall p :: 0 <= p < |steps| ==> steps[p].id in hub.calls
  }

  /** A call keeps its scope and its request. */
  lemma PutsKept(hash: Text -> Text, hub: Hub, step: Step, earlier: Step, scope: Scope, key: Text)
    requires Enabled(hub, step) && earlier.id in hub.calls
    ensures PutsUnder(hash, Next(hash, hub, step), earlier, scope, key) <==> PutsUnder(hash, hub, earlier, scope, key)
    ensures earlier.id in Next(hash, hub, step).calls
  {
    hide BuildRequestHash, ShelfAfter, AfterLookup, AfterStore;
  }

  lemma PutByStep(hash: Text -> Text, hub: Hub, step: Step, scope: Scope, key: Text)
    requires Enabled(hub, step)
    ensures step.id in Next(hash, hub, step).calls
    ensures key in ShelfOf(Next(hash, hub, step), scope).table
            <==> key in ShelfOf(hub, scope).table || PutsUnder(hash, Next(hash, hub, step), step, scope, key)
  {
    hide BuildRequestHash, Utf8;
  }

  lemma PutSnoc(hash: Text -> Text, steps: seq<Step>, hub: Hub, step: Step, scope: Scope, key: Text)
    requires Enabled(hub, step) && CallersKnown(steps, hub)
    ensures var next := Next(hash, hub, step);
            && CallersKnown(steps + [step], next)
            && (PutBefore(hash, steps + [step], next, scope, key)
                <==> PutBefore(hash, steps, hub, scope, key) || PutsUnder(hash, next, step, scope, key))
  {
    var next, longer := Next(hash, hub, step), steps + [step];
    PutByStep(hash, hub, step, scope, key);
    forall p | 0 <= p < |steps|
      ensures longer[p] == steps[p] && longer[p].id in next.calls
      ensures PutsUnder(hash, next, longer[p], scope, key) <==> PutsUnder(hash, hub, steps[p], scope, key)
    {
      PutsKept(hash, hub, step, steps[p], scope, key);
    }
    assert longer[|steps|] == step;
    hide PutsUnder, Next, Enabled;
    if PutBefore(hash, steps, hub, scope, key) {
      var p :| 0 <= p < |steps| && PutsUnder(hash, hub, steps[p], scope, key);
      assert PutsUnder(hash, next, longer[p], scope, key);
    }
  }

  /** A scope's index has a key exactly when some call of the scope was stored
      under it: nothing is ever dropped. */
  lemma {:induction false} ThereExactly(hash: Text -> Text, steps: seq<Step>, scope: Scope, key: Text)
    requires IsRun(hash, steps)
    ensures CallersKnown(steps, After(hash, steps))
    ensures key in ShelfOf(After(hash, steps), scope).table
            <==> PutBefore(hash, steps, After(hash, steps), scope, key)
    decreases |steps|
  {
    if steps != [] {
      var before, last := steps[..|steps| - 1], steps[|steps| - 1];
      assert steps == before + [last];
      ThereExactly(hash, before, scope, key);
      hide Next, Enabled, ShelfOf, PutBefore, CallersKnown, PutsUnder;
      PutByStep(hash, After(hash, before), last, scope, key);
      PutSnoc(hash, before, After(hash, before), last, scope, key);
    }
  }

  /** In every run, a lookup whose reply arrives is a HIT if and only if an answer
      was put under its key in its scope before. */
  lemma HitExactly(hash: Text -> Text, steps: seq<Step>, id: CallId)
    requires IsRun(hash, steps) && Enabled(After(hash, steps), LooksUp(id, Replied))
    ensures var hub := After(hash, steps);
            var c := hub.calls[id];
            IsHit(Next(hash, hub, LooksUp(id, Replied)).calls[id])
            <==> PutBefore(hash, steps, hub, c.scope, Key(hash, c))
  {
    var hub := After(hash, steps);
    ThereExactly(hash, steps, hub.calls[id].scope, Key(hash, hub.calls[id]));
    hide IsRun, After, PutBefore, BuildRequestHash, ShelfAfter;
  }
}

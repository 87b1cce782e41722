/** Tool calls through the shared cache: lookup, origin call and store are
    separate steps, and the steps of many calls interleave. */
module RelayRoute {
  import opened CodeUnits
  import opened Options
  import opened Json
  import opened CacheKey
  import opened ContextIndex

  type Scope = Text
  type CallId = nat

  /** What becomes of a request to the index: its reply arrives, or the caller
      sees a failure although the index acted, or because it never did. */
  datatype Rpc = Replied | ReplyLost | NeverRan

  datatype Response =
    | Cached(entry: Entry)
    | Fresh(content: Text, contentType: Text, resultHash: Text, failedOpen: bool, stored: bool)
    | OriginError
    | Thrown // no response: the handler itself threw

  /** Where one call is suspended. */
  datatype Phase =
    | Arrived
    | AtOrigin(failedOpen: bool)
    | Fetched(failedOpen: bool, content: Text, contentType: Text)
    | Done(response: Response)

  // ---------------------------------------------------------------- one call's steps

  function LookedUp(t: Table, key: Text, rpc: Rpc): Table {
    if rpc.NeverRan? then t else Counted(t, key)
  }

  function AfterLookup(t: Table, key: Text, rpc: Rpc): Phase {
    if !rpc.Replied? then AtOrigin(true)
    else
      match Found(t, key)
      case Hit(entry) => Done(Cached(entry))
      case NoEntry => AtOrigin(false)
  }

  function StoredBy(hash: Text -> Text, t: Table, key: Text, content: Text, contentType: Text, rpc: Rpc): Table {
    if rpc.NeverRan? then t else Stored(t, key, hash(content), content, contentType)
  }

  function AfterStore(hash: Text -> Text, failedOpen: bool, content: Text, contentType: Text, rpc: Rpc): Phase {
    Done(Fresh(content, contentType, hash(content), failedOpen, rpc.Replied?))
  }

  /** What the origin made of a call: a failure is a fetch that failed or a
      status that is not OK; a body that cannot be read is not caught. */
  datatype Origin = Failed | Unreadable | Answered(content: Text, contentType: Text)

  /** One call with nobody else about: the steps, one after the other. */
  function Alone(hash: Text -> Text, t: Table, key: Text, lookup: Rpc, origin: Origin, store: Rpc): (Table, Response) {
    match AfterLookup(t, key, lookup)
    case Done(response) => (LookedUp(t, key, lookup), response)
    case AtOrigin(failedOpen) =>
      (match origin
       case Failed => (LookedUp(t, key, lookup), OriginError)
       case Unreadable => (LookedUp(t, key, lookup), Thrown)
       case Answered(content, contentType) =>
         (StoredBy(hash, LookedUp(t, key, lookup), key, content, contentType, store),
          Fresh(content, contentType, hash(content), failedOpen, store.Replied?)))
    case _ => (t, OriginError)
  }

  method HandleRelay(hash: Text -> Text, index: ContextIndex, call: ToolCall, lookup: Rpc, origin: Origin, store: Rpc)
    returns (response: Response, originCalls: nat)
    modifies index
    ensures (index.entries, response)
            == Alone(hash, old(index.entries), BuildRequestHash(hash, call), lookup, origin, store)
    ensures originCalls == if response.Cached? then 0 else 1
  {
    var requestHash := BuildRequestHash(hash, call);
    originCalls := 0;
    var failedOpen := !lookup.Replied?;
    if !lookup.NeverRan? {
      var found := index.Lookup(requestHash);
      if lookup.Replied? && found.Hit? {
        return Cached(found.entry), originCalls;
      }
    }
    originCalls := originCalls + 1;
    if origin.Failed? {
      return OriginError, originCalls;
    }
    if origin.Unreadable? {
      return Thrown, originCalls;
    }
    var content, contentType := origin.content, origin.contentType;
    var resultHash := hash(content);
    if !store.NeverRan? {
      var byteSize := index.Store(requestHash, resultHash, content, contentType);
    }
    return Fresh(content, contentType, resultHash, failedOpen, store.Replied?), originCalls;
  }

  // ---------------------------------------------------------------- many calls

  /** A successful origin call. */
  datatype Answer = Answer(request: ToolCall, content: Text, contentType: Text)

  datatype IndexEvent = Lookup(key: Text, found: bool) | Store(key: Text)

  /** One scope: its index, and what an observer remembers of it: what happened
      to the index, the origin's answers, and which answer each entry holds. */
  datatype Shelf = Shelf(table: Table, trace: seq<IndexEvent>, answers: seq<Answer>, from: map<Text, nat>)

  /** A call, with the number of times the origin was called for it, the answers
      and the index events there were when it looked, and which of the answers
      is its own or was served. */
  datatype Call = Call(
    scope: Scope, request: ToolCall, phase: Phase, originCalls: nat, known: nat, looked: nat, answer: nat)

  datatype Hub = Hub(shelves: map<Scope, Shelf>, calls: map<CallId, Call>)

  datatype Step =
    | Arrives(id: CallId, scope: Scope, request: ToolCall)
    | LooksUp(id: CallId, rpc: Rpc)
    | OriginFails(id: CallId, unreadable: bool)
    | OriginAnswers(id: CallId, content: Text, contentType: Text)
    | Stores(id: CallId, rpc: Rpc)

  const EMPTY_SHELF := Shelf(map[], [], [], map[])
  const EMPTY_HUB := Hub(map[], map[])

  function ShelfOf(hub: Hub, scope: Scope): Shelf {
    if scope in hub.shelves then hub.shelves[scope] else EMPTY_SHELF
  }

  ghost predicate Enabled(hub: Hub, step: Step) {
    match step
    case Arrives(id, _, request) => id !in hub.calls && Wf(request.arguments)
    case LooksUp(id, _) => id in hub.calls && hub.calls[id].phase.Arrived?
    case OriginFails(id, _) => id in hub.calls && hub.calls[id].phase.AtOrigin?
    case OriginAnswers(id, _, _) => id in hub.calls && hub.calls[id].phase.AtOrigin?
    case Stores(id, _) => id in hub.calls && hub.calls[id].phase.Fetched?
  }

  function Key(hash: Text -> Text, call: Call): Text {
    BuildRequestHash(hash, call.request)
  }

  /** What a step does to the calling call. */
  function CallAfter(hash: Text -> Text, c: Call, shelf: Shelf, step: Step): Call {
    match step
    case Arrives(_, scope, request) => c
    case LooksUp(_, rpc) =>
      var key := Key(hash, c);
      c.(phase := AfterLookup(shelf.table, key, rpc), known := |shelf.answers|, looked := |shelf.trace|,
         answer := if key in shelf.from then shelf.from[key] else 0)
    case OriginFails(_, unreadable) =>
      c.(phase := Done(if unreadable then Thrown else OriginError), originCalls := c.originCalls + 1)
    case OriginAnswers(_, content, contentType) =>
      (match c.phase
       case AtOrigin(failedOpen) =>
         c.(phase := Fetched(failedOpen, content, contentType),
            originCalls := c.originCalls + 1, answer := |shelf.answers|)
       case _ => c)
    case Stores(_, rpc) =>
      (match c.phase
       case Fetched(failedOpen, content, contentType) =>
         c.(phase := AfterStore(hash, failedOpen, content, contentType, rpc))
       case _ => c)
  }

  /** What a step does to the calling call's scope. */
  function ShelfAfter(hash: Text -> Text, c: Call, shelf: Shelf, step: Step): Shelf {
    match step
    case LooksUp(_, rpc) =>
      var key := Key(hash, c);
      if rpc.NeverRan? then shelf
      else shelf.(table := LookedUp(shelf.table, key, rpc), trace := shelf.trace + [Lookup(key, key in shelf.table)])
    case OriginAnswers(_, content, contentType) =>
      shelf.(answers := shelf.answers + [Answer(c.request, content, contentType)])
    case Stores(_, rpc) =>
      if c.phase.Fetched? && !rpc.NeverRan? then
        var key := Key(hash, c);
        shelf.(table := StoredBy(hash, shelf.table, key, c.phase.content, c.phase.contentType, rpc),
               trace := shelf.trace + [Store(key)],
               from := shelf.from[key := c.answer])
      else shelf
    case _ => shelf
  }

  /** The call a step is about, as it is before the step. */
  function CallOf(hub: Hub, step: Step): Call
    requires step.Arrives? || step.id in hub.calls
  {
    if step.Arrives? then Call(step.scope, step.request, Arrived, 0, 0, 0, 0) else hub.calls[step.id]
  }

  function Next(hash: Text -> Text, hub: Hub, step: Step): Hub
    requires step.Arrives? || step.id in hub.calls
  {
    var c := CallOf(hub, step);
    var shelf := ShelfOf(hub, c.scope);
    Hub(hub.shelves[c.scope := ShelfAfter(hash, c, shelf, step)],
        hub.calls[step.id := CallAfter(hash, c, shelf, step)])
  }

  ghost predicate IsRun(hash: Text -> Text, steps: seq<Step>)
    decreases |steps|, 0
  {
    steps == []
    || (IsRun(hash, steps[..|steps| - 1]) && Enabled(After(hash, steps[..|steps| - 1]), steps[|steps| - 1]))
  }

  ghost function After(hash: Text -> Text, steps: seq<Step>): Hub
    requires IsRun(hash, steps)
    decreases |steps|, 1
  {
    if steps == [] then EMPTY_HUB else Next(hash, After(hash, steps[..|steps| - 1]), steps[|steps| - 1])
  }

  // ---------------------------------------------------------------- what is kept

  /** The successful lookups of a key since it was last stored. */
  function HitsSince(trace: seq<IndexEvent>, key: Text): nat {
    if trace == [] then 0
    else
      var before, last := HitsSince(trace[..|trace| - 1], key), trace[|trace| - 1];
      if last.key != key then before
      else if last.Store? then 0
      else if last.found then before + 1
      else before
  }

  /** An entry holds an answer the origin gave in this scope for its key. */
  ghost predicate EntryOk(hash: Text -> Text, shelf: Shelf, key: Text) {
    key in shelf.table && key in shelf.from
    && var e, a := shelf.table[key], shelf.from[key];
       && a < |shelf.answers| && BuildRequestHash(hash, shelf.answers[a].request) == key
       && e.content == shelf.answers[a].content && e.contentType == shelf.answers[a].contentType
       && e.resultHash == hash(e.content) && e.byteSize == |Utf8(e.content)|
       && e.hitCount == HitsSince(shelf.trace, key)
  }

  ghost predicate ShelfOk(hash: Text -> Text, shelf: Shelf) {
    && (forall a :: 0 <= a < |shelf.answers| ==> Wf(shelf.answers[a].request.arguments))
    && forall key :: key in shelf.table ==> EntryOk(hash, shelf, key)
  }

  /** A served entry is an answer given before the lookup to a call with the
      same key, and its count says which successful lookup it was. */
  ghost predicate ServedOk(hash: Text -> Text, c: Call, e: Entry, shelf: Shelf) {
    && c.answer < c.known <= |shelf.answers|
    && BuildRequestHash(hash, shelf.answers[c.answer].request) == Key(hash, c)
    && e.content == shelf.answers[c.answer].content && e.contentType == shelf.answers[c.answer].contentType
    && e.resultHash == hash(e.content) && e.byteSize == |Utf8(e.content)|
    && c.looked < |shelf.trace| && shelf.trace[c.looked] == Lookup(Key(hash, c), true)
    && e.hitCount == HitsSince(shelf.trace[..c.looked + 1], Key(hash, c))
  }

  /** Its own answer is the one a call passes on. */
  ghost predicate OwnOk(c: Call, content: Text, contentType: Text, answers: seq<Answer>) {
    c.answer < |answers| && answers[c.answer] == Answer(c.request, content, contentType)
  }

  ghost predicate CallOk(hash: Text -> Text, c: Call, shelf: Shelf) {
    && Wf(c.request.arguments)
    && match c.phase
       case Arrived => c.originCalls == 0
       case AtOrigin(_) => c.originCalls == 0
       case Fetched(_, content, contentType) => c.originCalls == 1 && OwnOk(c, content, contentType, shelf.answers)
       case Done(Cached(e)) => c.originCalls == 0 && ServedOk(hash, c, e, shelf)
       case Done(Fresh(content, contentType, resultHash, _, _)) =>
         c.originCalls == 1 && OwnOk(c, content, contentType, shelf.answers) && resultHash == hash(content)
       case Done(OriginError) => c.originCalls == 1
       case Done(Thrown) => c.originCalls == 1
  }

  predicate IsHit(c: Call) {
    c.phase.Done? && c.phase.response.Cached?
  }

  /** No lookup served two calls. */
  ghost predicate LookupsApart(hub: Hub) {
    forall i, j :: i in hub.calls && j in hub.calls && i != j && IsHit(hub.calls[i]) && IsHit(hub.calls[j]) ==>
      hub.calls[i].scope != hub.calls[j].scope || hub.calls[i].looked != hub.calls[j].looked
  }

  ghost predicate Inv(hash: Text -> Text, hub: Hub) {
    && (forall s :: s in hub.shelves ==> ShelfOk(hash, hub.shelves[s]))
    && (forall id :: id in hub.calls ==> CallOk(hash, hub.calls[id], ShelfOf(hub, hub.calls[id].scope)))
    && LookupsApart(hub)
  }

  lemma HitsSnoc(trace: seq<IndexEvent>, event: IndexEvent, key: Text)
    ensures HitsSince(trace + [event], key)
            == if event.key != key then HitsSince(trace, key)
               else if event.Store? then 0
               else HitsSince(trace, key) + (if event.found then 1 else 0)
  {
    assert (trace + [event])[..|trace|] == trace;
  }

  lemma LookupKeepsShelf(hash: Text -> Text, c: Call, shelf: Shelf, step: Step)
    requires ShelfOk(hash, shelf) && step.LooksUp?
    ensures ShelfOk(hash, ShelfAfter(hash, c, shelf, step))
  {
    var next := ShelfAfter(hash, c, shelf, step);
    hide HitsSince, Wf, Utf8;
    forall key | key in next.table ensures EntryOk(hash, next, key) {
      assert EntryOk(hash, shelf, key);
      HitsSnoc(shelf.trace, Lookup(Key(hash, c), Key(hash, c) in shelf.table), key);
    }
  }

  lemma StoreKeepsShelf(hash: Text -> Text, c: Call, shelf: Shelf, step: Step)
    requires ShelfOk(hash, shelf) && CallOk(hash, c, shelf) && step.Stores?
    ensures ShelfOk(hash, ShelfAfter(hash, c, shelf, step))
  {
    var next := ShelfAfter(hash, c, shelf, step);
    hide HitsSince, Wf, Utf8;
    if next != shelf {
      forall key | key in next.table ensures EntryOk(hash, next, key) {
        assert key != Key(hash, c) ==> EntryOk(hash, shelf, key);
        HitsSnoc(shelf.trace, Store(Key(hash, c)), key);
      }
    }
  }

  lemma AnswerKeepsShelf(hash: Text -> Text, c: Call, shelf: Shelf, step: Step)
    requires ShelfOk(hash, shelf) && Wf(c.request.arguments) && step.OriginAnswers?
    ensures ShelfOk(hash, ShelfAfter(hash, c, shelf, step))
  {
    var next := ShelfAfter(hash, c, shelf, step);
    hide HitsSince, Wf, Utf8;
    forall key | key in next.table ensures EntryOk(hash, next, key) {
      assert EntryOk(hash, shelf, key);
    }
  }

  lemma ShelfKept(hash: Text -> Text, c: Call, shelf: Shelf, step: Step)
    requires ShelfOk(hash, shelf) && CallOk(hash, c, shelf)
    ensures ShelfOk(hash, ShelfAfter(hash, c, shelf, step))
  {
    hide ShelfOk;
    match step
    case LooksUp(_, _) => LookupKeepsShelf(hash, c, shelf, step);
    case Stores(_, _) => StoreKeepsShelf(hash, c, shelf, step);
    case OriginAnswers(_, _, _) => AnswerKeepsShelf(hash, c, shelf, step);
    case _ =>
  }

  ghost predicate ShelfGrows(shelf: Shelf, later: Shelf) {
    shelf.answers <= later.answers && shelf.trace <= later.trace
  }

  lemma StepGrowsShelf(hash: Text -> Text, c: Call, shelf: Shelf, step: Step)
    ensures ShelfGrows(shelf, ShelfAfter(hash, c, shelf, step))
  {
    hide BuildRequestHash, Utf8;
  }

  lemma {:induction false} ServedInLater(hash: Text -> Text, c: Call, e: Entry, shelf: Shelf, later: Shelf)
    requires ServedOk(hash, c, e, shelf) && ShelfGrows(shelf, later)
    ensures ServedOk(hash, c, e, later)
  {
    hide HitsSince, BuildRequestHash, Utf8;
    assert later.trace[..c.looked + 1] == shelf.trace[..c.looked + 1];
  }

  lemma {:induction false} CallInLater(hash: Text -> Text, c: Call, shelf: Shelf, later: Shelf)
    requires CallOk(hash, c, shelf) && ShelfGrows(shelf, later)
    ensures CallOk(hash, c, later)
  {
    hide Wf, ServedOk;
    if IsHit(c) { ServedInLater(hash, c, c.phase.response.entry, shelf, later); }
  }

  lemma {:induction false} FoundIsServed(hash: Text -> Text, c: Call, shelf: Shelf, later: Shelf)
    requires EntryOk(hash, shelf, Key(hash, c))
    requires c.known == |shelf.answers| && c.looked == |shelf.trace| && c.answer == shelf.from[Key(hash, c)]
    requires later.answers == shelf.answers && later.trace == shelf.trace + [Lookup(Key(hash, c), true)]
    ensures ServedOk(hash, c, shelf.table[Key(hash, c)].(hitCount := shelf.table[Key(hash, c)].hitCount + 1), later)
  {
    hide Utf8, Key, HitsSince, Wf;
    HitsSnoc(shelf.trace, Lookup(Key(hash, c), true), Key(hash, c));
    assert later.trace[..c.looked + 1] == later.trace;
  }

  lemma HitSteps(hash: Text -> Text, c: Call, shelf: Shelf, step: Step)
    requires step.LooksUp? && step.rpc.Replied? && Key(hash, c) in shelf.table && Key(hash, c) in shelf.from
    ensures var next, later := CallAfter(hash, c, shelf, step), ShelfAfter(hash, c, shelf, step);
            var e := shelf.table[Key(hash, c)];
            && next == Call(c.scope, c.request, Done(Cached(e.(hitCount := e.hitCount + 1))), c.originCalls,
                            |shelf.answers|, |shelf.trace|, shelf.from[Key(hash, c)])
            && Key(hash, next) == Key(hash, c)
            && later.answers == shelf.answers && later.trace == shelf.trace + [Lookup(Key(hash, c), true)]
  {
    hide Counted, BuildRequestHash;
  }

  lemma {:induction false} HitKeepsCall(hash: Text -> Text, c: Call, shelf: Shelf, step: Step)
    requires step.LooksUp? && step.rpc.Replied? && c.phase.Arrived? && Key(hash, c) in shelf.table
    requires EntryOk(hash, shelf, Key(hash, c)) && CallOk(hash, c, shelf)
    ensures CallOk(hash, CallAfter(hash, c, shelf, step), ShelfAfter(hash, c, shelf, step))
  {
    var next := CallAfter(hash, c, shelf, step);
    HitSteps(hash, c, shelf, step);
    FoundIsServed(hash, next, shelf, ShelfAfter(hash, c, shelf, step));
    hide Wf, EntryOk, ServedOk, Key, CallAfter, ShelfAfter, OwnOk;
  }

  lemma MissKeepsCall(hash: Text -> Text, c: Call, shelf: Shelf, step: Step)
    requires step.LooksUp? && c.phase.Arrived? && !(step.rpc.Replied? && Key(hash, c) in shelf.table)
    requires CallOk(hash, c, shelf)
    ensures CallOk(hash, CallAfter(hash, c, shelf, step), ShelfAfter(hash, c, shelf, step))
  {
    hide Wf, ServedOk, Key, Counted, OwnOk;
  }

  lemma {:induction false} CallKept(hash: Text -> Text, hub: Hub, step: Step)
    requires Enabled(hub, step)
    requires ShelfOk(hash, ShelfOf(hub, CallOf(hub, step).scope))
    requires CallOk(hash, CallOf(hub, step), ShelfOf(hub, CallOf(hub, step).scope))
    ensures var c := CallOf(hub, step);
            var shelf := ShelfOf(hub, c.scope);
            CallOk(hash, CallAfter(hash, c, shelf, step), ShelfAfter(hash, c, shelf, step))
  {
    var c := CallOf(hub, step);
    var shelf := ShelfOf(hub, c.scope);
    if step.LooksUp? {
      hide EntryOk, CallOk, CallAfter, ShelfAfter, Key;
      if step.rpc.Replied? && Key(hash, c) in shelf.table {
        HitKeepsCall(hash, c, shelf, step);
      } else {
        MissKeepsCall(hash, c, shelf, step);
      }
    } else {
      hide Wf, Utf8, BuildRequestHash, HitsSince, ShelfOk, Stored, Counted;
    }
  }

  lemma HitIsNew(hash: Text -> Text, hub: Hub, step: Step)
    requires Enabled(hub, step)
    ensures var c := CallOf(hub, step);
            var next := CallAfter(hash, c, ShelfOf(hub, c.scope), step);
            next.scope == c.scope && (IsHit(next) ==> step.LooksUp? && next.looked == |ShelfOf(hub, c.scope).trace|)
  {
    hide BuildRequestHash, Utf8, Wf;
  }

  lemma {:induction false} HitLookedBefore(hash: Text -> Text, hub: Hub, id: CallId)
    requires Inv(hash, hub) && id in hub.calls && IsHit(hub.calls[id])
    ensures hub.calls[id].looked < |ShelfOf(hub, hub.calls[id].scope).trace|
  {
    hide ShelfOk, Wf, LookupsApart, HitsSince, BuildRequestHash;
  }

  lemma LookupsKeptApart(hash: Text -> Text, hub: Hub, step: Step)
    requires Inv(hash, hub) && Enabled(hub, step)
    ensures LookupsApart(Next(hash, hub, step))
  {
    HitIsNew(hash, hub, step);
    var next := Next(hash, hub, step);
    assert LookupsApart(hub);
    forall i | i in hub.calls && IsHit(hub.calls[i])
      ensures hub.calls[i].looked < |ShelfOf(hub, hub.calls[i].scope).trace|
    {
      HitLookedBefore(hash, hub, i);
    }
    hide CallAfter, ShelfAfter, Inv, Enabled;
  }

  lemma {:induction false} InvKept(hash: Text -> Text, hub: Hub, step: Step)
    requires Inv(hash, hub) && Enabled(hub, step)
    ensures Inv(hash, Next(hash, hub, step))
  {
    var c := CallOf(hub, step);
    var shelf := ShelfOf(hub, c.scope);
    var next := Next(hash, hub, step);
    EmptyShelfOk(hash);
    assert ShelfOk(hash, shelf) && CallOk(hash, c, shelf);
    ShelfKept(hash, c, shelf, step);
    CallKept(hash, hub, step);
    StepGrowsShelf(hash, c, shelf, step);
    LookupsKeptApart(hash, hub, step);
    hide ShelfOk, CallOk, ShelfAfter, CallAfter, LookupsApart, ShelfGrows;
    forall id | id in next.calls ensures CallOk(hash, next.calls[id], ShelfOf(next, next.calls[id].scope)) {
      if id != step.id {
        SameShelfGrows(ShelfOf(hub, hub.calls[id].scope));
        CallInLater(hash, hub.calls[id], ShelfOf(hub, hub.calls[id].scope), ShelfOf(next, hub.calls[id].scope));
      }
    }
  }

  lemma SameShelfGrows(shelf: Shelf)
    ensures ShelfGrows(shelf, shelf)
  {
  }

  lemma EmptyShelfOk(hash: Text -> Text)
    ensures ShelfOk(hash, EMPTY_SHELF)
  {
  }

  lemma {:induction false} InvAlways(hash: Text -> Text, steps: seq<Step>)
    requires IsRun(hash, steps)
    ensures Inv(hash, After(hash, steps))
    decreases |steps|
  {
    if steps != [] {
      hide Inv, Next, Enabled;
      InvAlways(hash, steps[..|steps| - 1]);
      InvKept(hash, After(hash, steps[..|steps| - 1]), steps[|steps| - 1]);
    } else {
      hide ShelfOk, CallOk;
    }
  }

  // ---------------------------------------------------------------- what every run guarantees

  /** Every HIT is the body of a successful origin call, made in the same scope
      before the lookup, for the same call, unless the two requests' own texts
      are a collision of the hash. */
  lemma {:induction false} HitWasAnswered(hash: Text -> Text, steps: seq<Step>, id: CallId)
    requires IsRun(hash, steps) && id in After(hash, steps).calls
    requires var phase := After(hash, steps).calls[id].phase; phase.Done? && phase.response.Cached?
    ensures var hub := After(hash, steps);
            var c := hub.calls[id];
            var e, answers := c.phase.response.entry, ShelfOf(hub, c.scope).answers;
            && c.answer < c.known <= |answers|
            && var a := answers[c.answer];
               && e.content == a.content && e.contentType == a.contentType
               && e.resultHash == hash(a.content) && e.byteSize == |Utf8(a.content)|
               && Wf(a.request.arguments) && Wf(c.request.arguments)
               && (SameCall(a.request, c.request) || Collide(hash, RequestText(a.request), RequestText(c.request)))
  {
    InvAlways(hash, steps);
    HitAnswer(hash, After(hash, steps), id);
  }

  lemma {:induction false} HitAnswer(hash: Text -> Text, hub: Hub, id: CallId)
    requires Inv(hash, hub) && id in hub.calls && hub.calls[id].phase.Done? && hub.calls[id].phase.response.Cached?
    ensures var c := hub.calls[id];
            var e, answers := c.phase.response.entry, ShelfOf(hub, c.scope).answers;
            && c.answer < c.known <= |answers|
            && var a := answers[c.answer];
               && e.content == a.content && e.contentType == a.contentType
               && e.resultHash == hash(a.content) && e.byteSize == |Utf8(a.content)|
               && Wf(a.request.arguments) && Wf(c.request.arguments)
               && (SameCall(a.request, c.request) || Collide(hash, RequestText(a.request), RequestText(c.request)))
  {
    var c := hub.calls[id];
    var shelf := ShelfOf(hub, c.scope);
    EmptyShelfOk(hash);
    assert ShelfOk(hash, shelf) && CallOk(hash, c, shelf);
    hide Inv, Utf8, SameCall, Collide, BuildRequestHash;
    RequestHashExactly(hash, shelf.answers[c.answer].request, c.request);
  }

  /** Every finished call is a HIT that cost no origin call, or cost exactly one. */
  lemma OriginCallsConserved(hash: Text -> Text, steps: seq<Step>, id: CallId)
    requires IsRun(hash, steps) && id in After(hash, steps).calls && After(hash, steps).calls[id].phase.Done?
    ensures var c := After(hash, steps).calls[id];
            c.originCalls == if c.phase.response.Cached? then 0 else 1
  {
    InvAlways(hash, steps);
    hide ShelfOk, ServedOk, OwnOk, Wf, IsRun, After;
  }

  /** Every stored entry is an answer of the origin in this scope, under its
      hashes and its size, and its count is the successful lookups since it was
      stored. */
  lemma {:induction false} EntriesGenuine(hash: Text -> Text, steps: seq<Step>, scope: Scope, key: Text)
    requires IsRun(hash, steps) && key in ShelfOf(After(hash, steps), scope).table
    ensures EntryOk(hash, ShelfOf(After(hash, steps), scope), key)
  {
    InvAlways(hash, steps);
    hide IsRun, After, CallOk, EntryOk;
  }

  /** A step changes no entry but that of its own call: a lookup only counts, a
      store only replaces, and anything else, an origin that fails among it,
      changes nothing at all. */
  lemma OnlyOwnEntry(hash: Text -> Text, hub: Hub, step: Step, scope: Scope, key: Text)
    requires Enabled(hub, step)
    ensures var c := CallOf(hub, step);
            var t, u := ShelfOf(hub, scope).table, ShelfOf(Next(hash, hub, step), scope).table;
            && (scope != c.scope || key != Key(hash, c) || !(step.LooksUp? || step.Stores?)
                ==> (key in u <==> key in t) && (key in t ==> u[key] == t[key]))
            && (step.LooksUp? ==> (key in u <==> key in t)
                                  && (key in t ==> u[key].(hitCount := t[key].hitCount) == t[key]))
            && (step.OriginFails? ==> u == t)
  {
    hide Utf8, BuildRequestHash;
  }

  /** Two successful lookups with no store between them are counted apart. */
  lemma HitsCountedApart(trace: seq<IndexEvent>, key: Text, p: nat, q: nat)
    requires p < q < |trace| && trace[p] == Lookup(key, true) && trace[q] == Lookup(key, true)
    requires forall r :: p < r < q ==> trace[r] != Store(key)
    ensures 0 < HitsSince(trace[..p + 1], key) < HitsSince(trace[..q + 1], key)
  {
    NoStoreNoReset(trace, key, p + 1, q);
    assert trace[..q + 1] == trace[..q] + [trace[q]];
    assert trace[..p + 1] == trace[..p] + [trace[p]];
    HitsSnoc(trace[..q], trace[q], key);
    HitsSnoc(trace[..p], trace[p], key);
  }

  lemma {:induction false} NoStoreNoReset(trace: seq<IndexEvent>, key: Text, from: nat, upto: nat)
    requires from <= upto <= |trace|
    requires forall r :: from <= r < upto ==> trace[r] != Store(key)
    ensures HitsSince(trace[..from], key) <= HitsSince(trace[..upto], key)
    decreases upto - from
  {
    if from < upto {
      NoStoreNoReset(trace, key, from, upto - 1);
      assert trace[..upto] == trace[..upto - 1] + [trace[upto - 1]];
      HitsSnoc(trace[..upto - 1], trace[upto - 1], key);
    }
  }

  /** Whether a call was answered with an entry that has not been replaced since. */
  ghost predicate StillCounted(hash: Text -> Text, hub: Hub, id: CallId, scope: Scope, key: Text) {
    id in hub.calls && IsHit(hub.calls[id]) && hub.calls[id].scope == scope && Key(hash, hub.calls[id]) == key
    && var trace := ShelfOf(hub, scope).trace;
       forall r :: hub.calls[id].looked < r < |trace| ==> trace[r] != Store(key)
  }

  function HitCountOf(hub: Hub, id: CallId): nat
    requires id in hub.calls && IsHit(hub.calls[id])
  {
    hub.calls[id].phase.response.entry.hitCount
  }

  lemma {:induction false} HitFacts(hash: Text -> Text, hub: Hub, id: CallId)
    requires Inv(hash, hub) && id in hub.calls && IsHit(hub.calls[id])
    ensures var c := hub.calls[id];
            var trace := ShelfOf(hub, c.scope).trace;
            && c.looked < |trace| && trace[c.looked] == Lookup(Key(hash, c), true)
            && HitCountOf(hub, id) == HitsSince(trace[..c.looked + 1], Key(hash, c))
  {
    var c := hub.calls[id];
    assert CallOk(hash, c, ShelfOf(hub, c.scope));
    hide Inv, BuildRequestHash, Wf, Utf8;
  }

  lemma PlaceBound(trace: seq<IndexEvent>, key: Text, p: nat)
    requires p < |trace| && trace[p] == Lookup(key, true)
    requires forall r :: p < r < |trace| ==> trace[r] != Store(key)
    ensures 0 < HitsSince(trace[..p + 1], key) <= HitsSince(trace, key)
  {
    assert trace[..p + 1] == trace[..p] + [Lookup(key, true)];
    HitsSnoc(trace[..p], Lookup(key, true), key);
    NoStoreNoReset(trace, key, p + 1, |trace|);
    assert trace[..|trace|] == trace;
  }

  lemma {:induction false} EntryCount(hash: Text -> Text, hub: Hub, scope: Scope, key: Text)
    requires Inv(hash, hub) && key in ShelfOf(hub, scope).table
    ensures ShelfOf(hub, scope).table[key].hitCount == HitsSince(ShelfOf(hub, scope).trace, key)
  {
    assert EntryOk(hash, ShelfOf(hub, scope), key);
    hide Inv, BuildRequestHash, Wf, Utf8;
  }

  /** A HIT's count is the place of its lookup among those since the store. */
  lemma {:induction false} HitsPlaced(hash: Text -> Text, hub: Hub, id: CallId, scope: Scope, key: Text)
    requires Inv(hash, hub) && StillCounted(hash, hub, id, scope, key)
    requires key in ShelfOf(hub, scope).table
    ensures 0 < HitCountOf(hub, id) <= ShelfOf(hub, scope).table[key].hitCount
  {
    hide Inv, Key, HitCountOf, ShelfOf;
    HitFacts(hash, hub, id);
    EntryCount(hash, hub, scope, key);
    PlaceBound(ShelfOf(hub, scope).trace, key, hub.calls[id].looked);
  }

  lemma {:induction false} HitsLookedApart(hash: Text -> Text, hub: Hub, i: CallId, j: CallId)
    requires Inv(hash, hub) && i != j && i in hub.calls && j in hub.calls
    requires IsHit(hub.calls[i]) && IsHit(hub.calls[j]) && hub.calls[i].scope == hub.calls[j].scope
    ensures hub.calls[i].looked != hub.calls[j].looked
  {
    hide ShelfOk, CallOk;
  }

  lemma PlacesDiffer(trace: seq<IndexEvent>, key: Text, p: nat, q: nat)
    requires p < |trace| && q < |trace| && p != q && trace[p] == Lookup(key, true) && trace[q] == Lookup(key, true)
    requires forall r :: p < r < |trace| ==> trace[r] != Store(key)
    requires forall r :: q < r < |trace| ==> trace[r] != Store(key)
    ensures HitsSince(trace[..p + 1], key) != HitsSince(trace[..q + 1], key)
  {
    hide HitsSince;
    if p < q {
      HitsCountedApart(trace, key, p, q);
    } else {
      HitsCountedApart(trace, key, q, p);
    }
  }

  lemma {:induction false} HitsDiffer(hash: Text -> Text, hub: Hub, i: CallId, j: CallId, scope: Scope, key: Text)
    requires Inv(hash, hub) && i != j
    requires StillCounted(hash, hub, i, scope, key) && StillCounted(hash, hub, j, scope, key)
    ensures HitCountOf(hub, i) != HitCountOf(hub, j)
  {
    hide Inv, Key, HitCountOf, ShelfOf, HitsSince;
    HitsLookedApart(hash, hub, i, j);
    HitFacts(hash, hub, i);
    HitFacts(hash, hub, j);
    PlacesDiffer(ShelfOf(hub, scope).trace, key, hub.calls[i].looked, hub.calls[j].looked);
  }

  /** At most n calls can have different places among the first n. */
  lemma {:induction false} Pigeonhole(ids: set<CallId>, place: map<CallId, nat>, n: nat)
    requires forall i :: i in ids ==> i in place && 0 < place[i] <= n
    requires forall i, j :: i in ids && j in ids && i != j ==> place[i] != place[j]
    ensures |ids| <= n
    decreases n
  {
    if n == 0 {
      assert ids == {};
    } else if i :| i in ids && place[i] == n {
      Pigeonhole(ids - {i}, place, n - 1);
    } else {
      Pigeonhole(ids, place, n - 1);
    }
  }

  /** An entry's count is never less than the HITs it has been served as. */
  lemma {:induction false} HitsNeverUncounted(
    hash: Text -> Text, steps: seq<Step>, ids: set<CallId>, scope: Scope, key: Text)
    requires IsRun(hash, steps) && key in ShelfOf(After(hash, steps), scope).table
    requires forall id :: id in ids ==> StillCounted(hash, After(hash, steps), id, scope, key)
    ensures |ids| <= ShelfOf(After(hash, steps), scope).table[key].hitCount
  {
    var hub := After(hash, steps);
    InvAlways(hash, steps);
    hide Inv, IsRun, After, ShelfOf, Key;
    forall id | id in ids ensures id in hub.calls && IsHit(hub.calls[id]) {
      assert StillCounted(hash, hub, id, scope, key);
    }
    var place := map id | id in ids :: HitCountOf(hub, id);
    forall id | id in ids ensures 0 < place[id] <= ShelfOf(hub, scope).table[key].hitCount {
      HitsPlaced(hash, hub, id, scope, key);
    }
    forall i, j | i in ids && j in ids && i != j ensures place[i] != place[j] {
      HitsDiffer(hash, hub, i, j, scope, key);
    }
    Pigeonhole(ids, place, ShelfOf(hub, scope).table[key].hitCount);
  }

  // ---------------------------------------------------------------- one call alone

  function AfterTheLookup(t: Table, key: Text, id: CallId, lookup: Rpc, origin: Origin, store: Rpc): seq<Step> {
    if AfterLookup(t, key, lookup).Done? then []
    else
      match origin
      case Failed => [OriginFails(id, false)]
      case Unreadable => [OriginFails(id, true)]
      case Answered(content, contentType) => [OriginAnswers(id, content, contentType), Stores(id, store)]
  }

  /** The steps a call takes when nothing comes between them. */
  function Script(
    t: Table, key: Text, id: CallId, scope: Scope, request: ToolCall,
    lookup: Rpc, origin: Origin, store: Rpc): seq<Step>
  {
    [Arrives(id, scope, request), LooksUp(id, lookup)] + AfterTheLookup(t, key, id, lookup, origin, store)
  }

  /** The steps of a script, one after the other. */
  ghost function Played(hash: Text -> Text, hub: Hub, steps: seq<Step>): Option<Hub>
    decreases |steps|
  {
    if steps == [] then Some(hub)
    else if Enabled(hub, steps[0]) then Played(hash, Next(hash, hub, steps[0]), steps[1..])
    else None
  }

  lemma PlayedStep(hash: Text -> Text, hub: Hub, step: Step, more: seq<Step>)
    requires Enabled(hub, step)
    ensures Played(hash, hub, [step] + more) == Played(hash, Next(hash, hub, step), more)
  {
    assert ([step] + more)[1..] == more;
  }

  ghost predicate EndsWith(hub: Option<Hub>, id: CallId, scope: Scope, table: Table, response: Response) {
    hub.Some? && ShelfOf(hub.value, scope).table == table
    && id in hub.value.calls && hub.value.calls[id].phase == Done(response)
  }

  lemma {:induction false} OriginScript(hash: Text -> Text, hub: Hub, id: CallId, origin: Origin, store: Rpc)
    requires id in hub.calls && hub.calls[id].phase.AtOrigin?
    ensures var c := hub.calls[id];
            var t := ShelfOf(hub, c.scope).table;
            match origin
            case Failed => EndsWith(Played(hash, hub, [OriginFails(id, false)]), id, c.scope, t, OriginError)
            case Unreadable => EndsWith(Played(hash, hub, [OriginFails(id, true)]), id, c.scope, t, Thrown)
            case Answered(content, contentType) =>
              EndsWith(Played(hash, hub, [OriginAnswers(id, content, contentType), Stores(id, store)]), id, c.scope,
                       StoredBy(hash, t, Key(hash, c), content, contentType, store),
                       Fresh(content, contentType, hash(content), c.phase.failedOpen, store.Replied?))
  {
    hide BuildRequestHash, Utf8, Wf, Stored, Counted;
    match origin
    case Failed =>
      assert [OriginFails(id, false)] == [OriginFails(id, false)] + [];
      PlayedStep(hash, hub, OriginFails(id, false), []);
    case Unreadable =>
      assert [OriginFails(id, true)] == [OriginFails(id, true)] + [];
      PlayedStep(hash, hub, OriginFails(id, true), []);
    case Answered(content, contentType) =>
      var answered := Next(hash, hub, OriginAnswers(id, content, contentType));
      PlayedStep(hash, hub, OriginAnswers(id, content, contentType), [Stores(id, store)]);
      assert [Stores(id, store)] == [Stores(id, store)] + [];
      assert [OriginAnswers(id, content, contentType), Stores(id, store)]
             == [OriginAnswers(id, content, contentType)] + [Stores(id, store)];
      PlayedStep(hash, answered, Stores(id, store), []);
  }

  lemma LookupScript(hash: Text -> Text, hub: Hub, id: CallId, scope: Scope, request: ToolCall, lookup: Rpc)
    requires id !in hub.calls && Wf(request.arguments)
    ensures var arrived := Next(hash, hub, Arrives(id, scope, request));
            && Enabled(hub, Arrives(id, scope, request)) && Enabled(arrived, LooksUp(id, lookup))
            && var looked := Next(hash, arrived, LooksUp(id, lookup));
               var t, key := ShelfOf(hub, scope).table, BuildRequestHash(hash, request);
               && id in looked.calls && looked.calls[id].scope == scope && looked.calls[id].request == request
               && looked.calls[id].phase == AfterLookup(t, key, lookup)
               && ShelfOf(looked, scope).table == LookedUp(t, key, lookup)
  {
    hide BuildRequestHash, Utf8, Wf, Counted, AfterLookup;
  }

  /** The handler's steps from its lookup on. */
  lemma RestOfScript(
    hash: Text -> Text, looked: Hub, id: CallId, t: Table, key: Text, lookup: Rpc, origin: Origin, store: Rpc)
    requires id in looked.calls && looked.calls[id].phase == AfterLookup(t, key, lookup)
    requires Key(hash, looked.calls[id]) == key
    requires ShelfOf(looked, looked.calls[id].scope).table == LookedUp(t, key, lookup)
    ensures var (table, response) := Alone(hash, t, key, lookup, origin, store);
            EndsWith(Played(hash, looked, AfterTheLookup(t, key, id, lookup, origin, store)),
                     id, looked.calls[id].scope, table, response)
  {
    if !AfterLookup(t, key, lookup).Done? { OriginScript(hash, looked, id, origin, store); }
    hide BuildRequestHash, Utf8, Wf, LookedUp, Next, StoredBy, ShelfOf, Enabled, Key;
  }

  lemma ScriptSplits(
    t: Table, key: Text, id: CallId, scope: Scope, request: ToolCall, lookup: Rpc, origin: Origin, store: Rpc)
    ensures Script(t, key, id, scope, request, lookup, origin, store)
            == [Arrives(id, scope, request)]
               + ([LooksUp(id, lookup)] + AfterTheLookup(t, key, id, lookup, origin, store))
  {
    hide AfterTheLookup;
  }

  /** What the handler does in one go is what its steps do with nothing between. */
  lemma AloneIsScript(
    hash: Text -> Text, hub: Hub, id: CallId, scope: Scope, request: ToolCall, lookup: Rpc, origin: Origin, store: Rpc)
    requires id !in hub.calls && Wf(request.arguments)
    ensures var t, key := ShelfOf(hub, scope).table, BuildRequestHash(hash, request);
            var (table, response) := Alone(hash, t, key, lookup, origin, store);
            EndsWith(Played(hash, hub, Script(t, key, id, scope, request, lookup, origin, store)),
                     id, scope, table, response)
  {
    var t, key := ShelfOf(hub, scope).table, BuildRequestHash(hash, request);
    var arrived := Next(hash, hub, Arrives(id, scope, request));
    LookupScript(hash, hub, id, scope, request, lookup);
    var looked := Next(hash, arrived, LooksUp(id, lookup));
    var rest := AfterTheLookup(t, key, id, lookup, origin, store);
    ScriptSplits(t, key, id, scope, request, lookup, origin, store);
    RestOfScript(hash, looked, id, t, key, lookup, origin, store);
    hide *;
    PlayedStep(hash, hub, Arrives(id, scope, request), [LooksUp(id, lookup)] + rest);
    PlayedStep(hash, arrived, LooksUp(id, lookup), rest);
  }

  // ---------------------------------------------------------------- scopes

  /** Whether a step is about a call in a scope. */
  predicate Concerns(hub: Hub, step: Step, scope: Scope)
    requires step.Arrives? || step.id in hub.calls
  {
    CallOf(hub, step).scope == scope
  }

  /** The steps of a run that are about one scope. */
  ghost function OnlyScope(hash: Text -> Text, steps: seq<Step>, scope: Scope): seq<Step>
    requires IsRun(hash, steps)
    decreases |steps|
  {
    if steps == [] then []
    else
      var init, last := steps[..|steps| - 1], steps[|steps| - 1];
      var others := OnlyScope(hash, init, scope);
      if Concerns(After(hash, init), last, scope) then others + [last] else others
  }

  /** Two hubs have the same shelf and the same calls in a scope, and the
      second has no other calls. */
  ghost predicate SameIn(hub: Hub, alone: Hub, scope: Scope) {
    && ShelfOf(hub, scope) == ShelfOf(alone, scope)
    && (forall id :: id in alone.calls <==> (id in hub.calls && hub.calls[id].scope == scope))
    && forall id :: id in alone.calls ==> id in hub.calls && alone.calls[id] == hub.calls[id]
  }

  lemma CallScopeKept(hash: Text -> Text, c: Call, shelf: Shelf, step: Step)
    ensures CallAfter(hash, c, shelf, step).scope == c.scope
  {
  }

  lemma OwnStep(hash: Text -> Text, hub: Hub, alone: Hub, scope: Scope, step: Step)
    requires SameIn(hub, alone, scope) && Enabled(hub, step) && Concerns(hub, step, scope)
    ensures Enabled(alone, step) && SameIn(Next(hash, hub, step), Next(hash, alone, step), scope)
  {
    var c := CallOf(hub, step);
    CallScopeKept(hash, c, ShelfOf(hub, c.scope), step);
    SameCallOf(hub, alone, scope, step);
    hide CallAfter, ShelfAfter, Wf, Enabled, CallOf;
  }

  lemma SameCallOf(hub: Hub, alone: Hub, scope: Scope, step: Step)
    requires SameIn(hub, alone, scope) && Enabled(hub, step) && Concerns(hub, step, scope)
    ensures Enabled(alone, step) && CallOf(alone, step) == CallOf(hub, step) && CallOf(hub, step).scope == scope
  {
    hide Wf, ShelfOf;
  }

  lemma OtherStep(hash: Text -> Text, hub: Hub, alone: Hub, scope: Scope, step: Step)
    requires SameIn(hub, alone, scope) && Enabled(hub, step) && !Concerns(hub, step, scope)
    ensures SameIn(Next(hash, hub, step), alone, scope)
  {
    var c := CallOf(hub, step);
    CallScopeKept(hash, c, ShelfOf(hub, c.scope), step);
    hide CallAfter, ShelfAfter, Wf;
  }

  /** Calls in one scope never affect another: a scope's index, its answers and
      all its calls are what they would be had only its own steps happened. */
  lemma {:induction false} ScopesIsolated(hash: Text -> Text, steps: seq<Step>, scope: Scope)
    requires IsRun(hash, steps)
    ensures IsRun(hash, OnlyScope(hash, steps, scope))
    ensures SameIn(After(hash, steps), After(hash, OnlyScope(hash, steps, scope)), scope)
    decreases |steps|
  {
    if steps != [] {
      var init, last := steps[..|steps| - 1], steps[|steps| - 1];
      var others := OnlyScope(hash, init, scope);
      ScopesIsolated(hash, init, scope);
      hide SameIn, Next, Enabled, Concerns;
      if Concerns(After(hash, init), last, scope) {
        OwnStep(hash, After(hash, init), After(hash, others), scope, last);
        assert (others + [last])[..|others|] == others;
      } else {
        OtherStep(hash, After(hash, init), After(hash, others), scope, last);
      }
    }
  }
}

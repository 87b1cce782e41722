/** The content address of a tool call: which calls share a key. */
module CacheKey {
  import opened CodeUnits
  import opened Options
  import opened Json
  import opened JsonParser

  /** Either printer determines the meaning of what it printed. */
  lemma PrintDeterminesMeaning(order: Order, a: Value, b: Value)
    requires Wf(a) && Wf(b)
    requires Print(order, a) == Print(order, b)
    ensures MeaningOf(a) == MeaningOf(b)
  {
    PrintParses(order, a, []);
    PrintParses(order, b, []);
    assert Print(order, a) + [] == Print(order, b) + [];
  }

  /** The canonical printer depends on nothing but the meaning. */
  lemma {:induction false} MeaningDeterminesCanonical(a: Value, b: Value)
    requires Wf(a) && Wf(b)
    requires MeaningOf(a) == MeaningOf(b)
    ensures Canonical(a) == Canonical(b)
    decreases a, 1, 0
  {
    match a
    case Arr(items) => SameItems(a, b, items, b.items);
    case Obj(members) =>
      ArrangedMeaning(ByKey, members);
      ArrangedMeaning(ByKey, b.members);
      SameMembers(a, b, Arrange(ByKey, members), Arrange(ByKey, b.members));
    case _ =>
  }

  lemma {:induction false} SameItems(a: Value, b: Value, xs: seq<Value>, ys: seq<Value>)
    requires PrintableItems(a, xs) && PrintableItems(b, ys)
    requires MeaningsOf(xs) == MeaningsOf(ys)
    ensures PrintItems(ByKey, a, xs) == PrintItems(ByKey, b, ys)
    decreases a, 0, |xs|
  {
    if xs != [] {
      assert MeaningsOf(xs)[0] == MeaningsOf(ys)[0];
      MeaningDeterminesCanonical(xs[0], ys[0]);
      if |xs| > 1 {
        assert MeaningsOf(xs[1..]) == MeaningsOf(xs)[1..];
        assert MeaningsOf(ys[1..]) == MeaningsOf(ys)[1..];
        SameItems(a, b, xs[1..], ys[1..]);
      }
    }
  }

  lemma TailsPrintable(parent: Value, ms: seq<Member>)
    requires ms != [] && PrintableMembers(parent, ms) && StrictlySorted(ms)
    ensures PrintableMembers(parent, ms[1..]) && StrictlySorted(ms[1..])
    ensures Wf(Obj(ms)) && AllPresent(ms) && Wf(ms[0].value.value)
  {
    assert forall m :: m in ms[1..] ==> m in ms;
    hide Less;
  }

  lemma PrintMembersHead(parent: Value, ms: seq<Member>)
    requires ms != [] && PrintableMembers(parent, ms) && PrintableMembers(parent, ms[1..])
    ensures PrintMembers(ByKey, parent, ms)
            == Quoted(ms[0].key) + [COLON] + Canonical(ms[0].value.value)
               + (if |ms| == 1 then [] else [COMMA] + PrintMembers(ByKey, parent, ms[1..]))
  {
    hide Quoted, Wf, DistinctKeys;
  }

  lemma NoMembersAlike(a: Value, b: Value, ys: seq<Member>)
    requires PrintableMembers(a, []) && PrintableMembers(b, ys)
    requires MeaningOf(Obj([])) == MeaningOf(Obj(ys))
    ensures ys == []
  {
    SameKeySets([], ys);
    KeylessIsEmpty(ys);
    assert PresentKeys([]) == {};
    hide MeaningOf;
  }

  lemma {:induction false} SameMembers(a: Value, b: Value, xs: seq<Member>, ys: seq<Member>)
    requires PrintableMembers(a, xs) && PrintableMembers(b, ys)
    requires StrictlySorted(xs) && StrictlySorted(ys)
    requires MeaningOf(Obj(xs)) == MeaningOf(Obj(ys))
    ensures PrintMembers(ByKey, a, xs) == PrintMembers(ByKey, b, ys)
    decreases a, 0, |xs|
  {
    if xs == [] {
      NoMembersAlike(a, b, ys);
    } else if ys == [] {
      NoMembersAlike(b, a, xs);
    } else {
      TailsPrintable(a, xs);
      TailsPrintable(b, ys);
      HeadsAgree(xs, ys);
      assert xs[0] in xs && xs[0].value.value < a;
      hide Quoted, MeaningOf, Less, PrintableMembers, StrictlySorted, Wf, PrintMembers;
      MeaningDeterminesCanonical(xs[0].value.value, ys[0].value.value);
      PrintMembersHead(a, xs);
      PrintMembersHead(b, ys);
      if |xs| > 1 {
        SameMembers(a, b, xs[1..], ys[1..]);
      }
    }
  }

  ghost predicate AllPresent(ms: seq<Member>) {
    forall m :: m in ms ==> m.value.Some?
  }

  lemma FirstKeysAgree(xs: seq<Member>, ys: seq<Member>)
    requires StrictlySorted(xs) && StrictlySorted(ys) && AllPresent(xs) && AllPresent(ys)
    requires xs != [] && PresentKeys(xs) == PresentKeys(ys)
    ensures ys != [] && xs[0].key == ys[0].key
  {
    KeylessIsEmpty(xs);
    KeylessIsEmpty(ys);
    hide AllPresent, StrictlySorted, PresentKeys;
    LeastKey(xs);
    LeastKey(ys);
    LessTotal(xs[0].key, ys[0].key);
  }

  lemma TailsAreSorted(ms: seq<Member>)
    requires ms != [] && AllPresent(ms) && Wf(Obj(ms))
    ensures AllPresent(ms[1..]) && Wf(Obj(ms[1..]))
  {
    assert forall m :: m in ms[1..] ==> m in ms;
  }

  /** Sorted members of one meaning begin with the same member and go on with
      one meaning. */
  lemma HeadsAgree(xs: seq<Member>, ys: seq<Member>)
    requires Wf(Obj(xs)) && Wf(Obj(ys)) && StrictlySorted(xs) && StrictlySorted(ys)
    requires AllPresent(xs) && AllPresent(ys)
    requires xs != [] && MeaningOf(Obj(xs)) == MeaningOf(Obj(ys))
    ensures ys != [] && (|xs| > 1 <==> |ys| > 1)
    ensures xs[0].key == ys[0].key && Wf(xs[0].value.value) && Wf(ys[0].value.value)
    ensures MeaningOf(xs[0].value.value) == MeaningOf(ys[0].value.value)
    ensures Wf(Obj(xs[1..])) && Wf(Obj(ys[1..])) && MeaningOf(Obj(xs[1..])) == MeaningOf(Obj(ys[1..]))
  {
    SameKeySets(xs, ys);
    FirstKeysAgree(xs, ys);
    TailsAreSorted(xs);
    TailsAreSorted(ys);
    TailMeaning(xs);
    TailMeaning(ys);
    assert xs[0] in xs && ys[0] in ys;
    SameKeySets(xs[1..], ys[1..]);
    KeylessIsEmpty(xs[1..]);
    KeylessIsEmpty(ys[1..]);
    hide MeaningOf, PresentKeys, StrictlySorted, Less;
  }

  lemma KeylessIsEmpty(ms: seq<Member>)
    requires AllPresent(ms)
    ensures PresentKeys(ms) == {} <==> ms == []
    ensures ms != [] ==> ms[0].key in PresentKeys(ms)
  {
    if ms == [] {
      assert PresentKeys(ms) == {};
    } else {
      assert ms[0] in ms;
      assert ms[0].key in PresentKeys(ms);
    }
  }

  lemma {:induction false} TailMeaning(ms: seq<Member>)
    requires ms != [] && Wf(Obj(ms)) && AllPresent(ms)
    ensures ms[0].key in MeaningOf(Obj(ms)).members
    ensures MeaningOf(ms[0].value.value) == MeaningOf(Obj(ms)).members[ms[0].key]
    ensures MeaningOf(Obj(ms[1..])) == MObj(MeaningOf(Obj(ms)).members - {ms[0].key})
  {
    MeaningUnfolds(ms);
    assert MeaningOf(Obj(ms)).MObj? && MeaningOf(Obj(ms[1..])).MObj?;
    hide MeaningOf, AllPresent;
  }

  lemma SameKeySets(xs: seq<Member>, ys: seq<Member>)
    requires Wf(Obj(xs)) && Wf(Obj(ys)) && MeaningOf(Obj(xs)) == MeaningOf(Obj(ys))
    ensures PresentKeys(xs) == PresentKeys(ys)
  {
    assert MeaningOf(Obj(xs)).members.Keys == PresentKeys(xs);
    assert MeaningOf(Obj(ys)).members.Keys == PresentKeys(ys);
  }

  lemma LeastKey(ms: seq<Member>)
    requires ms != [] && StrictlySorted(ms)
    ensures forall k :: k in PresentKeys(ms) ==> k == ms[0].key || Less(ms[0].key, k)
  {
    forall k | k in PresentKeys(ms) ensures k == ms[0].key || Less(ms[0].key, k) {
      var m := Find(ms, k);
      var i :| 0 <= i < |ms| && ms[i] == m;
    }
  }

  /** Two values have one canonical text exactly when they are the same JSON. */
  lemma CanonicalExactly(a: Value, b: Value)
    requires Wf(a) && Wf(b)
    ensures Canonical(a) == Canonical(b) <==> MeaningOf(a) == MeaningOf(b)
  {
    if Canonical(a) == Canonical(b) {
      PrintDeterminesMeaning(ByKey, a, b);
    } else if MeaningOf(a) == MeaningOf(b) {
      MeaningDeterminesCanonical(a, b);
    }
  }

  /** Reordering members, or adding members that are `undefined`, is invisible. */
  lemma KeyOrderInvisible(xs: seq<Member>, ys: seq<Member>)
    requires Wf(Obj(xs)) && Wf(Obj(ys))
    requires forall m: Member :: m.value.Some? ==> (m in xs <==> m in ys)
    ensures Canonical(Obj(xs)) == Canonical(Obj(ys))
  {
    assert PresentKeys(xs) == PresentKeys(ys) by {
      forall k | k in PresentKeys(xs) ensures k in PresentKeys(ys) { assert Find(xs, k) in ys; }
      forall k | k in PresentKeys(ys) ensures k in PresentKeys(xs) { assert Find(ys, k) in xs; }
    }
    forall k | k in PresentKeys(xs)
      ensures MeaningOf(Obj(xs)).members[k] == MeaningOf(Obj(ys)).members[k]
    {
      var m := Find(xs, k);
      MeaningAt(xs, m);
      MeaningAt(ys, m);
    }
    MeaningDeterminesCanonical(Obj(xs), Obj(ys));
  }

  // ---------------------------------------------------------------- request hashes

  /** The body's `arguments` are an object by the time the hash is built. */
  datatype ToolCall = ToolCall(originUrl: Text, tool: Text, arguments: Value)

  const ORIGIN_URL_KEY: Text := [111, 114, 105, 103, 105, 110, 85, 114, 108]    // originUrl
  const TOOL_KEY: Text := [116, 111, 111, 108]                                  // tool
  const ARGUMENTS_KEY: Text := [97, 114, 103, 117, 109, 101, 110, 116, 115]     // arguments

  function RequestValue(call: ToolCall): Value {
    Obj([Member(ORIGIN_URL_KEY, Some(Str(call.originUrl))),
         Member(TOOL_KEY, Some(Str(call.tool))),
         Member(ARGUMENTS_KEY, Some(call.arguments))])
  }

  function RequestText(call: ToolCall): Text {
    Canonical(RequestValue(call))
  }

  function BuildRequestHash(hash: Text -> Text, call: ToolCall): Text {
    hash(RequestText(call))
  }

  ghost predicate SameCall(a: ToolCall, b: ToolCall)
    requires Wf(a.arguments) && Wf(b.arguments)
  {
    a.originUrl == b.originUrl && a.tool == b.tool && MeaningOf(a.arguments) == MeaningOf(b.arguments)
  }

  /** Two given texts are a collision of the hash. */
  ghost predicate Collide(hash: Text -> Text, s: Text, t: Text) {
    s != t && hash(s) == hash(t)
  }

  lemma RequestWf(call: ToolCall)
    requires Wf(call.arguments)
    ensures Wf(RequestValue(call))
    ensures PresentKeys(RequestValue(call).members) == {ORIGIN_URL_KEY, TOOL_KEY, ARGUMENTS_KEY}
  {
    var ms := RequestValue(call).members;
    KeysDiffer();
    assert ms[0] in ms && ms[1] in ms && ms[2] in ms;
    assert PresentKeys(ms) == {ORIGIN_URL_KEY, TOOL_KEY, ARGUMENTS_KEY};
  }

  lemma RequestMeaning(call: ToolCall)
    requires Wf(call.arguments)
    ensures Wf(RequestValue(call))
    ensures MeaningOf(RequestValue(call)).members
            == map[ORIGIN_URL_KEY := MStr(call.originUrl), TOOL_KEY := MStr(call.tool),
                   ARGUMENTS_KEY := MeaningOf(call.arguments)]
  {
    var ms := RequestValue(call).members;
    RequestWf(call);
    KeysDiffer();
    assert ms[0] in ms && ms[1] in ms && ms[2] in ms;
    MeaningKeys(ms);
    MeaningAt(ms, ms[0]);
    MeaningAt(ms, ms[1]);
    MeaningAt(ms, ms[2]);
    assert MeaningOf(Str(call.originUrl)) == MStr(call.originUrl) && MeaningOf(Str(call.tool)) == MStr(call.tool);
    hide Wf, PresentKeys, MeaningOf;
  }

  lemma SameCallSameMeaning(a: ToolCall, b: ToolCall)
    requires Wf(a.arguments) && Wf(b.arguments)
    ensures Wf(RequestValue(a)) && Wf(RequestValue(b))
    ensures SameCall(a, b) <==> MeaningOf(RequestValue(a)) == MeaningOf(RequestValue(b))
  {
    RequestMeaning(a);
    RequestMeaning(b);
    KeysDiffer();
    ThreeEntries(ORIGIN_URL_KEY, TOOL_KEY, ARGUMENTS_KEY,
                 MStr(a.originUrl), MStr(a.tool), MeaningOf(a.arguments),
                 MStr(b.originUrl), MStr(b.tool), MeaningOf(b.arguments));
  }

  lemma KeysDiffer()
    ensures ORIGIN_URL_KEY != TOOL_KEY && TOOL_KEY != ARGUMENTS_KEY && ORIGIN_URL_KEY != ARGUMENTS_KEY
  {
    assert ORIGIN_URL_KEY[0] != TOOL_KEY[0] && TOOL_KEY[0] != ARGUMENTS_KEY[0];
    assert ORIGIN_URL_KEY[0] != ARGUMENTS_KEY[0];
  }

  lemma ThreeEntries(i: Text, j: Text, k: Text,
                     a: Meaning, b: Meaning, c: Meaning, a': Meaning, b': Meaning, c': Meaning)
    requires i != j && j != k && i != k
    ensures map[i := a, j := b, k := c] == map[i := a', j := b', k := c'] <==> a == a' && b == b' && c == c'
  {
    var m, m' := map[i := a, j := b, k := c], map[i := a', j := b', k := c'];
    assert m[i] == a && m[j] == b && m[k] == c;
    assert m'[i] == a' && m'[j] == b' && m'[k] == c';
  }

  /** Equal request hashes mean the same call, unless the two requests' own
      texts are a collision; the same call always has the same hash. */
  lemma {:induction false} RequestHashExactly(hash: Text -> Text, a: ToolCall, b: ToolCall)
    requires Wf(a.arguments) && Wf(b.arguments)
    ensures BuildRequestHash(hash, a) == BuildRequestHash(hash, b)
            <==> SameCall(a, b) || Collide(hash, RequestText(a), RequestText(b))
  {
    SameCallSameMeaning(a, b);
    CanonicalExactly(RequestValue(a), RequestValue(b));
  }

  /** A number the syntax can write: the two zeros are one, an infinity none. */
  function Written(n: Number): Option<Text> {
    match n
    case Finite(t) => Some(t)
    case MinusZero => Some([DIGIT_ZERO])
    case Infinite(_) => None
  }

  /** What the key cannot tell apart although parsing can, exactly: two numbers
      if and only if they are written alike or are both infinite, and a number
      and null if and only if the number is infinite. */
  lemma ConflatedNumbers(a: Number, b: Number)
    ensures Canonical(Num(a)) == Canonical(Num(b)) <==> Written(a) == Written(b)
    ensures Canonical(Num(a)) == Canonical(Null) <==> a.Infinite?
  {
    assert a.Finite? ==> a.text[0] in a.text && IsNumberUnit(a.text[0]);
    assert b.Finite? ==> b.text[0] in b.text && IsNumberUnit(b.text[0]);
    assert !IsNumberUnit(NULL_WORD[0]);
  }
}

/** JSON values as the runtime holds them, what they mean, and their printers. */
module Json {
  import opened CodeUnits
  import opened Options

  predicate IsNumberUnit(u: CodeUnit) {
    IsDigit(u) || u == MINUS || u == PLUS || u == DOT || u == LETTER_E
  }

  predicate IsNumberText(t: Text) {
    t != [] && forall u :: u in t ==> IsNumberUnit(u)
  }

  type NumberText = t: Text | IsNumberText(t) witness [DIGIT_ZERO]

  /** A finite number other than minus zero is identified with the text the
      runtime prints for it. Minus zero and the infinities (which parsing
      "1e999" returns) have no text of their own. */
  datatype Number = Finite(text: NumberText) | MinusZero | Infinite(negative: bool)

  /** A member's value is None when the program holds `undefined` there. */
  datatype Member = Member(key: Text, value: Option<Value>)

  datatype Value =
    | Null
    | Bool(b: bool)
    | Num(n: Number)
    | Str(s: Text)
    | Arr(items: seq<Value>)
    | Obj(members: seq<Member>)

  /** What a value means as JSON: objects are unordered, `undefined` members are
      absent, and a number the syntax cannot write is what the printer writes. */
  datatype Meaning =
    | MNull
    | MBool(b: bool)
    | MNum(text: Text)
    | MStr(s: Text)
    | MArr(items: seq<Meaning>)
    | MObj(members: map<Text, Meaning>)

  /** Keys of one object are distinct, at every depth. */
  ghost predicate Wf(v: Value) {
    match v
    case Arr(items) => forall x :: x in items ==> Wf(x)
    case Obj(members) =>
      && DistinctKeys(members)
      && forall m :: m in members && m.value.Some? ==> Wf(m.value.value)
    case _ => true
  }

  ghost predicate DistinctKeys(ms: seq<Member>) {
    forall i, j :: 0 <= i < j < |ms| ==> ms[i].key != ms[j].key
  }

  ghost function PresentKeys(ms: seq<Member>): set<Text> {
    set m | m in ms && m.value.Some? :: m.key
  }

  ghost function Find(ms: seq<Member>, k: Text): (m: Member)
    requires k in PresentKeys(ms)
    ensures m in ms && m.value.Some? && m.key == k
  {
    var m :| m in ms && m.value.Some? && m.key == k;
    m
  }

  ghost function MeaningOf(v: Value): Meaning
    requires Wf(v)
    decreases v
  {
    match v
    case Null => MNull
    case Bool(b) => MBool(b)
    case Num(Finite(t)) => MNum(t)
    case Num(MinusZero) => MNum([DIGIT_ZERO])
    case Num(Infinite(_)) => MNull
    case Str(s) => MStr(s)
    case Arr(items) => MArr(seq(|items|, i requires 0 <= i < |items| => MeaningOf(items[i])))
    case Obj(members) =>
      MObj(map k | k in PresentKeys(members) :: MeaningOf(Find(members, k).value.value))
  }

  // ---------------------------------------------------------------- key order

  /** The comparison of the sort: lexicographic by code unit. */
  predicate Less(a: Text, b: Text) {
    if b == [] then false
    else if a == [] then true
    else a[0] < b[0] || (a[0] == b[0] && Less(a[1..], b[1..]))
  }

  lemma {:induction false} LessTotal(a: Text, b: Text)
    ensures !(Less(a, b) && Less(b, a))
    ensures a == b ==> !Less(a, b)
    ensures a != b ==> Less(a, b) || Less(b, a)
  {
    if a != [] && b != [] {
      LessTotal(a[1..], b[1..]);
      assert a == [a[0]] + a[1..] && b == [b[0]] + b[1..];
    }
  }

  lemma {:induction false} LessTransitive(a: Text, b: Text, c: Text)
    requires Less(a, b) && Less(b, c)
    ensures Less(a, c)
  {
    if a != [] && a[0] == b[0] == c[0] {
      LessTransitive(a[1..], b[1..], c[1..]);
    }
  }

  /** Each key below every later one. */
  ghost predicate StrictlySorted(ms: seq<Member>) {
    forall i, j :: 0 <= i < j < |ms| ==> Less(ms[i].key, ms[j].key)
  }

  function Present(ms: seq<Member>): (r: seq<Member>)
    ensures forall m :: m in r <==> m in ms && m.value.Some?
  {
    if ms == [] then []
    else if ms[0].value.Some? then [ms[0]] + Present(ms[1..])
    else Present(ms[1..])
  }

  function Insert(m: Member, sorted: seq<Member>): (r: seq<Member>)
    ensures forall x :: x in r <==> x == m || x in sorted
  {
    if sorted == [] || !Less(sorted[0].key, m.key) then [m] + sorted
    else [sorted[0]] + Insert(m, sorted[1..])
  }

  function SortByKey(ms: seq<Member>): (r: seq<Member>)
    ensures forall x :: x in r <==> x in ms
  {
    if ms == [] then [] else Insert(ms[0], SortByKey(ms[1..]))
  }

  lemma {:induction false} PresentDistinct(ms: seq<Member>)
    requires DistinctKeys(ms)
    ensures DistinctKeys(Present(ms))
  {
    if ms != [] {
      PresentDistinct(ms[1..]);
      var r := Present(ms[1..]);
      forall j | 0 <= j < |r| ensures r[j].key != ms[0].key {
        assert r[j] in ms[1..];
      }
    }
  }

  lemma {:induction false} InsertSorted(m: Member, sorted: seq<Member>)
    requires StrictlySorted(sorted)
    requires forall x :: x in sorted ==> x.key != m.key
    ensures StrictlySorted(Insert(m, sorted))
  {
    if sorted == [] {
    } else if !Less(sorted[0].key, m.key) {
      LessTotal(sorted[0].key, m.key);
      forall j | 0 <= j < |sorted| ensures Less(m.key, sorted[j].key) {
        if j > 0 { LessTransitive(m.key, sorted[0].key, sorted[j].key); }
      }
    } else {
      InsertSorted(m, sorted[1..]);
      var r := Insert(m, sorted[1..]);
      forall j | 0 <= j < |r| ensures Less(sorted[0].key, r[j].key) {
        assert r[j] in r;
        if r[j] != m {
          var k :| 0 <= k < |sorted[1..]| && sorted[1..][k] == r[j];
          assert sorted[k + 1] == r[j];
        }
      }
    }
  }

  lemma {:induction false} SortSorts(ms: seq<Member>)
    requires DistinctKeys(ms)
    ensures StrictlySorted(SortByKey(ms))
  {
    if ms != [] {
      SortSorts(ms[1..]);
      forall x | x in SortByKey(ms[1..]) ensures x.key != ms[0].key {
        assert x in ms[1..];
      }
      InsertSorted(ms[0], SortByKey(ms[1..]));
    }
  }

  lemma SortedDistinct(ms: seq<Member>)
    requires StrictlySorted(ms)
    ensures DistinctKeys(ms)
  {
    forall i, j | 0 <= i < j < |ms| ensures ms[i].key != ms[j].key {
      LessTotal(ms[i].key, ms[j].key);
    }
  }

  // ---------------------------------------------------------------- the printer

  const NULL_WORD: Text := [110, 117, 108, 108]      // null
  const TRUE_WORD: Text := [116, 114, 117, 101]      // true
  const FALSE_WORD: Text := [102, 97, 108, 115, 101] // false

  function HexDigit(d: nat): CodeUnit
    requires d < 16
  {
    if d < 10 then DIGIT_ZERO + d else 97 + d - 10
  }

  function Hex4(u: CodeUnit): Text {
    [HexDigit(u / 16 / 16 / 16), HexDigit(u / 16 / 16 % 16), HexDigit(u / 16 % 16), HexDigit(u % 16)]
  }

  /** Section 7 of RFC 8259, with the short escapes, and lone surrogates escaped. */
  function EscapeUnit(u: CodeUnit): Text {
    if u == BACKSPACE then [BACKSLASH, 98]
    else if u == TAB then [BACKSLASH, 116]
    else if u == LF then [BACKSLASH, 110]
    else if u == FORM_FEED then [BACKSLASH, 102]
    else if u == CR then [BACKSLASH, 114]
    else if u == QUOTE || u == BACKSLASH then [BACKSLASH, u]
    else if u < 32 || IsHighSurrogate(u) || IsLowSurrogate(u) then [BACKSLASH, LETTER_U] + Hex4(u)
    else [u]
  }

  /** A surrogate pair is printed as it is; every other code unit by itself. */
  function Escape(s: Text): Text {
    if s == [] then []
    else if |s| > 1 && IsHighSurrogate(s[0]) && IsLowSurrogate(s[1]) then [s[0], s[1]] + Escape(s[2..])
    else EscapeUnit(s[0]) + Escape(s[1..])
  }

  function Quoted(s: Text): Text {
    [QUOTE] + Escape(s) + [QUOTE]
  }

  /** The two printers differ only in the order of an object's members. */
  datatype Order = ByKey | AsInserted

  function Arrange(order: Order, ms: seq<Member>): (r: seq<Member>)
    ensures forall m :: m in r <==> m in ms && m.value.Some?
  {
    if order == ByKey then SortByKey(Present(ms)) else Present(ms)
  }

  /** The cache key's printer. */
  function Canonical(v: Value): Text {
    Print(ByKey, v)
  }

  /** The runtime's own printer. */
  function Stringify(v: Value): Text {
    Print(AsInserted, v)
  }

  function Print(order: Order, v: Value): Text
    decreases v, 1, 0
  {
    match v
    case Null => NULL_WORD
    case Bool(b) => if b then TRUE_WORD else FALSE_WORD
    case Num(Finite(t)) => t
    case Num(MinusZero) => [DIGIT_ZERO]
    case Num(Infinite(_)) => NULL_WORD
    case Str(s) => Quoted(s)
    case Arr(items) => [LEFT_BRACKET] + PrintItems(order, v, items) + [RIGHT_BRACKET]
    case Obj(members) => [LEFT_BRACE] + PrintMembers(order, v, Arrange(order, members)) + [RIGHT_BRACE]
  }

  /** Comma-separated items of `parent`. */
  function PrintItems(order: Order, parent: Value, items: seq<Value>): Text
    requires forall i :: 0 <= i < |items| ==> items[i] < parent
    decreases parent, 0, |items|
  {
    if items == [] then []
    else if |items| == 1 then Print(order, items[0])
    else Print(order, items[0]) + [COMMA] + PrintItems(order, parent, items[1..])
  }

  /** Comma-separated members of `parent`. */
  function PrintMembers(order: Order, parent: Value, ms: seq<Member>): Text
    requires forall m :: m in ms ==> m.value.Some? && m.value.value < parent
    decreases parent, 0, |ms|
  {
    if ms == [] then []
    else
      var first := Quoted(ms[0].key) + [COLON] + Print(order, ms[0].value.value);
      if |ms| == 1 then first else first + [COMMA] + PrintMembers(order, parent, ms[1..])
  }
}

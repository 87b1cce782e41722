/** What the printers write, said without the functions that write it: the order
    of keys, what is escaped and how, and the words. */
module JsonText {
  import opened CodeUnits
  import opened Options
  import opened Json
  import opened CacheKey

  // ---------------------------------------------------------------- the order of keys

  /** Two keys agree below a position, and there the first one ends and the second
      does not, or the first one has the smaller code unit. */
  ghost predicate Parts(a: Text, b: Text, p: nat) {
    && p <= |a| && p < |b|
    && (forall i :: 0 <= i < p ==> a[i] == b[i])
    && (p == |a| || a[p] < b[p])
  }

  ghost predicate Precedes(a: Text, b: Text) {
    exists p :: Parts(a, b, p)
  }

  lemma PartsShift(a: Text, b: Text, p: nat)
    requires a != [] && b != [] && a[0] == b[0]
    ensures Parts(a, b, p + 1) <==> Parts(a[1..], b[1..], p)
  {
    if Parts(a[1..], b[1..], p) {
      forall i | 0 <= i < p + 1 ensures a[i] == b[i] {
        if i > 0 { assert a[1..][i - 1] == b[1..][i - 1]; }
      }
    }
  }

  lemma {:induction false} LessIs(a: Text, b: Text)
    ensures Less(a, b) <==> Precedes(a, b)
    decreases |a|
  {
    if b == [] || a == [] || a[0] != b[0] {
      if b != [] && (a == [] || a[0] < b[0]) { assert Parts(a, b, 0); }
    } else {
      LessIs(a[1..], b[1..]);
      if Precedes(a[1..], b[1..]) {
        var p: nat :| Parts(a[1..], b[1..], p);
        PartsShift(a, b, p);
      }
      if Precedes(a, b) {
        var p: nat :| Parts(a, b, p);
        assert p > 0;
        PartsShift(a, b, p - 1);
      }
    }
  }

  /** The keys of one object are sorted: each precedes every later one. */
  lemma {:induction false} KeysInOrder(ms: seq<Member>, i: nat, j: nat)
    requires DistinctKeys(ms) && i < j < |SortByKey(ms)|
    ensures Precedes(SortByKey(ms)[i].key, SortByKey(ms)[j].key)
  {
    SortSorts(ms);
    LessIs(SortByKey(ms)[i].key, SortByKey(ms)[j].key);
    hide SortByKey, Less, Precedes;
  }

  lemma {:induction false} InsertLength(m: Member, sorted: seq<Member>)
    ensures |Insert(m, sorted)| == |sorted| + 1
  {
    if sorted != [] && Less(sorted[0].key, m.key) {
      InsertLength(m, sorted[1..]);
    }
  }

  lemma {:induction false} SortKeepsLength(ms: seq<Member>)
    ensures |SortByKey(ms)| == |ms|
  {
    if ms != [] {
      SortKeepsLength(ms[1..]);
      InsertLength(ms[0], SortByKey(ms[1..]));
    }
  }

  /** A list picks members at rising positions, and misses no defined one from a
      given position on. */
  ghost predicate Picks(ms: seq<Member>, r: seq<Member>, at: seq<nat>, from: nat) {
    PickedAt(ms, r, at, from) && Rising(at) && MissesNone(ms, at, from)
  }

  ghost predicate PickedAt(ms: seq<Member>, r: seq<Member>, at: seq<nat>, from: nat) {
    |at| == |r| && forall k :: 0 <= k < |at| ==> from <= at[k] < |ms| && r[k] == ms[at[k]]
  }

  ghost predicate Rising(at: seq<nat>) {
    forall j, k :: 0 <= j < k < |at| ==> at[j] < at[k]
  }

  ghost predicate MissesNone(ms: seq<Member>, at: seq<nat>, from: nat) {
    forall i :: from <= i < |ms| && ms[i].value.Some? ==> i in at
  }

  function Shifted(at: seq<nat>): (r: seq<nat>)
    ensures |r| == |at| && forall k :: 0 <= k < |r| ==> r[k] == at[k] + 1
  {
    if at == [] then [] else [at[0] + 1] + Shifted(at[1..])
  }

  lemma ShiftMissesNone(ms: seq<Member>, at: seq<nat>)
    requires ms != [] && MissesNone(ms[1..], at, 0)
    ensures MissesNone(ms, Shifted(at), 1)
  {
    var shifted := Shifted(at);
    forall i | 1 <= i < |ms| && ms[i].value.Some? ensures i in shifted {
      assert ms[1..][i - 1] == ms[i];
      var k :| 0 <= k < |at| && at[k] == i - 1;
      assert shifted[k] == i;
    }
  }

  lemma ShiftPicks(ms: seq<Member>, r: seq<Member>, at: seq<nat>)
    requires ms != [] && PickedAt(ms[1..], r, at, 0)
    ensures PickedAt(ms, r, Shifted(at), 1)
  {
    forall k | 0 <= k < |at| ensures 1 <= Shifted(at)[k] < |ms| && r[k] == ms[Shifted(at)[k]] {
      assert ms[1..][at[k]] == ms[at[k] + 1];
    }
    hide Shifted;
  }

  lemma ShiftRises(at: seq<nat>)
    requires Rising(at)
    ensures Rising(Shifted(at))
  {
    hide Shifted;
  }

  lemma PicksShift(ms: seq<Member>, r: seq<Member>, at: seq<nat>)
    requires ms != [] && Picks(ms[1..], r, at, 0)
    ensures Picks(ms, r, Shifted(at), 1)
  {
    ShiftMissesNone(ms, at);
    ShiftPicks(ms, r, at);
    ShiftRises(at);
    hide MissesNone, PickedAt, Rising, Shifted;
  }

  lemma FirstMissesNone(ms: seq<Member>, at: seq<nat>)
    requires ms != [] && MissesNone(ms, at, 1)
    ensures ms[0].value.None? ==> MissesNone(ms, at, 0)
    ensures MissesNone(ms, [0] + at, 0)
  {
    forall i | 0 <= i < |ms| && ms[i].value.Some? ensures i in [0] + at {
      if i > 0 { assert i in at; }
    }
  }

  lemma PicksFirst(ms: seq<Member>, r: seq<Member>, at: seq<nat>)
    requires ms != [] && Picks(ms, r, at, 1)
    ensures ms[0].value.None? ==> Picks(ms, r, at, 0)
    ensures Picks(ms, [ms[0]] + r, [0] + at, 0)
  {
    FirstMissesNone(ms, at);
    hide MissesNone;
  }

  /** Members in the order of the program's own object: the printer picks them at
      rising positions, and only `undefined` ones are missing. */
  lemma {:induction false} PresentInOrder(ms: seq<Member>) returns (at: seq<nat>)
    ensures Picks(ms, Present(ms), at, 0)
  {
    at := [];
    if ms != [] {
      var rest := PresentInOrder(ms[1..]);
      PicksShift(ms, Present(ms[1..]), rest);
      PicksFirst(ms, Present(ms[1..]), Shifted(rest));
      at := if ms[0].value.Some? then [0] + Shifted(rest) else Shifted(rest);
      hide Picks;
    }
  }

  // ---------------------------------------------------------------- what is escaped

  /** A surrogate at a position has no partner. */
  predicate LoneAt(s: Text, i: nat) {
    i < |s|
    && ((IsHighSurrogate(s[i]) && (i + 1 == |s| || !IsLowSurrogate(s[i + 1])))
        || (IsLowSurrogate(s[i]) && (i == 0 || !IsHighSurrogate(s[i - 1]))))
  }

  /** A code unit that a string cannot hold as it is. */
  predicate MustEscape(s: Text, i: nat) {
    i < |s| && (s[i] < SPACE || s[i] == QUOTE || s[i] == BACKSLASH || LoneAt(s, i))
  }

  ghost predicate Clean(s: Text) {
    forall i :: 0 <= i < |s| ==> !MustEscape(s, i)
  }

  lemma CleanTail(s: Text)
    requires s != [] && !IsHighSurrogate(s[0]) && !MustEscape(s, 0)
    ensures Clean(s) <==> Clean(s[1..])
  {
    if Clean(s) {
      forall i | 0 <= i < |s| - 1 ensures !MustEscape(s[1..], i) { assert !MustEscape(s, i + 1); }
    }
    if Clean(s[1..]) {
      forall i | 0 <= i < |s| ensures !MustEscape(s, i) {
        if i > 0 { assert !MustEscape(s[1..], i - 1); }
      }
    }
  }

  lemma CleanAfterPair(s: Text)
    requires |s| > 1 && IsHighSurrogate(s[0]) && IsLowSurrogate(s[1])
    ensures Clean(s) <==> Clean(s[2..])
  {
    if Clean(s) {
      forall i | 0 <= i < |s| - 2 ensures !MustEscape(s[2..], i) { assert !MustEscape(s, i + 2); }
    }
    if Clean(s[2..]) {
      forall i | 0 <= i < |s| ensures !MustEscape(s, i) {
        if i > 1 { assert !MustEscape(s[2..], i - 2); }
      }
    }
  }

  lemma {:induction false} EscapeGrows(s: Text)
    ensures |Escape(s)| >= |s|
    decreases |s|
  {
    if s == [] {
    } else if |s| > 1 && IsHighSurrogate(s[0]) && IsLowSurrogate(s[1]) {
      EscapeGrows(s[2..]);
    } else {
      EscapeGrows(s[1..]);
      UnitForms(s[0]);
      hide EscapeUnit;
    }
  }

  /** Seven code units have a short escape, other control characters and
      surrogates a long one, and the rest stand for themselves. */
  lemma UnitForms(u: CodeUnit)
    ensures |EscapeUnit(u)| == 2 <==> u in {BACKSPACE, TAB, LF, FORM_FEED, CR, QUOTE, BACKSLASH}
    ensures |EscapeUnit(u)| == 1 <==> u >= SPACE && u != QUOTE && u != BACKSLASH
                                      && !IsHighSurrogate(u) && !IsLowSurrogate(u)
    ensures |EscapeUnit(u)| == 1 ==> EscapeUnit(u) == [u]
    ensures |EscapeUnit(u)| in {1, 2, 6} && (|EscapeUnit(u)| > 1 ==> EscapeUnit(u)[0] == BACKSLASH)
  {
    hide HexDigit;
  }

  lemma HeadKept(s: Text)
    requires s != [] && !(|s| > 1 && IsHighSurrogate(s[0]) && IsLowSurrogate(s[1]))
    ensures MustEscape(s, 0) <==> |EscapeUnit(s[0])| > 1
  {
    UnitForms(s[0]);
    hide EscapeUnit;
  }

  /** A text is printed as it is if and only if it has nothing that must be
      escaped: no control character, quote or backslash, and no surrogate
      without its partner. In particular pairs are printed as they are. */
  lemma {:induction false} PrintedAsIsExactly(s: Text)
    ensures Escape(s) == s <==> Clean(s)
    decreases |s|
  {
    if s == [] {
    } else if |s| > 1 && IsHighSurrogate(s[0]) && IsLowSurrogate(s[1]) {
      PrintedAsIsExactly(s[2..]);
      CleanAfterPair(s);
      PairKept(s);
      hide Clean, Escape;
    } else {
      HeadKept(s);
      UnitForms(s[0]);
      if |EscapeUnit(s[0])| == 1 {
        PrintedAsIsExactly(s[1..]);
        CleanTail(s);
        UnitKept(s);
        hide Clean, Escape, EscapeUnit;
      } else {
        EscapeGrows(s[1..]);
        assert |Escape(s)| > |s| by { hide EscapeUnit; }
        assert !Clean(s);
      }
    }
  }

  lemma PairKept(s: Text)
    requires |s| > 1 && IsHighSurrogate(s[0]) && IsLowSurrogate(s[1])
    ensures Escape(s) == s <==> Escape(s[2..]) == s[2..]
  {
    assert s == [s[0], s[1]] + s[2..];
    assert Escape(s)[2..] == Escape(s[2..]);
    hide EscapeUnit;
  }

  lemma UnitKept(s: Text)
    requires s != [] && !(|s| > 1 && IsHighSurrogate(s[0]) && IsLowSurrogate(s[1]))
    requires EscapeUnit(s[0]) == [s[0]]
    ensures Escape(s) == s <==> Escape(s[1..]) == s[1..]
  {
    assert s == [s[0]] + s[1..];
    assert Escape(s)[1..] == Escape(s[1..]);
    hide EscapeUnit;
  }

  // ---------------------------------------------------------------- words, and one whole text

  /** A text is the code units of plain characters. */
  ghost predicate Spells(t: Text, s: string) {
    |t| == |s| && forall i :: 0 <= i < |s| ==> t[i] == s[i] as int
  }

  /** The short escapes, written out. */
  lemma ShortEscapesSpelled()
    ensures Spells(EscapeUnit(8), "\\b") && Spells(EscapeUnit(9), "\\t") && Spells(EscapeUnit(10), "\\n")
    ensures Spells(EscapeUnit(12), "\\f") && Spells(EscapeUnit(13), "\\r")
    ensures Spells(EscapeUnit('"' as int), "\\\"") && Spells(EscapeUnit('\\' as int), "\\\\")
  {
    hide Hex4;
  }

  lemma DigitWorth(d: nat)
    requires d < 16
    ensures IsLowerHex(HexDigit(d)) && HexWorth(HexDigit(d)) == d
  {
  }

  /** A long escape has four lower-case digits that are worth the unit. */
  lemma LongEscapesSpelled(u: CodeUnit)
    requires |EscapeUnit(u)| == 6
    ensures var e := EscapeUnit(u);
            && Spells(e[..2], "\\u") && (forall i :: 2 <= i < 6 ==> IsLowerHex(e[i]))
            && HexWorth(e[2]) * 4096 + HexWorth(e[3]) * 256 + HexWorth(e[4]) * 16 + HexWorth(e[5]) == u
  {
    DigitWorth(u / 16 / 16 / 16);
    DigitWorth(u / 16 / 16 % 16);
    DigitWorth(u / 16 % 16);
    DigitWorth(u % 16);
    assert EscapeUnit(u)[2..] == Hex4(u) && EscapeUnit(u)[0] == BACKSLASH && EscapeUnit(u)[1] == LETTER_U;
    forall i | 2 <= i < 6 ensures EscapeUnit(u)[i] == Hex4(u)[i - 2] {
      assert EscapeUnit(u)[2..][i - 2] == EscapeUnit(u)[i];
    }
    hide EscapeUnit, HexDigit, HexWorth, IsLowerHex;
  }

  predicate IsLowerHex(d: CodeUnit) {
    '0' as int <= d <= '9' as int || 'a' as int <= d <= 'f' as int
  }

  function HexWorth(d: CodeUnit): int {
    if d <= '9' as int then d - '0' as int else d - 'a' as int + 10
  }

  lemma WordsSpelled()
    ensures Spells(NULL_WORD, "null") && Spells(TRUE_WORD, "true") && Spells(FALSE_WORD, "false")
    ensures Spells(ORIGIN_URL_KEY, "originUrl") && Spells(TOOL_KEY, "tool") && Spells(ARGUMENTS_KEY, "arguments")
  {
  }

  const A: Text := [97]
  const B: Text := [98]
  const ONE: NumberText := [49]
  const TWO: NumberText := [50]
  const FIRST := Member(A, Some(Num(Finite(ONE))))
  const SECOND := Member(B, Some(Num(Finite(TWO))))
  const SWAPPED: Value := Obj([SECOND, FIRST])

  lemma QuotedUnit(u: CodeUnit)
    requires EscapeUnit(u) == [u] && !IsHighSurrogate(u)
    ensures Quoted([u]) == [QUOTE, u, QUOTE]
  {
    assert Escape([u]) == [u] + Escape([]);
  }

  lemma SwappedArranged()
    ensures Arrange(ByKey, [SECOND, FIRST]) == [FIRST, SECOND]
    ensures Arrange(AsInserted, [SECOND, FIRST]) == [SECOND, FIRST]
  {
    assert [SECOND, FIRST][1..] == [FIRST] && [FIRST][1..] == [];
    assert Present([FIRST]) == [FIRST];
    assert Present([SECOND, FIRST]) == [SECOND, FIRST];
    assert SortByKey([FIRST]) == [FIRST] by { assert SortByKey([]) == []; }
    assert Less(FIRST.key, SECOND.key);
    assert Insert(SECOND, [FIRST]) == [FIRST, SECOND] by { assert Insert(SECOND, []) == [SECOND]; }
  }

  /** Two members, printed. */
  lemma TwoPrinted(order: Order, parent: Value, a: Member, b: Member)
    requires a.value.Some? && b.value.Some? && a.value.value < parent && b.value.value < parent
    ensures PrintMembers(order, parent, [a, b])
            == Quoted(a.key) + [COLON] + Print(order, a.value.value)
               + [COMMA] + (Quoted(b.key) + [COLON] + Print(order, b.value.value))
  {
    assert [a, b][1..] == [b];
    hide Quoted, Print;
  }

  lemma NumberPrinted(order: Order, t: NumberText)
    ensures Print(order, Num(Finite(t))) == t
  {
  }

  lemma BracesPrinted(order: Order, ms: seq<Member>)
    ensures Print(order, Obj(ms)) == [LEFT_BRACE] + PrintMembers(order, Obj(ms), Arrange(order, ms)) + [RIGHT_BRACE]
  {
    hide PrintMembers, Arrange;
  }

  /** One object, whole: {"b":2,"a":1} is {"a":1,"b":2} in the key. */
  lemma SwappedInKey()
    ensures Spells(Canonical(SWAPPED), "{\"a\":1,\"b\":2}")
  {
    SwappedArranged();
    TwoPrinted(ByKey, SWAPPED, FIRST, SECOND);
    QuotedUnit(97);
    QuotedUnit(98);
    NumberPrinted(ByKey, ONE);
    NumberPrinted(ByKey, TWO);
    BracesPrinted(ByKey, [SECOND, FIRST]);
    hide Quoted, PrintMembers, Arrange, Print;
    assert Canonical(SWAPPED) == [123, 34, 97, 34, 58, 49, 44, 34, 98, 34, 58, 50, 125];
  }

  lemma ItemsPrinted(order: Order, a: Value, b: Value)
    ensures Print(order, Arr([a, b]))
            == [LEFT_BRACKET] + (Print(order, a) + [COMMA] + Print(order, b)) + [RIGHT_BRACKET]
  {
    var v := Arr([a, b]);
    assert [a, b][1..] == [b];
    assert PrintItems(order, v, [a, b][1..]) == Print(order, b);
    assert PrintItems(order, v, [a, b]) == Print(order, a) + [COMMA] + Print(order, b);
  }

  /** Items keep their order. */
  lemma ItemsInOrder(order: Order)
    ensures Spells(Print(order, Arr([Num(Finite(TWO)), Num(Finite(ONE))])), "[2,1]")
  {
    ItemsPrinted(order, Num(Finite(TWO)), Num(Finite(ONE)));
    NumberPrinted(order, ONE);
    NumberPrinted(order, TWO);
    hide Print;
    assert Print(order, Arr([Num(Finite(TWO)), Num(Finite(ONE))])) == [91, 50, 44, 49, 93];
  }

  /** Elsewhere it stays as it is. */
  lemma SwappedElsewhere()
    ensures Spells(Stringify(SWAPPED), "{\"b\":2,\"a\":1}")
  {
    SwappedArranged();
    TwoPrinted(AsInserted, SWAPPED, SECOND, FIRST);
    QuotedUnit(97);
    QuotedUnit(98);
    NumberPrinted(AsInserted, ONE);
    NumberPrinted(AsInserted, TWO);
    BracesPrinted(AsInserted, [SECOND, FIRST]);
    hide Quoted, PrintMembers, Arrange, Print;
    assert Stringify(SWAPPED) == [123, 34, 98, 34, 58, 50, 44, 34, 97, 34, 58, 49, 125];
  }
}

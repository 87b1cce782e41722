/** A parser that inverts the canonical printer, and with it the exact
    statement of which values share a canonical text. */
module JsonParser {
  import opened CodeUnits
  import opened Options
  import opened Json

  datatype Chars = Chars(text: Text, rest: Text)
  datatype Item = Item(meaning: Meaning, rest: Text)
  datatype Items = Items(meanings: seq<Meaning>, rest: Text)
  datatype Members = Members(meanings: map<Text, Meaning>, rest: Text)

  // ---------------------------------------------------------------- strings

  function HexValue(u: CodeUnit): Option<nat> {
    if IsDigit(u) then Some(u - DIGIT_ZERO)
    else if 97 <= u < 103 then Some(u - 97 + 10)
    else None
  }

  function ParseHex4(t: Text): Option<CodeUnit>
    requires |t| == 4
  {
    match (HexValue(t[0]), HexValue(t[1]), HexValue(t[2]), HexValue(t[3]))
    case (Some(a), Some(b), Some(c), Some(d)) =>
      var n := ((a * 16 + b) * 16 + c) * 16 + d;
      if n < 0x10000 then Some(n) else None
    case _ => None
  }

  /** What follows a backslash. */
  function ParseEscape(t: Text): (r: Option<(CodeUnit, Text)>)
    ensures r.Some? ==> |r.value.1| < |t|
  {
    if t == [] then None
    else if t[0] == LETTER_U then
      if |t| < 5 then None
      else
        match ParseHex4(t[1..5])
        case None => None
        case Some(u) => Some((u, t[5..]))
    else if t[0] == 98 then Some((BACKSPACE, t[1..]))
    else if t[0] == 116 then Some((TAB, t[1..]))
    else if t[0] == 110 then Some((LF, t[1..]))
    else if t[0] == 102 then Some((FORM_FEED, t[1..]))
    else if t[0] == 114 then Some((CR, t[1..]))
    else if t[0] == QUOTE || t[0] == BACKSLASH then Some((t[0], t[1..]))
    else None
  }

  /** The characters of a string literal up to its closing quote. */
  function ParseChars(t: Text): (r: Option<Chars>)
    ensures r.Some? ==> |r.value.rest| < |t|
    decreases |t|
  {
    if t == [] then None
    else if t[0] == QUOTE then Some(Chars([], t[1..]))
    else if t[0] == BACKSLASH then
      match ParseEscape(t[1..])
      case None => None
      case Some((u, rest)) => Prepend(u, ParseChars(rest))
    else Prepend(t[0], ParseChars(t[1..]))
  }

  function Prepend(u: CodeUnit, r: Option<Chars>): Option<Chars> {
    match r
    case None => None
    case Some(Chars(s, rest)) => Some(Chars([u] + s, rest))
  }

  lemma HexDigitParses(d: nat)
    requires d < 16
    ensures HexValue(HexDigit(d)) == Some(d)
  {
  }

  lemma Hex4Parses(u: CodeUnit)
    ensures ParseHex4(Hex4(u)) == Some(u)
  {
    var q1 := u / 16;
    var q2 := q1 / 16;
    var q3 := q2 / 16;
    HexDigitParses(q3);
    HexDigitParses(q2 % 16);
    HexDigitParses(q1 % 16);
    HexDigitParses(u % 16);
  }

  lemma UnicodeEscapeParses(u: CodeUnit, rest: Text)
    ensures ParseEscape([LETTER_U] + Hex4(u) + rest) == Some((u, rest))
  {
    var t := [LETTER_U] + Hex4(u) + rest;
    assert t[1..5] == Hex4(u) && t[5..] == rest;
    assert |t| >= 5 && t[0] == LETTER_U;
    Hex4Parses(u);
    hide Hex4, ParseHex4;
  }

  lemma ShortEscapeParses(u: CodeUnit, rest: Text)
    requires |EscapeUnit(u)| == 2
    ensures EscapeUnit(u)[0] == BACKSLASH && ParseEscape([EscapeUnit(u)[1]] + rest) == Some((u, rest))
  {
    assert |Hex4(u)| == 4;
    hide Hex4;
    assert ([EscapeUnit(u)[1]] + rest)[1..] == rest;
  }

  lemma BackslashParses(escape: Text, u: CodeUnit, rest: Text)
    requires ParseEscape(escape) == Some((u, rest))
    ensures ParseChars([BACKSLASH] + escape) == Prepend(u, ParseChars(rest))
  {
    hide ParseEscape;
    assert ([BACKSLASH] + escape)[1..] == escape;
  }

  lemma EscapeUnitForms(u: CodeUnit)
    ensures |EscapeUnit(u)| == 1 ==> u != QUOTE && u != BACKSLASH && EscapeUnit(u) == [u]
    ensures |EscapeUnit(u)| > 2 ==> EscapeUnit(u) == [BACKSLASH, LETTER_U] + Hex4(u)
  {
  }

  lemma EscapeUnitParses(u: CodeUnit, rest: Text)
    ensures ParseChars(EscapeUnit(u) + rest) == Prepend(u, ParseChars(rest))
  {
    EscapeUnitForms(u);
    var e := EscapeUnit(u);
    if |e| == 1 {
      RawUnitParses(u, rest);
    } else if |e| == 2 {
      ShortEscapeParses(u, rest);
      assert e + rest == [BACKSLASH] + ([e[1]] + rest);
      hide EscapeUnit, ParseEscape;
      BackslashParses([e[1]] + rest, u, rest);
    } else {
      assert e + rest == [BACKSLASH] + ([LETTER_U] + Hex4(u) + rest);
      hide EscapeUnit, ParseEscape, Hex4;
      UnicodeEscapeParses(u, rest);
      BackslashParses([LETTER_U] + Hex4(u) + rest, u, rest);
    }
  }

  lemma RawUnitParses(u: CodeUnit, rest: Text)
    requires u != QUOTE && u != BACKSLASH
    ensures ParseChars([u] + rest) == Prepend(u, ParseChars(rest))
  {
    assert ([u] + rest)[1..] == rest;
  }

  lemma EscapedUnit(s: Text, after: Text)
    requires s != [] && !(|s| > 1 && IsHighSurrogate(s[0]) && IsLowSurrogate(s[1]))
    ensures Escape(s) + after == EscapeUnit(s[0]) + (Escape(s[1..]) + after)
  {
    hide EscapeUnit;
  }

  lemma EscapeOfPair(s: Text)
    requires |s| > 1 && IsHighSurrogate(s[0]) && IsLowSurrogate(s[1])
    ensures Escape(s) == [s[0], s[1]] + Escape(s[2..])
  {
    hide EscapeUnit;
  }

  lemma PairInFront(u: CodeUnit, v: CodeUnit, t: Text, after: Text)
    ensures [u, v] + t + after == [u] + ([v] + (t + after))
  {
  }

  lemma EscapedPair(s: Text, after: Text)
    requires |s| > 1 && IsHighSurrogate(s[0]) && IsLowSurrogate(s[1])
    ensures Escape(s) + after == [s[0]] + ([s[1]] + (Escape(s[2..]) + after))
  {
    hide *;
    EscapeOfPair(s);
    PairInFront(s[0], s[1], Escape(s[2..]), after);
  }

  lemma EscapedUnitParses(s: Text, after: Text, rest: Text)
    requires s != [] && !(|s| > 1 && IsHighSurrogate(s[0]) && IsLowSurrogate(s[1]))
    requires ParseChars(Escape(s[1..]) + after) == Some(Chars(s[1..], rest))
    ensures ParseChars(Escape(s) + after) == Some(Chars(s, rest))
  {
    EscapedUnit(s, after);
    EscapeUnitParses(s[0], Escape(s[1..]) + after);
    assert [s[0]] + s[1..] == s;
    hide ParseChars, Escape, EscapeUnit;
  }

  lemma PairParses(u: CodeUnit, v: CodeUnit, tail: Text)
    requires u != QUOTE && u != BACKSLASH && v != QUOTE && v != BACKSLASH
    ensures ParseChars([u] + ([v] + tail)) == Prepend(u, Prepend(v, ParseChars(tail)))
  {
    hide *;
    RawUnitParses(v, tail);
    RawUnitParses(u, [v] + tail);
  }

  lemma PrependPair(s: Text, rest: Text)
    requires |s| > 1
    ensures Prepend(s[0], Prepend(s[1], Some(Chars(s[2..], rest)))) == Some(Chars(s, rest))
  {
    assert [s[0]] + ([s[1]] + s[2..]) == s;
  }

  lemma SurrogatesAreRaw(u: CodeUnit)
    requires IsHighSurrogate(u) || IsLowSurrogate(u)
    ensures u != QUOTE && u != BACKSLASH
  {
  }

  lemma EscapedPairParses(s: Text, after: Text, rest: Text)
    requires |s| > 1 && IsHighSurrogate(s[0]) && IsLowSurrogate(s[1])
    requires ParseChars(Escape(s[2..]) + after) == Some(Chars(s[2..], rest))
    ensures ParseChars(Escape(s) + after) == Some(Chars(s, rest))
  {
    hide *;
    EscapedPair(s, after);
    SurrogatesAreRaw(s[0]);
    SurrogatesAreRaw(s[1]);
    PairParses(s[0], s[1], Escape(s[2..]) + after);
    PrependPair(s, rest);
  }

  lemma NothingEscapedParses(rest: Text)
    ensures ParseChars(Escape([]) + ([QUOTE] + rest)) == Some(Chars([], rest))
  {
    assert Escape([]) + ([QUOTE] + rest) == [QUOTE] + rest;
    assert ([QUOTE] + rest)[1..] == rest;
  }

  lemma {:induction false} EscapeParses(s: Text, rest: Text)
    ensures ParseChars(Escape(s) + ([QUOTE] + rest)) == Some(Chars(s, rest))
    decreases |s|
  {
    hide *;
    if s == [] {
      NothingEscapedParses(rest);
    } else if |s| > 1 && IsHighSurrogate(s[0]) && IsLowSurrogate(s[1]) {
      EscapeParses(s[2..], rest);
      EscapedPairParses(s, [QUOTE] + rest, rest);
    } else {
      EscapeParses(s[1..], rest);
      EscapedUnitParses(s, [QUOTE] + rest, rest);
    }
  }

  // ---------------------------------------------------------------- values

  function NumberEnd(t: Text): (k: nat)
    ensures k <= |t|
    ensures forall i :: 0 <= i < k ==> IsNumberUnit(t[i])
    ensures k < |t| ==> !IsNumberUnit(t[k])
  {
    if t == [] || !IsNumberUnit(t[0]) then 0 else 1 + NumberEnd(t[1..])
  }

  function ParseValue(t: Text): (r: Option<Item>)
    ensures r.Some? ==> |r.value.rest| < |t|
    decreases |t|, 0
  {
    if t == [] then None
    else if t[0] == QUOTE then
      match ParseChars(t[1..])
      case None => None
      case Some(Chars(s, rest)) => Some(Item(MStr(s), rest))
    else if t[0] == LEFT_BRACKET then
      if |t| > 1 && t[1] == RIGHT_BRACKET then Some(Item(MArr([]), t[2..]))
      else
        match ParseItems(t[1..])
        case None => None
        case Some(Items(ms, rest)) => Some(Item(MArr(ms), rest))
    else if t[0] == LEFT_BRACE then
      if |t| > 1 && t[1] == RIGHT_BRACE then Some(Item(MObj(map[]), t[2..]))
      else
        match ParseMembers(t[1..])
        case None => None
        case Some(Members(ms, rest)) => Some(Item(MObj(ms), rest))
    else if NULL_WORD <= t then Some(Item(MNull, t[4..]))
    else if TRUE_WORD <= t then Some(Item(MBool(true), t[4..]))
    else if FALSE_WORD <= t then Some(Item(MBool(false), t[5..]))
    else
      var k := NumberEnd(t);
      if k == 0 then None else Some(Item(MNum(t[..k]), t[k..]))
  }

  /** One item or more, and the closing bracket. */
  function ParseItems(t: Text): (r: Option<Items>)
    ensures r.Some? ==> |r.value.rest| < |t|
    decreases |t|, 1
  {
    match ParseValue(t)
    case None => None
    case Some(Item(m, rest)) =>
      if rest == [] then None
      else if rest[0] == RIGHT_BRACKET then Some(Items([m], rest[1..]))
      else if rest[0] != COMMA then None
      else
        match ParseItems(rest[1..])
        case None => None
        case Some(Items(ms, rest')) => Some(Items([m] + ms, rest'))
  }

  /** One member or more, and the closing brace. */
  function ParseMembers(t: Text): (r: Option<Members>)
    ensures r.Some? ==> |r.value.rest| < |t|
    decreases |t|, 1
  {
    match ParseMember(t)
    case None => None
    case Some((key, Item(m, rest))) =>
      if rest == [] then None
      else if rest[0] == RIGHT_BRACE then Some(Members(map[key := m], rest[1..]))
      else if rest[0] != COMMA then None
      else
        match ParseMembers(rest[1..])
        case None => None
        case Some(Members(ms, rest')) => Some(Members(map[key := m] + ms, rest'))
  }

  function ParseMember(t: Text): (r: Option<(Text, Item)>)
    ensures r.Some? ==> |r.value.1.rest| < |t|
    decreases |t|, 0
  {
    if t == [] || t[0] != QUOTE then None
    else
      match ParseChars(t[1..])
      case None => None
      case Some(Chars(key, rest)) =>
        if rest == [] || rest[0] != COLON then None
        else
          match ParseValue(rest[1..])
          case None => None
          case Some(item) => Some((key, item))
  }

  /** A text that can follow a printed value. */
  predicate Follows(rest: Text) {
    rest == [] || !IsNumberUnit(rest[0])
  }

  lemma {:induction false} NumberEndOf(t: Text, rest: Text)
    requires forall u :: u in t ==> IsNumberUnit(u)
    requires Follows(rest)
    ensures NumberEnd(t + rest) == |t|
  {
    assert forall i :: 0 <= i < |t| ==> (t + rest)[i] == t[i] && t[i] in t;
    assert rest != [] ==> (t + rest)[|t|] == rest[0];
  }

  lemma NumberParses(t: NumberText, rest: Text)
    requires Follows(rest)
    ensures ParseValue(t + rest) == Some(Item(MNum(t), rest))
  {
    NumberEndOf(t, rest);
    assert t[0] in t && (t + rest)[0] == t[0];
    assert (t + rest)[..|t|] == t && (t + rest)[|t|..] == rest;
  }

  lemma WordsParse(rest: Text)
    ensures ParseValue(NULL_WORD + rest) == Some(Item(MNull, rest))
    ensures ParseValue(TRUE_WORD + rest) == Some(Item(MBool(true), rest))
    ensures ParseValue(FALSE_WORD + rest) == Some(Item(MBool(false), rest))
  {
    assert (NULL_WORD + rest)[4..] == rest;
    assert (TRUE_WORD + rest)[4..] == rest;
    assert (FALSE_WORD + rest)[5..] == rest;
    assert (TRUE_WORD + rest)[0] != NULL_WORD[0];
    assert (FALSE_WORD + rest)[0] != NULL_WORD[0] && (FALSE_WORD + rest)[0] != TRUE_WORD[0];
  }

  lemma StringParses(s: Text, rest: Text)
    ensures ParseChars((Quoted(s) + rest)[1..]) == Some(Chars(s, rest))
    ensures ParseValue(Quoted(s) + rest) == Some(Item(MStr(s), rest))
  {
    EscapeParses(s, rest);
    hide Escape, ParseItems, ParseMembers;
    assert (Quoted(s) + rest)[1..] == Escape(s) + ([QUOTE] + rest);
  }

  lemma ParseMemberSteps(t: Text, key: Text, body: Text, item: Item)
    requires t != [] && t[0] == QUOTE && ParseChars(t[1..]) == Some(Chars(key, [COLON] + body))
    requires ParseValue(body) == Some(item)
    ensures ParseMember(t) == Some((key, item))
  {
    hide ParseChars, ParseValue;
    assert ([COLON] + body)[1..] == body;
  }

  lemma MemberParses(key: Text, printed: Text, m: Meaning, rest: Text)
    requires ParseValue(printed + rest) == Some(Item(m, rest))
    ensures ParseMember(Quoted(key) + [COLON] + printed + rest) == Some((key, Item(m, rest)))
  {
    var t := Quoted(key) + [COLON] + printed + rest;
    assert t != [] && t[0] == QUOTE;
    Regrouped(Quoted(key), [COLON], printed, rest);
    hide *;
    StringParses(key, [COLON] + (printed + rest));
    ParseMemberSteps(t, key, printed + rest, Item(m, rest));
  }

  lemma Regrouped(a: Text, b: Text, c: Text, d: Text)
    ensures a + b + c + d == a + (b + (c + d))
  {
  }

  ghost function MeaningsOf(items: seq<Value>): seq<Meaning>
    requires Wf(Arr(items))
  {
    MeaningOf(Arr(items)).items
  }

  ghost predicate PrintableItems(parent: Value, items: seq<Value>) {
    && Wf(Arr(items))
    && forall i :: 0 <= i < |items| ==> items[i] < parent
  }

  ghost predicate PrintableMembers(parent: Value, ms: seq<Member>) {
    && DistinctKeys(ms)
    && forall m :: m in ms ==> m.value.Some? && m.value.value < parent && Wf(m.value.value)
  }

  lemma LastItemParses(printed: Text, m: Meaning, rest: Text)
    requires ParseValue(printed + ([RIGHT_BRACKET] + rest)) == Some(Item(m, [RIGHT_BRACKET] + rest))
    ensures ParseItems(printed + ([RIGHT_BRACKET] + rest)) == Some(Items([m], rest))
  {
    assert ([RIGHT_BRACKET] + rest)[1..] == rest;
  }

  lemma NextItemParses(printed: Text, m: Meaning, others: Text, ms: seq<Meaning>, rest: Text)
    requires ParseValue(printed + ([COMMA] + others)) == Some(Item(m, [COMMA] + others))
    requires ParseItems(others) == Some(Items(ms, rest))
    ensures ParseItems(printed + ([COMMA] + others)) == Some(Items([m] + ms, rest))
  {
    assert ([COMMA] + others)[1..] == others;
  }

  lemma LastMemberParses(printed: Text, key: Text, m: Meaning, rest: Text)
    requires ParseMember(printed + ([RIGHT_BRACE] + rest)) == Some((key, Item(m, [RIGHT_BRACE] + rest)))
    ensures ParseMembers(printed + ([RIGHT_BRACE] + rest)) == Some(Members(map[key := m], rest))
  {
    assert ([RIGHT_BRACE] + rest)[1..] == rest;
  }

  lemma NextMemberParses(printed: Text, key: Text, m: Meaning, others: Text, ms: map<Text, Meaning>, rest: Text)
    requires ParseMember(printed + ([COMMA] + others)) == Some((key, Item(m, [COMMA] + others)))
    requires ParseMembers(others) == Some(Members(ms, rest))
    ensures ParseMembers(printed + ([COMMA] + others)) == Some(Members(map[key := m] + ms, rest))
  {
    assert ([COMMA] + others)[1..] == others;
  }

  lemma OpenedArrayParses(t: Text, ms: seq<Meaning>, rest: Text)
    requires |t| > 1 && t[0] == LEFT_BRACKET && t[1] != RIGHT_BRACKET
    requires ParseItems(t[1..]) == Some(Items(ms, rest))
    ensures ParseValue(t) == Some(Item(MArr(ms), rest))
  {
  }

  lemma OpenedObjectParses(t: Text, ms: map<Text, Meaning>, rest: Text)
    requires |t| > 1 && t[0] == LEFT_BRACE && t[1] != RIGHT_BRACE
    requires ParseMembers(t[1..]) == Some(Members(ms, rest))
    ensures ParseValue(t) == Some(Item(MObj(ms), rest))
  {
  }

  lemma BracketsParse(inner: Text, ms: seq<Meaning>, rest: Text)
    requires inner != [] && inner[0] != RIGHT_BRACKET
    requires ParseItems(inner + ([RIGHT_BRACKET] + rest)) == Some(Items(ms, rest))
    ensures ParseValue([LEFT_BRACKET] + inner + [RIGHT_BRACKET] + rest) == Some(Item(MArr(ms), rest))
  {
    var t := [LEFT_BRACKET] + inner + [RIGHT_BRACKET] + rest;
    Regrouped([LEFT_BRACKET], inner, [RIGHT_BRACKET], rest);
    assert t[1..] == inner + ([RIGHT_BRACKET] + rest);
    assert |t| > 1 && t[0] == LEFT_BRACKET && t[1] == inner[0];
    hide ParseValue, ParseItems;
    OpenedArrayParses(t, ms, rest);
  }

  lemma BracesParse(inner: Text, ms: map<Text, Meaning>, rest: Text)
    requires inner != [] && inner[0] != RIGHT_BRACE
    requires ParseMembers(inner + ([RIGHT_BRACE] + rest)) == Some(Members(ms, rest))
    ensures ParseValue([LEFT_BRACE] + inner + [RIGHT_BRACE] + rest) == Some(Item(MObj(ms), rest))
  {
    var t := [LEFT_BRACE] + inner + [RIGHT_BRACE] + rest;
    Regrouped([LEFT_BRACE], inner, [RIGHT_BRACE], rest);
    assert t[1..] == inner + ([RIGHT_BRACE] + rest);
    assert |t| > 1 && t[0] == LEFT_BRACE && t[1] == inner[0];
    hide ParseValue, ParseMembers;
    OpenedObjectParses(t, ms, rest);
  }

  lemma EmptyContainersParse(rest: Text)
    ensures ParseValue([LEFT_BRACKET] + [] + [RIGHT_BRACKET] + rest) == Some(Item(MArr([]), rest))
    ensures ParseValue([LEFT_BRACE] + [] + [RIGHT_BRACE] + rest) == Some(Item(MObj(map[]), rest))
  {
    assert ([LEFT_BRACKET] + [] + [RIGHT_BRACKET] + rest)[2..] == rest;
    assert ([LEFT_BRACE] + [] + [RIGHT_BRACE] + rest)[2..] == rest;
  }

  lemma PrintedStart(order: Order, v: Value)
    ensures Print(order, v) != [] && Print(order, v)[0] != RIGHT_BRACKET && Print(order, v)[0] != RIGHT_BRACE
  {
    match v
    case Num(Finite(t)) => assert t[0] in t;
    case _ =>
  }

  /** The printed form of a value, read back, is what the value means. */
  lemma {:induction false} PrintParses(order: Order, v: Value, rest: Text)
    requires Wf(v) && Follows(rest)
    ensures ParseValue(Print(order, v) + rest) == Some(Item(MeaningOf(v), rest))
    decreases v, 1, 0
  {
    match v
    case Null => WordsParse(rest);
    case Bool(b) => WordsParse(rest);
    case Num(Finite(t)) => NumberParses(t, rest);
    case Num(MinusZero) => NumberParses([DIGIT_ZERO], rest);
    case Num(Infinite(_)) => WordsParse(rest);
    case Str(s) => StringParses(s, rest);
    case Arr(items) =>
      if items == [] {
        EmptyContainersParse(rest);
        assert MeaningOf(v).items == [];
      } else {
        ItemsParse(order, v, items, rest);
        PrintedStart(order, items[0]);
        BracketsParse(PrintItems(order, v, items), MeaningsOf(items), rest);
      }
    case Obj(members) =>
      var es := Arrange(order, members);
      ArrangedMeaning(order, members);
      if es == [] {
        EmptyContainersParse(rest);
        assert MeaningOf(Obj(es)).members == map[];
      } else {
        MembersParse(order, v, es, rest);
        assert PrintMembers(order, v, es)[0] == QUOTE;
        BracesParse(PrintMembers(order, v, es), MeaningOf(Obj(es)).members, rest);
      }
  }

  lemma SameMeaning(xs: seq<Member>, ys: seq<Member>)
    requires Wf(Obj(xs)) && Wf(Obj(ys)) && PresentKeys(xs) == PresentKeys(ys)
    requires forall k :: k in PresentKeys(xs) ==> Find(xs, k) in ys
    ensures MeaningOf(Obj(xs)) == MeaningOf(Obj(ys))
  {
    MeaningKeys(xs);
    MeaningKeys(ys);
    forall k | k in PresentKeys(xs)
      ensures MeaningOf(Obj(xs)).members[k] == MeaningOf(Obj(ys)).members[k]
    {
      hide MeaningOf;
      MeaningAt(xs, Find(xs, k));
      MeaningAt(ys, Find(xs, k));
    }
    hide PresentKeys, Find;
  }

  /** Ordering the members and dropping `undefined` ones change no meaning. */
  lemma ArrangedMeaning(order: Order, members: seq<Member>)
    requires Wf(Obj(members))
    ensures var es := Arrange(order, members);
            && (order == ByKey ==> StrictlySorted(es))
            && Wf(Obj(es)) && MeaningOf(Obj(es)) == MeaningOf(Obj(members))
  {
    var es := Arrange(order, members);
    PresentDistinct(members);
    if order == ByKey {
      SortSorts(Present(members));
      SortedDistinct(es);
    }
    assert PresentKeys(es) == PresentKeys(members);
    hide Present, SortByKey, Arrange, MeaningOf, StrictlySorted;
    SameMeaning(es, members);
  }

  lemma MeaningsHead(items: seq<Value>)
    requires items != [] && Wf(Arr(items))
    ensures Wf(Arr(items[1..])) && Wf(items[0])
    ensures MeaningsOf(items) == [MeaningOf(items[0])] + MeaningsOf(items[1..])
  {
  }

  lemma SeveralItemsParse(order: Order, parent: Value, items: seq<Value>, rest: Text)
    requires |items| > 1 && PrintableItems(parent, items) && PrintableItems(parent, items[1..]) && Wf(items[0])
    requires var after := [COMMA] + (PrintItems(order, parent, items[1..]) + ([RIGHT_BRACKET] + rest));
             ParseValue(Print(order, items[0]) + after) == Some(Item(MeaningOf(items[0]), after))
    requires ParseItems(PrintItems(order, parent, items[1..]) + ([RIGHT_BRACKET] + rest))
             == Some(Items(MeaningsOf(items[1..]), rest))
    ensures ParseItems(PrintItems(order, parent, items) + ([RIGHT_BRACKET] + rest))
            == Some(Items(MeaningsOf(items), rest))
  {
    var others := PrintItems(order, parent, items[1..]) + ([RIGHT_BRACKET] + rest);
    MeaningsHead(items);
    PrintItemsUnfolds(order, parent, items, [RIGHT_BRACKET] + rest);
    NextItemParses(Print(order, items[0]), MeaningOf(items[0]), others, MeaningsOf(items[1..]), rest);
    hide ParseValue, MeaningOf, MeaningsOf, Print;
  }

  lemma {:induction false} ItemsParse(order: Order, parent: Value, items: seq<Value>, rest: Text)
    requires items != [] && PrintableItems(parent, items)
    ensures ParseItems(PrintItems(order, parent, items) + ([RIGHT_BRACKET] + rest))
            == Some(Items(MeaningsOf(items), rest))
    decreases parent, 0, |items|
  {
    MeaningsHead(items);
    if |items| == 1 {
      PrintParses(order, items[0], [RIGHT_BRACKET] + rest);
      LastItemParses(Print(order, items[0]), MeaningOf(items[0]), rest);
      assert MeaningsOf(items[1..]) == [];
      assert [MeaningOf(items[0])] + [] == [MeaningOf(items[0])];
      assert PrintItems(order, parent, items) == Print(order, items[0]);
    } else {
      hide ParseValue, ParseItems, Print, PrintItems, MeaningOf, MeaningsOf;
      PrintParses(order, items[0], [COMMA] + (PrintItems(order, parent, items[1..]) + ([RIGHT_BRACKET] + rest)));
      ItemsParse(order, parent, items[1..], rest);
      SeveralItemsParse(order, parent, items, rest);
    }
  }

  lemma PrintItemsUnfolds(order: Order, parent: Value, items: seq<Value>, after: Text)
    requires |items| > 1 && forall i :: 0 <= i < |items| ==> items[i] < parent
    ensures PrintItems(order, parent, items) + after
            == Print(order, items[0]) + ([COMMA] + (PrintItems(order, parent, items[1..]) + after))
  {
  }

  lemma PrintMembersUnfolds(order: Order, parent: Value, ms: seq<Member>, after: Text)
    requires |ms| > 1 && PrintableMembers(parent, ms)
    ensures PrintMembers(order, parent, ms) + after
            == (Quoted(ms[0].key) + [COLON] + Print(order, ms[0].value.value))
               + ([COMMA] + (PrintMembers(order, parent, ms[1..]) + after))
  {
  }

  lemma SingleMemberParses(order: Order, parent: Value, ms: seq<Member>, rest: Text)
    requires |ms| == 1 && PrintableMembers(parent, ms)
    requires var v, after := ms[0].value.value, [RIGHT_BRACE] + rest;
             ParseValue(Print(order, v) + after) == Some(Item(MeaningOf(v), after))
    ensures ParseMembers(PrintMembers(order, parent, ms) + ([RIGHT_BRACE] + rest))
            == Some(Members(MeaningOf(Obj(ms)).members, rest))
  {
    var key, v := ms[0].key, ms[0].value.value;
    var m, first := MeaningOf(v), Quoted(key) + [COLON] + Print(order, v);
    assert MeaningOf(Obj(ms)).members == map[key := m] by {
      MeaningUnfolds(ms);
      assert MeaningOf(Obj(ms[1..])).members == map[];
    }
    hide Quoted, ParseMember;
    MemberParses(key, Print(order, v), m, [RIGHT_BRACE] + rest);
    LastMemberParses(first, key, m, rest);
  }

  lemma {:induction false} SeveralMembersParse(order: Order, parent: Value, ms: seq<Member>, rest: Text)
    requires |ms| > 1 && PrintableMembers(parent, ms) && PrintableMembers(parent, ms[1..])
    requires var v := ms[0].value.value;
             var after := [COMMA] + (PrintMembers(order, parent, ms[1..]) + ([RIGHT_BRACE] + rest));
             ParseValue(Print(order, v) + after) == Some(Item(MeaningOf(v), after))
    requires ParseMembers(PrintMembers(order, parent, ms[1..]) + ([RIGHT_BRACE] + rest))
             == Some(Members(MeaningOf(Obj(ms[1..])).members, rest))
    ensures ParseMembers(PrintMembers(order, parent, ms) + ([RIGHT_BRACE] + rest))
            == Some(Members(MeaningOf(Obj(ms)).members, rest))
  {
    var key, v := ms[0].key, ms[0].value.value;
    var m, first := MeaningOf(v), Quoted(key) + [COLON] + Print(order, v);
    var others := PrintMembers(order, parent, ms[1..]) + ([RIGHT_BRACE] + rest);
    hide Quoted, ParseMember;
    calc {
      ParseMembers(PrintMembers(order, parent, ms) + ([RIGHT_BRACE] + rest));
      { PrintMembersUnfolds(order, parent, ms, [RIGHT_BRACE] + rest); }
      ParseMembers(first + ([COMMA] + others));
      { MemberParses(key, Print(order, v), m, [COMMA] + others);
        NextMemberParses(first, key, m, others, MeaningOf(Obj(ms[1..])).members, rest); }
      Some(Members(map[key := m] + MeaningOf(Obj(ms[1..])).members, rest));
      { MeaningUnfolds(ms); }
      Some(Members(MeaningOf(Obj(ms)).members, rest));
    }
  }

  lemma {:induction false} MembersParse(order: Order, parent: Value, ms: seq<Member>, rest: Text)
    requires ms != [] && PrintableMembers(parent, ms)
    ensures ParseMembers(PrintMembers(order, parent, ms) + ([RIGHT_BRACE] + rest))
            == Some(Members(MeaningOf(Obj(ms)).members, rest))
    decreases parent, 0, |ms|
  {
    hide ParseValue, ParseMembers, Print, PrintMembers, MeaningOf, Quoted;
    if |ms| == 1 {
      PrintParses(order, ms[0].value.value, [RIGHT_BRACE] + rest);
      SingleMemberParses(order, parent, ms, rest);
    } else {
      PrintParses(order, ms[0].value.value, [COMMA] + (PrintMembers(order, parent, ms[1..]) + ([RIGHT_BRACE] + rest)));
      MembersParse(order, parent, ms[1..], rest);
      SeveralMembersParse(order, parent, ms, rest);
    }
  }

  lemma MeaningKeys(ms: seq<Member>)
    requires Wf(Obj(ms))
    ensures MeaningOf(Obj(ms)).members.Keys == PresentKeys(ms)
  {
  }

  lemma TailMeaningAt(ms: seq<Member>, k: Text)
    requires ms != [] && Wf(Obj(ms)) && k in PresentKeys(ms[1..])
    ensures k in MeaningOf(Obj(ms)).members && k in MeaningOf(Obj(ms[1..])).members
    ensures MeaningOf(Obj(ms)).members[k] == MeaningOf(Obj(ms[1..])).members[k]
  {
    var m := Find(ms[1..], k);
    hide MeaningOf;
    MeaningAt(ms, m);
    MeaningAt(ms[1..], m);
  }

  lemma MeaningUnfolds(ms: seq<Member>)
    requires ms != [] && Wf(Obj(ms)) && ms[0].value.Some?
    ensures MeaningOf(Obj(ms)).members
            == map[ms[0].key := MeaningOf(ms[0].value.value)] + MeaningOf(Obj(ms[1..])).members
    ensures ms[0].key !in MeaningOf(Obj(ms[1..])).members
  {
    var key, tail := ms[0].key, ms[1..];
    KeysUnfold(ms);
    MeaningKeys(ms);
    MeaningKeys(tail);
    hide MeaningOf, PresentKeys;
    MeaningAt(ms, ms[0]);
    forall k | k in PresentKeys(tail)
      ensures MeaningOf(Obj(ms)).members[k] == MeaningOf(Obj(tail)).members[k]
    {
      TailMeaningAt(ms, k);
    }
    MapSplits(MeaningOf(Obj(ms)).members, key, MeaningOf(ms[0].value.value), MeaningOf(Obj(tail)).members);
    hide *;
  }

  lemma MapSplits<K, V>(big: map<K, V>, k: K, v: V, small: map<K, V>)
    requires big.Keys == {k} + small.Keys && k !in small.Keys && big[k] == v
    requires forall x :: x in small.Keys ==> big[x] == small[x]
    ensures big == map[k := v] + small
  {
  }

  lemma KeysUnfold(ms: seq<Member>)
    requires ms != [] && DistinctKeys(ms) && ms[0].value.Some?
    ensures PresentKeys(ms) == {ms[0].key} + PresentKeys(ms[1..])
    ensures ms[0].key !in PresentKeys(ms[1..])
  {
    assert ms == [ms[0]] + ms[1..];
  }

  lemma MeaningAt(ms: seq<Member>, m: Member)
    requires Wf(Obj(ms)) && m in ms && m.value.Some?
    ensures m.key in MeaningOf(Obj(ms)).members
    ensures MeaningOf(Obj(ms)).members[m.key] == MeaningOf(m.value.value)
  {
    var w := Find(ms, m.key);
    var i, j :| 0 <= i < |ms| && 0 <= j < |ms| && ms[i] == m && ms[j] == w;
  }
}

/** Strings as the runtime holds them: sequences of UTF-16 code units. */
module CodeUnits {
  type CodeUnit = u: int | 0 <= u < 0x10000

  type Text = seq<CodeUnit>

  const BACKSPACE: CodeUnit := 8
  const TAB: CodeUnit := 9
  const LF: CodeUnit := 10
  const FORM_FEED: CodeUnit := 12
  const CR: CodeUnit := 13
  const SPACE: CodeUnit := 32
  const QUOTE: CodeUnit := 34
  const PLUS: CodeUnit := 43
  const COMMA: CodeUnit := 44
  const MINUS: CodeUnit := 45
  const DOT: CodeUnit := 46
  const DIGIT_ZERO: CodeUnit := 48
  const COLON: CodeUnit := 58
  const LEFT_BRACKET: CodeUnit := 91
  const BACKSLASH: CodeUnit := 92
  const RIGHT_BRACKET: CodeUnit := 93
  const LETTER_E: CodeUnit := 101
  const LETTER_U: CodeUnit := 117
  const LEFT_BRACE: CodeUnit := 123
  const RIGHT_BRACE: CodeUnit := 125

  predicate IsHighSurrogate(u: CodeUnit) {
    0xD800 <= u < 0xDC00
  }

  predicate IsLowSurrogate(u: CodeUnit) {
    0xDC00 <= u < 0xE000
  }

  predicate IsDigit(u: CodeUnit) {
    DIGIT_ZERO <= u < DIGIT_ZERO + 10
  }

  /** Decimal digits of a natural number, most significant first. */
  function Digits(n: nat): (t: Text)
    ensures t != []
    ensures forall u :: u in t ==> IsDigit(u)
  {
    if n < 10 then [DIGIT_ZERO + n] else Digits(n / 10) + [DIGIT_ZERO + n % 10]
  }

  /** What a string template prints for an integer. */
  function Decimal(n: int): Text {
    if n < 0 then [MINUS] + Digits(-n) else Digits(n)
  }

  /** The number a digit string denotes. */
  function DigitsValue(t: Text): nat
    requires forall u :: u in t ==> IsDigit(u)
  {
    if t == [] then 0
    else
      var last := t[|t| - 1];
      assert last in t && IsDigit(last);
      DigitsValue(t[..|t| - 1]) * 10 + (last - DIGIT_ZERO)
  }

  lemma {:induction false} DigitsRoundTrip(n: nat)
    ensures DigitsValue(Digits(n)) == n
  {
    if n < 10 {
      assert Digits(n)[..0] == [];
    } else {
      DigitsRoundTrip(n / 10);
      assert Digits(n)[..|Digits(n)| - 1] == Digits(n / 10);
    }
  }

  /** The digits of a number are digits, denote it, and begin with no zero unless
      they are all of it. */
  lemma {:induction false} DigitsExactly(n: nat)
    ensures (forall u :: u in Digits(n) ==> IsDigit(u)) && DigitsValue(Digits(n)) == n
    ensures Digits(n)[0] == DIGIT_ZERO <==> n == 0
    ensures n == 0 ==> |Digits(n)| == 1
  {
    DigitsRoundTrip(n);
    if n >= 10 {
      DigitsExactly(n / 10);
      assert Digits(n)[0] == Digits(n / 10)[0];
    }
  }

  /** The number that digits with or without a minus sign denote. */
  function DecimalValue(t: Text): int
    requires t != [] && forall u :: u in t[1..] ==> IsDigit(u)
    requires t[0] == MINUS || IsDigit(t[0])
  {
    if t[0] == MINUS then 0 - DigitsValue(t[1..]) as int
    else
      assert t == [t[0]] + t[1..];
      DigitsValue(t)
  }

  /** What a template prints denotes the number it was given, and begins with a
      minus sign exactly when that is negative. */
  lemma DecimalExactly(n: int)
    ensures var t := Decimal(n);
            && t != [] && (forall u :: u in t[1..] ==> IsDigit(u)) && (t[0] == MINUS || IsDigit(t[0]))
            && DecimalValue(t) == n && (t[0] == MINUS <==> n < 0)
  {
    var t := Decimal(n);
    if n < 0 {
      assert t[1..] == Digits(-n);
      DigitsRoundTrip(-n);
    } else {
      assert t[0] in t;
      DigitsRoundTrip(n);
    }
  }

  lemma DecimalInjective(m: int, n: int)
    requires Decimal(m) == Decimal(n)
    ensures m == n
  {
    assert Decimal(m)[0] in Decimal(m) && Decimal(n)[0] in Decimal(n);
    if m < 0 {
      assert n < 0;
      assert Digits(-m) == Decimal(m)[1..] == Decimal(n)[1..] == Digits(-n);
      DigitsRoundTrip(-m);
      DigitsRoundTrip(-n);
    } else {
      assert n >= 0;
      DigitsRoundTrip(m);
      DigitsRoundTrip(n);
    }
  }
}

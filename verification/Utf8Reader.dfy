/** What the recorded byte size counts: a strict reader of what the encoder emits,
    and the length as a count of code units. */
module Utf8Reader {
  import opened CodeUnits
  import opened Options
  import opened ContextIndex

  // ---------------------------------------------------------------- a strict reader

  predicate IsTail(b: Byte) {
    0x80 <= b < 0xC0
  }

  /** A number that stands for a character: no surrogate, and not too large. */
  predicate IsScalar(c: int) {
    0 <= c < 0xD800 || 0xE000 <= c < 0x110000
  }

  /** One character read off the front: its number and its length. */
  function ReadOne(b: seq<Byte>): (r: Option<(int, nat)>)
    ensures r.Some? ==> 0 < r.value.1 <= |b| && IsScalar(r.value.0)
  {
    if b == [] then None
    else if b[0] < 0x80 then Some((b[0] as int, 1))
    else if 0xC0 <= b[0] < 0xE0 then
      if |b| < 2 || !IsTail(b[1]) then None
      else
        var c := (b[0] as int - 0xC0) * 0x40 + (b[1] as int - 0x80);
        if c < 0x80 then None else Some((c, 2))
    else if 0xE0 <= b[0] < 0xF0 then
      if |b| < 3 || !IsTail(b[1]) || !IsTail(b[2]) then None
      else
        var c := (b[0] as int - 0xE0) * 0x1000 + (b[1] as int - 0x80) * 0x40 + (b[2] as int - 0x80);
        if c < 0x800 || !IsScalar(c) then None else Some((c, 3))
    else if 0xF0 <= b[0] < 0xF8 then
      if |b| < 4 || !IsTail(b[1]) || !IsTail(b[2]) || !IsTail(b[3]) then None
      else
        var c := (b[0] as int - 0xF0) * 0x40000 + (b[1] as int - 0x80) * 0x1000
                 + (b[2] as int - 0x80) * 0x40 + (b[3] as int - 0x80);
        if c < 0x10000 || !IsScalar(c) then None else Some((c, 4))
    else None
  }

  /** Characters in their shortest form and nothing else: overlong forms, encoded
      surrogates and stray bytes are refused. */
  function Read(b: seq<Byte>): Option<seq<int>>
    decreases |b|
  {
    if b == [] then Some([])
    else
      match ReadOne(b)
      case None => None
      case Some((c, n)) =>
        match Read(b[n..])
        case None => None
        case Some(rest) => Some([c] + rest)
  }

  /** The characters of a text: a pair of surrogates is one, a surrogate without
      its partner is U+FFFD, and any other code unit is itself. */
  function Characters(t: Text): seq<int>
    decreases |t|
  {
    if t == [] then []
    else if |t| > 1 && IsHighSurrogate(t[0]) && IsLowSurrogate(t[1]) then
      [0x10000 + (t[0] as int - 0xD800) * 0x400 + (t[1] as int - 0xDC00)] + Characters(t[2..])
    else if IsHighSurrogate(t[0]) || IsLowSurrogate(t[0]) then [0xFFFD] + Characters(t[1..])
    else [t[0] as int] + Characters(t[1..])
  }

  lemma OneByteReads(c: CodeUnit, rest: seq<Byte>)
    requires c < 0x80
    ensures ReadOne([c as int] + rest) == Some((c as int, 1))
  {
  }

  lemma TwoBytesRead(c: int, rest: seq<Byte>)
    requires 0x80 <= c < 0x800
    ensures ReadOne(TwoBytes(c) + rest) == Some((c, 2))
  {
    var b := TwoBytes(c) + rest;
    assert b[0] == 0xC0 + c / 0x40 && b[1] == 0x80 + c % 0x40;
    assert (c / 0x40) * 0x40 + c % 0x40 == c;
  }

  lemma ThreeBytesRead(c: int, rest: seq<Byte>)
    requires 0x800 <= c < 0x10000 && IsScalar(c)
    ensures ReadOne(ThreeBytes(c) + rest) == Some((c, 3))
  {
    var b := ThreeBytes(c) + rest;
    assert b[0] == 0xE0 + c / 0x1000 && b[1] == 0x80 + c / 0x40 % 0x40 && b[2] == 0x80 + c % 0x40;
    assert c / 0x1000 == c / 0x40 / 0x40;
    assert (c / 0x40 / 0x40) * 0x40 + c / 0x40 % 0x40 == c / 0x40;
    assert (c / 0x40) * 0x40 + c % 0x40 == c;
  }

  lemma FourBytesRead(c: int, rest: seq<Byte>)
    requires 0x10000 <= c < 0x110000
    ensures ReadOne(FourBytes(c) + rest) == Some((c, 4))
  {
    var b := FourBytes(c) + rest;
    assert b[0] == 0xF0 + c / 0x40000 && b[1] == 0x80 + c / 0x1000 % 0x40;
    assert b[2] == 0x80 + c / 0x40 % 0x40 && b[3] == 0x80 + c % 0x40;
    var x, y := c / 0x40, c / 0x40 / 0x40;
    assert c / 0x1000 == y && c / 0x40000 == y / 0x40;
    assert (y / 0x40) * 0x40 + y % 0x40 == y;
    assert y * 0x40 + x % 0x40 == x;
    assert x * 0x40 + c % 0x40 == c;
  }

  lemma ReadsOn(b: seq<Byte>, c: int, n: nat, rest: seq<Byte>, cs: seq<int>)
    requires ReadOne(b + rest) == Some((c, n)) && |b| == n && Read(rest) == Some(cs)
    ensures Read(b + rest) == Some([c] + cs)
  {
    assert (b + rest)[n..] == rest;
    hide ReadOne;
  }

  /** The bytes of a text's first character, and what they read as. */
  lemma FirstReads(t: Text) returns (b: seq<Byte>, c: int, n: nat)
    requires t != []
    ensures 0 < n <= |t|
    ensures Utf8(t) == b + Utf8(t[n..]) && Characters(t) == [c] + Characters(t[n..])
    ensures ReadOne(b + Utf8(t[n..])) == Some((c, |b|))
  {
    n := 1;
    if t[0] < 0x80 {
      b, c := [t[0] as int], t[0] as int;
      OneByteReads(t[0], Utf8(t[1..]));
    } else if t[0] < 0x800 {
      b, c := TwoBytes(t[0]), t[0] as int;
      TwoBytesRead(t[0], Utf8(t[1..]));
    } else if IsHighSurrogate(t[0]) && |t| > 1 && IsLowSurrogate(t[1]) {
      n := 2;
      c := 0x10000 + (t[0] as int - 0xD800) * 0x400 + (t[1] as int - 0xDC00);
      b := FourBytes(c);
      FourBytesRead(c, Utf8(t[2..]));
    } else if IsHighSurrogate(t[0]) || IsLowSurrogate(t[0]) {
      b, c := ThreeBytes(0xFFFD), 0xFFFD;
      ThreeBytesRead(c, Utf8(t[1..]));
    } else {
      b, c := ThreeBytes(t[0]), t[0] as int;
      ThreeBytesRead(c, Utf8(t[1..]));
    }
    hide ReadOne, TwoBytes, ThreeBytes, FourBytes;
  }

  /** Read back, the bytes of any text are its characters. */
  lemma {:induction false} EncodedReadsBack(t: Text)
    ensures Read(Utf8(t)) == Some(Characters(t))
    decreases |t|
  {
    if t != [] {
      var b, c, n := FirstReads(t);
      hide *;
      EncodedReadsBack(t[n..]);
      ReadsOn(b, c, |b|, Utf8(t[n..]), Characters(t[n..]));
    }
  }

  // ---------------------------------------------------------------- the length

  /** How many code units are at least a bound. */
  function AtLeast(t: Text, bound: int): nat {
    if t == [] then 0 else (if t[0] as int >= bound then 1 else 0) + AtLeast(t[1..], bound)
  }

  /** At how many positions a pair of surrogates begins. */
  function Pairs(t: Text): nat {
    if t == [] then 0
    else (if |t| > 1 && IsHighSurrogate(t[0]) && IsLowSurrogate(t[1]) then 1 else 0) + Pairs(t[1..])
  }

  /** A byte for every code unit, one more for each of 0x80 and above, one more for
      each of 0x800 and above, and two less for every pair. */
  lemma {:induction false} SizeExactly(t: Text)
    ensures |Utf8(t)| == |t| + AtLeast(t, 0x80) + AtLeast(t, 0x800) - 2 * Pairs(t)
    decreases |t|
  {
    if t == [] {
    } else if |t| > 1 && IsHighSurrogate(t[0]) && IsLowSurrogate(t[1]) {
      SizeExactly(t[2..]);
      assert t[1..][1..] == t[2..];
      hide FourBytes;
      PairSize(t);
    } else {
      SizeExactly(t[1..]);
      UnitSize(t);
    }
  }

  lemma UnitSize(t: Text)
    requires t != [] && !(|t| > 1 && IsHighSurrogate(t[0]) && IsLowSurrogate(t[1]))
    ensures |Utf8(t)|
            == |Utf8(t[1..])| + 1 + (if t[0] as int >= 0x80 then 1 else 0) + (if t[0] as int >= 0x800 then 1 else 0)
  {
  }

  lemma PairSize(t: Text)
    requires |t| > 1 && IsHighSurrogate(t[0]) && IsLowSurrogate(t[1])
    ensures |Utf8(t)| == |Utf8(t[2..])| + 4
    ensures AtLeast(t, 0x80) == AtLeast(t[2..], 0x80) + 2 && AtLeast(t, 0x800) == AtLeast(t[2..], 0x800) + 2
    ensures Pairs(t) == Pairs(t[2..]) + 1
  {
    assert t[1..][1..] == t[2..] && t[1..][0] == t[1];
  }
}

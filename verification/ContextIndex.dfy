/** One scope's index of cached results. */
module ContextIndex {
  import opened CodeUnits

  type Byte = b: int | 0 <= b < 0x100

  function TwoBytes(c: int): seq<Byte>
    requires 0x80 <= c < 0x800
  {
    [0xC0 + c / 0x40, 0x80 + c % 0x40]
  }

  function ThreeBytes(c: int): seq<Byte>
    requires 0x800 <= c < 0x10000
  {
    [0xE0 + c / 0x1000, 0x80 + c / 0x40 % 0x40, 0x80 + c % 0x40]
  }

  function FourBytes(c: int): seq<Byte>
    requires 0x10000 <= c < 0x110000
  {
    [0xF0 + c / 0x40000, 0x80 + c / 0x1000 % 0x40, 0x80 + c / 0x40 % 0x40, 0x80 + c % 0x40]
  }

  /** What a text encoder emits: a surrogate without its partner becomes U+FFFD. */
  function Utf8(t: Text): seq<Byte>
    decreases |t|
  {
    if t == [] then []
    else if t[0] < 0x80 then [t[0] as int] + Utf8(t[1..])
    else if t[0] < 0x800 then TwoBytes(t[0]) + Utf8(t[1..])
    else if IsHighSurrogate(t[0]) && |t| > 1 && IsLowSurrogate(t[1]) then
      FourBytes(0x10000 + (t[0] as int - 0xD800) * 0x400 + (t[1] as int - 0xDC00)) + Utf8(t[2..])
    else if IsHighSurrogate(t[0]) || IsLowSurrogate(t[0]) then ThreeBytes(0xFFFD) + Utf8(t[1..])
    else ThreeBytes(t[0]) + Utf8(t[1..])
  }

  /** A row of `cache_entries`, but for its key and its time of creation. */
  datatype Entry = Entry(resultHash: Text, content: Text, contentType: Text, byteSize: nat, hitCount: nat)

  datatype LookupResult = Hit(entry: Entry) | NoEntry

  type Table = map<Text, Entry>

  function Found(t: Table, key: Text): LookupResult {
    if key in t then Hit(t[key].(hitCount := t[key].hitCount + 1)) else NoEntry
  }

  function Counted(t: Table, key: Text): Table {
    if key in t then t[key := t[key].(hitCount := t[key].hitCount + 1)] else t
  }

  function Stored(t: Table, key: Text, resultHash: Text, content: Text, contentType: Text): Table {
    t[key := Entry(resultHash, content, contentType, |Utf8(content)|, 0)]
  }

  class ContextIndex {
    var entries: Table

    constructor ()
      ensures entries == map[]
    {
      entries := map[];
    }

    method Lookup(requestHash: Text) returns (r: LookupResult)
      modifies this
      ensures r == Found(old(entries), requestHash)
      ensures entries == Counted(old(entries), requestHash)
    {
      if requestHash !in entries {
        return NoEntry;
      }
      var row := entries[requestHash];
      entries := entries[requestHash := row.(hitCount := row.hitCount + 1)];
      return Hit(row.(hitCount := row.hitCount + 1));
    }

    method Store(requestHash: Text, resultHash: Text, content: Text, contentType: Text) returns (byteSize: nat)
      modifies this
      ensures byteSize == |Utf8(content)|
      ensures entries == Stored(old(entries), requestHash, resultHash, content, contentType)
    {
      byteSize := |Utf8(content)|;
      entries := entries[requestHash := Entry(resultHash, content, contentType, byteSize, 0)];
    }
  }
}

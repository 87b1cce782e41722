/** The hash-chained audit log. The hash is any function on texts; what would
    break the chain's promise is exhibited among the tables' own encodings. */
module AuditLog {
  import opened CodeUnits
  import opened Options
  import Json
  import JsonParser
  import CacheKey

  datatype Row = Row(seqNo: nat, agentId: Option<int>, agentName: Text, action: Text, detail: Text,
                     occurredAt: Text, prevHash: Text, entryHash: Text)

  function Zeros(n: nat): (t: Text)
    ensures |t| == n && forall i :: 0 <= i < n ==> t[i] == DIGIT_ZERO
  {
    if n == 0 then [] else [DIGIT_ZERO] + Zeros(n - 1)
  }

  const GENESIS_HASH: Text := Zeros(64)

  lemma DecimalIsNumberText(n: int)
    ensures Json.IsNumberText(Decimal(n))
  {
  }

  function IdValue(id: Option<int>): Json.Value {
    match id
    case None => Json.Null
    case Some(n) =>
      DecimalIsNumberText(n);
      Json.Num(Json.Finite(Decimal(n)))
  }

  /** The hashed fields in their fixed order. */
  function EntryValue(r: Row): Json.Value {
    Json.Arr([Json.Str(r.prevHash), IdValue(r.agentId), Json.Str(r.agentName), Json.Str(r.action),
              Json.Str(r.detail), Json.Str(r.occurredAt)])
  }

  function CanonicalEntry(r: Row): Text {
    Json.Stringify(EntryValue(r))
  }

  predicate SameHashedFields(a: Row, b: Row) {
    && a.prevHash == b.prevHash
    && a.agentId == b.agentId
    && a.agentName == b.agentName
    && a.action == b.action
    && a.detail == b.detail
    && a.occurredAt == b.occurredAt
  }

  lemma IdValueInjective(a: Option<int>, b: Option<int>)
    requires Json.MeaningOf(IdValue(a)) == Json.MeaningOf(IdValue(b))
    ensures a == b
  {
    if a.Some? && b.Some? {
      DecimalInjective(a.value, b.value);
    }
  }

  lemma EntryMeaning(r: Row)
    ensures Json.Wf(EntryValue(r)) && Json.Wf(IdValue(r.agentId))
    ensures var m := Json.MeaningOf(EntryValue(r));
            m.MArr? && m.items == [Json.MStr(r.prevHash), Json.MeaningOf(IdValue(r.agentId)), Json.MStr(r.agentName),
                                   Json.MStr(r.action), Json.MStr(r.detail), Json.MStr(r.occurredAt)]
  {
    hide Decimal;
  }

  /** An encoding reads back as the array of the six hashed fields, in order. */
  lemma EncodingReads(r: Row)
    ensures var id := if r.agentId.None? then Json.MNull else Json.MNum(Decimal(r.agentId.value));
            JsonParser.ParseValue(CanonicalEntry(r))
            == Some(JsonParser.Item(Json.MArr([Json.MStr(r.prevHash), id, Json.MStr(r.agentName), Json.MStr(r.action),
                                               Json.MStr(r.detail), Json.MStr(r.occurredAt)]), []))
  {
    EntryMeaning(r);
    IdMeaning(r.agentId);
    hide EntryValue, IdValue, Json.MeaningOf, Json.Wf;
    JsonParser.PrintParses(Json.AsInserted, EntryValue(r), []);
    assert CanonicalEntry(r) + [] == CanonicalEntry(r);
  }

  lemma IdMeaning(id: Option<int>)
    ensures Json.Wf(IdValue(id))
    ensures Json.MeaningOf(IdValue(id)) == if id.None? then Json.MNull else Json.MNum(Decimal(id.value))
  {
    hide Decimal;
  }

  lemma SameFields(a: Row, b: Row)
    requires Json.Wf(IdValue(a.agentId)) && Json.Wf(IdValue(b.agentId))
    requires [Json.MStr(a.prevHash), Json.MeaningOf(IdValue(a.agentId)), Json.MStr(a.agentName),
              Json.MStr(a.action), Json.MStr(a.detail), Json.MStr(a.occurredAt)]
             == [Json.MStr(b.prevHash), Json.MeaningOf(IdValue(b.agentId)), Json.MStr(b.agentName),
                 Json.MStr(b.action), Json.MStr(b.detail), Json.MStr(b.occurredAt)]
    ensures SameHashedFields(a, b)
  {
    hide IdValue, Json.MeaningOf, Json.Wf;
    IdValueInjective(a.agentId, b.agentId);
  }

  /** Different hashed fields never share an encoding. */
  lemma CanonicalEntryInjective(a: Row, b: Row)
    ensures CanonicalEntry(a) == CanonicalEntry(b) <==> SameHashedFields(a, b)
  {
    if CanonicalEntry(a) == CanonicalEntry(b) {
      hide EntryValue, IdValue, SameHashedFields;
      EntryMeaning(a);
      EntryMeaning(b);
      CacheKey.PrintDeterminesMeaning(Json.AsInserted, EntryValue(a), EntryValue(b));
      hide *;
      SameFields(a, b);
    }
  }

  // ---------------------------------------------------------------- chains

  function PrevOf(rows: seq<Row>, i: nat): Text
    requires i <= |rows|
  {
    if i == 0 then GENESIS_HASH else rows[i - 1].entryHash
  }

  /** Row i is chained to the one before it and carries its own hash. */
  predicate RowOk(hash: Text -> Text, rows: seq<Row>, i: nat)
    requires i < |rows|
  {
    rows[i].prevHash == PrevOf(rows, i) && hash(CanonicalEntry(rows[i])) == rows[i].entryHash
  }

  ghost predicate ValidChain(hash: Text -> Text, rows: seq<Row>) {
    forall i :: 0 <= i < |rows| ==> RowOk(hash, rows, i)
  }

  /** The chain is good before row k and broken at it. */
  ghost predicate BreaksAt(hash: Text -> Text, rows: seq<Row>, k: nat) {
    && k < |rows|
    && ValidChain(hash, rows[..k])
    && !RowOk(hash, rows, k)
  }

  ghost predicate InSeqOrder(rows: seq<Row>) {
    forall i, j :: 0 <= i < j < |rows| ==> rows[i].seqNo < rows[j].seqNo
  }

  datatype VerifyResult = VerifyResult(intact: bool, checkedCount: nat, brokenAtSeq: Option<nat>)

  class AuditLog {
    const hash: Text -> Text
    var entries: seq<Row>
    var lastSeq: nat

    /** What holds when only `Append` ever wrote to the table. */
    ghost predicate Genuine()
      reads this
    {
      && ValidChain(hash, entries)
      && InSeqOrder(entries)
      && forall i :: 0 <= i < |entries| ==> entries[i].seqNo <= lastSeq
    }

    constructor (hash: Text -> Text)
      ensures Genuine() && entries == [] && this.hash == hash
    {
      this.hash := hash;
      entries, lastSeq := [], 0;
    }

    method Append(agentId: Option<int>, agentName: Text, action: Text, detail: Text, occurredAt: Text)
      returns (seqNo: nat, entryHash: Text)
      modifies this
      ensures lastSeq == seqNo == old(lastSeq) + 1
      ensures entries == old(entries)
              + [Row(seqNo, agentId, agentName, action, detail, occurredAt,
                     PrevOf(old(entries), |old(entries)|), entryHash)]
      ensures RowOk(hash, entries, |old(entries)|)
      ensures old(Genuine()) ==> Genuine()
    {
      hide Zeros;
      var prevHash := if entries == [] then GENESIS_HASH else entries[|entries| - 1].entryHash;
      seqNo := lastSeq + 1;
      var draft := Row(seqNo, agentId, agentName, action, detail, occurredAt, prevHash, []);
      entryHash := hash(CanonicalEntry(draft));
      lastSeq := seqNo;
      entries := entries + [draft.(entryHash := entryHash)];
      assert CanonicalEntry(entries[|entries| - 1]) == CanonicalEntry(draft);
      hide CanonicalEntry, RowOk;
      EarlierRows(hash, old(entries), entries[|entries| - 1]);
      LastRow(hash, old(entries), entries[|entries| - 1]);
    }

    /** On any table: intact exactly when it is a valid chain, and otherwise the
        seq of the one row the chain breaks at. */
    method Verify() returns (r: VerifyResult, ghost at: nat)
      ensures r.checkedCount == |entries|
      ensures r.intact <==> ValidChain(hash, entries)
      ensures r.intact ==> r.brokenAtSeq == None
      ensures !r.intact ==> BreaksAt(hash, entries, at) && r.brokenAtSeq == Some(entries[at].seqNo)
    {
      hide CanonicalEntry, Zeros;
      var expectedPrev := GENESIS_HASH;
      var i := 0;
      while i < |entries|
        invariant 0 <= i <= |entries|
        invariant expectedPrev == PrevOf(entries, i)
        invariant forall j :: 0 <= j < i ==> RowOk(hash, entries, j)
      {
        var row := entries[i];
        if row.prevHash != expectedPrev || hash(CanonicalEntry(row)) != row.entryHash {
          PrefixChain(hash, entries, i);
          assert !RowOk(hash, entries, i);
          return VerifyResult(false, |entries|, Some(row.seqNo)), i;
        }
        expectedPrev := row.entryHash;
        i := i + 1;
      }
      return VerifyResult(true, |entries|, None), |entries|;
    }
  }

  lemma EarlierRows(hash: Text -> Text, rows: seq<Row>, row: Row)
    ensures forall i :: 0 <= i < |rows| ==> (RowOk(hash, rows + [row], i) <==> RowOk(hash, rows, i))
  {
    hide CanonicalEntry, Zeros;
  }

  lemma LastRow(hash: Text -> Text, rows: seq<Row>, row: Row)
    ensures RowOk(hash, rows + [row], |rows|)
            <==> row.prevHash == PrevOf(rows, |rows|) && hash(CanonicalEntry(row)) == row.entryHash
  {
    hide CanonicalEntry, Zeros;
  }

  lemma PrefixChain(hash: Text -> Text, rows: seq<Row>, n: nat)
    requires n <= |rows| && forall i :: 0 <= i < n ==> RowOk(hash, rows, i)
    ensures ValidChain(hash, rows[..n])
  {
    assert forall i :: 0 <= i < n ==> (RowOk(hash, rows, i) <==> RowOk(hash, rows[..n], i));
  }

  lemma GoodBefore(hash: Text -> Text, rows: seq<Row>, k: nat, j: nat)
    requires BreaksAt(hash, rows, k) && j < k
    ensures RowOk(hash, rows, j)
  {
    assert RowOk(hash, rows[..k], j);
  }

  /** A table breaks at one row only. */
  lemma BreakUnique(hash: Text -> Text, rows: seq<Row>, j: nat, k: nat)
    requires BreaksAt(hash, rows, j) && BreaksAt(hash, rows, k)
    ensures j == k
  {
    if j < k {
      GoodBefore(hash, rows, k, j);
    } else if k < j {
      GoodBefore(hash, rows, j, k);
    }
  }

  // ---------------------------------------------------------------- tamper evidence

  /** A collision between an encoding of one table and an encoding of the other. */
  ghost predicate CollisionBetween(hash: Text -> Text, a: seq<Row>, b: seq<Row>) {
    exists i, j :: 0 <= i < |a| && 0 <= j < |b| && CacheKey.Collide(hash, CanonicalEntry(a[i]), CanonicalEntry(b[j]))
  }

  /** A row of the table whose encoding hashes to the genesis value. */
  ghost predicate GenesisIn(hash: Text -> Text, rows: seq<Row>) {
    exists i :: 0 <= i < |rows| && hash(CanonicalEntry(rows[i])) == GENESIS_HASH
  }

  ghost predicate Agree(a: seq<Row>, b: seq<Row>) {
    && |a| == |b|
    && forall i :: 0 <= i < |a| ==> SameHashedFields(a[i], b[i]) && a[i].entryHash == b[i].entryHash
  }

  lemma WitnessesExtend(hash: Text -> Text, a: seq<Row>, b: seq<Row>, m: nat, n: nat)
    requires m <= |a| && n <= |b|
    ensures CollisionBetween(hash, a[..m], b[..n]) ==> CollisionBetween(hash, a, b)
    ensures GenesisIn(hash, a[..m]) ==> GenesisIn(hash, a)
  {
    if CollisionBetween(hash, a[..m], b[..n]) {
      var i, j :| 0 <= i < m && 0 <= j < n
                  && CacheKey.Collide(hash, CanonicalEntry(a[..m][i]), CanonicalEntry(b[..n][j]));
      assert CacheKey.Collide(hash, CanonicalEntry(a[i]), CanonicalEntry(b[j]));
    }
  }

  lemma SamePrev(a: Row, b: Row)
    requires SameHashedFields(a, b)
    ensures a.prevHash == b.prevHash
  {
  }

  /** The last hash pins the whole table: two intact tables that end in the same
      hash agree row by row on every hashed field, or a collision or a genesis
      preimage is among their rows. */
  lemma {:induction false} TamperEvident(hash: Text -> Text, a: seq<Row>, b: seq<Row>)
    requires ValidChain(hash, a) && ValidChain(hash, b)
    requires a != [] && b != [] && PrevOf(a, |a|) == PrevOf(b, |b|)
    ensures Agree(a, b) || CollisionBetween(hash, a, b) || GenesisIn(hash, a) || GenesisIn(hash, b)
    decreases |a|
  {
    hide CanonicalEntry, SameHashedFields, Zeros;
    var m, n := |a| - 1, |b| - 1;
    assert RowOk(hash, a, m) && RowOk(hash, b, n);
    if CanonicalEntry(a[m]) != CanonicalEntry(b[n]) {
      assert CacheKey.Collide(hash, CanonicalEntry(a[m]), CanonicalEntry(b[n]));
    } else {
      CanonicalEntryInjective(a[m], b[n]);
      SamePrev(a[m], b[n]);
      if m == 0 && n > 0 {
        assert RowOk(hash, b, n - 1);
        assert hash(CanonicalEntry(b[n - 1])) == GENESIS_HASH;
      } else if n == 0 && m > 0 {
        assert RowOk(hash, a, m - 1);
        assert hash(CanonicalEntry(a[m - 1])) == GENESIS_HASH;
      } else if m > 0 {
        PrefixChain(hash, a, m);
        PrefixChain(hash, b, n);
        TamperEvident(hash, a[..m], b[..n]);
        WitnessesExtend(hash, a, b, m, n);
        WitnessesExtend(hash, b, a, n, m);
        if Agree(a[..m], b[..n]) {
          forall i | 0 <= i < |a| ensures SameHashedFields(a[i], b[i]) && a[i].entryHash == b[i].entryHash {
            if i < m { assert a[..m][i] == a[i] && b[..n][i] == b[i]; }
          }
        }
      }
    }
  }

  // ---------------------------------------------------------------- where a break shows

  /** The rows left, in order, when those at the given positions are deleted. */
  ghost function Survivors(rows: seq<Row>, removed: set<nat>, i: nat): seq<Row>
    requires i <= |rows|
    decreases |rows| - i
  {
    if i == |rows| then []
    else if i in removed then Survivors(rows, removed, i + 1)
    else [rows[i]] + Survivors(rows, removed, i + 1)
  }

  lemma {:induction false} SurvivorsKeep(rows: seq<Row>, removed: set<nat>, i: nat, r: nat)
    requires i <= r <= |rows| && forall k :: i <= k < r ==> k !in removed
    ensures Survivors(rows, removed, i) == rows[i..r] + Survivors(rows, removed, r)
    decreases r - i
  {
    if i < r {
      calc {
        Survivors(rows, removed, i);
        [rows[i]] + Survivors(rows, removed, i + 1);
        { SurvivorsKeep(rows, removed, i + 1, r); }
        [rows[i]] + (rows[i + 1..r] + Survivors(rows, removed, r));
        { assert [rows[i]] + rows[i + 1..r] == rows[i..r]; }
        rows[i..r] + Survivors(rows, removed, r);
      }
    } else {
      assert rows[i..r] == [];
    }
  }

  lemma {:induction false} SurvivorsDrop(rows: seq<Row>, removed: set<nat>, i: nat, s: nat)
    requires i <= s <= |rows| && forall k :: i <= k < s ==> k in removed
    ensures Survivors(rows, removed, i) == Survivors(rows, removed, s)
    decreases s - i
  {
    if i < s {
      SurvivorsDrop(rows, removed, i + 1, s);
    }
  }

  /** Two ends of one valid chain at different lengths never share a hash. */
  lemma EndsDiffer(hash: Text -> Text, rows: seq<Row>, r: nat, s: nat)
    requires ValidChain(hash, rows) && r < s <= |rows|
    ensures PrevOf(rows, r) != PrevOf(rows, s) || CollisionBetween(hash, rows, rows) || GenesisIn(hash, rows)
  {
    if PrevOf(rows, r) == PrevOf(rows, s) {
      if r == 0 {
        assert RowOk(hash, rows, s - 1);
        assert hash(CanonicalEntry(rows[s - 1])) == GENESIS_HASH;
      } else {
        PrefixChain(hash, rows, r);
        PrefixChain(hash, rows, s);
        TamperEvident(hash, rows[..r], rows[..s]);
        WitnessesExtend(hash, rows, rows, r, s);
        WitnessesExtend(hash, rows, rows, s, r);
      }
    }
  }

  /** Deleting rows, but not just a suffix, breaks the chain at the first row
      that survives after the first deleted one: r is the first deleted
      position and s the first survivor after it. */
  lemma {:induction false} DeletionReported(hash: Text -> Text, rows: seq<Row>, removed: set<nat>, r: nat, s: nat)
    requires ValidChain(hash, rows) && r < s < |rows|
    requires forall k :: 0 <= k < r ==> k !in removed
    requires forall k :: r <= k < s ==> k in removed
    requires s !in removed
    ensures var left := Survivors(rows, removed, 0);
            || (BreaksAt(hash, left, r) && left[r] == rows[s])
            || CollisionBetween(hash, rows, rows) || GenesisIn(hash, rows)
  {
    var left := Survivors(rows, removed, 0);
    SurvivorsKeep(rows, removed, 0, r);
    SurvivorsDrop(rows, removed, r, s);
    assert left == rows[..r] + ([rows[s]] + Survivors(rows, removed, s + 1));
    assert left[..r] == rows[..r] && left[r] == rows[s];
    PrefixChain(hash, rows, r);
    assert PrevOf(left, r) == PrevOf(rows, r);
    assert RowOk(hash, rows, s);
    EndsDiffer(hash, rows, r, s);
  }

  /** Deleting a suffix is not detected: what is left is a valid chain. */
  lemma TruncationUnnoticed(hash: Text -> Text, rows: seq<Row>, n: nat)
    requires ValidChain(hash, rows) && n <= |rows|
    ensures ValidChain(hash, rows[..n])
  {
    PrefixChain(hash, rows, n);
  }

  /** Editing hashed fields while every stored entry hash stays breaks the chain
      at the least edited row. */
  lemma EditReported(hash: Text -> Text, rows: seq<Row>, edited: seq<Row>, k: nat)
    requires ValidChain(hash, rows) && |edited| == |rows| && k < |rows|
    requires forall i :: 0 <= i < |rows| ==> edited[i].entryHash == rows[i].entryHash
    requires forall i :: 0 <= i < k ==> SameHashedFields(rows[i], edited[i])
    requires !SameHashedFields(rows[k], edited[k])
    ensures BreaksAt(hash, edited, k) || CacheKey.Collide(hash, CanonicalEntry(rows[k]), CanonicalEntry(edited[k]))
  {
    forall i | 0 <= i < k ensures RowOk(hash, edited, i) {
      assert RowOk(hash, rows, i);
      CanonicalEntryInjective(rows[i], edited[i]);
    }
    PrefixChain(hash, edited, k);
    assert RowOk(hash, rows, k);
    CanonicalEntryInjective(rows[k], edited[k]);
  }
}

/** The SQLite mirror of the replay buffer: one row per seq. */
module ReplayStore {
  import opened CodeUnits
  import opened Options
  import opened Protocol

  const REPLAY_CAPACITY: nat := 200

  datatype StoredEvent = StoredEvent(upstreamId: Option<Text>, event: Option<Text>, data: Text)

  /** The table `replay_events`, keyed by its primary key. */
  type Table = map<nat, StoredEvent>

  function StoredRow(e: BufferedEvent): StoredEvent {
    StoredEvent(e.upstreamId, e.event, e.data)
  }

  lemma {:induction false} MaxExists(keys: set<nat>)
    requires keys != {}
    ensures exists m :: m in keys && forall k :: k in keys ==> k <= m
  {
    var k :| k in keys;
    var others := keys - {k};
    if others == {} {
      assert keys == {k};
    } else {
      MaxExists(others);
      var m :| m in others && forall j :: j in others ==> j <= m;
      assert forall j :: j in keys ==> j == k || j in others;
      if m < k {
        assert k in keys && forall j :: j in keys ==> j <= k;
      } else {
        assert m in keys && forall j :: j in keys ==> j <= m;
      }
    }
  }

  /** SELECT MAX(seq) of a table that is not empty. */
  function MaxSeq(t: Table): (m: nat)
    requires t != map[]
    ensures m in t && forall k :: k in t ==> k <= m
  {
    assert t.Keys == {} ==> t == map[];
    MaxExists(t.Keys);
    var m: nat :| m in t.Keys && forall k :: k in t.Keys ==> k <= m;
    m
  }

  function Insert(t: Table, e: BufferedEvent): Table {
    t[e.seqNo := StoredRow(e)]
  }

  /** DELETE WHERE seq <= MAX(seq) - capacity. */
  function Trim(t: Table): Table {
    if t == map[] then t
    else
      var bound := MaxSeq(t) - REPLAY_CAPACITY;
      map k | k in t && !(k <= bound) :: t[k]
  }

  /** SELECT ... ORDER BY seq ASC. */
  function SelectBySeq(t: Table): seq<BufferedEvent>
    decreases |t|
  {
    if t == map[] then []
    else
      var m := MaxSeq(t);
      var row := t[m];
      assert |t - {m}| < |t| by { assert (t - {m}).Keys == t.Keys - {m}; }
      SelectBySeq(t - {m}) + [BufferedEvent(m, row.upstreamId, row.event, row.data)]
  }

  /** The table holds the history from position `lo` on, and nothing else. */
  ghost predicate Holds(t: Table, h: seq<BufferedEvent>, lo: nat) {
    && lo <= |h|
    && (forall k :: k in t <==> lo < k <= |h|)
    && forall k :: lo < k <= |h| ==> t[k] == StoredRow(h[k - 1])
  }

  function WindowStart(h: seq<BufferedEvent>): nat {
    if |h| <= REPLAY_CAPACITY then 0 else |h| - REPLAY_CAPACITY
  }

  /** The write-through of one more event keeps exactly the last rows. */
  lemma WriteThrough(t: Table, h: seq<BufferedEvent>, e: BufferedEvent)
    requires Holds(t, h, WindowStart(h)) && e.seqNo == |h| + 1
    ensures e.seqNo !in t
    ensures Holds(Trim(Insert(t, e)), h + [e], WindowStart(h + [e]))
  {
    var u := Insert(t, e);
    assert e.seqNo in u;
    assert MaxSeq(u) == e.seqNo;
  }

  lemma TopRow(t: Table, h: seq<BufferedEvent>, lo: nat)
    requires IsHistory(h) && Holds(t, h, lo) && lo < |h|
    ensures t != map[] && MaxSeq(t) == |h|
    ensures BufferedEvent(|h|, t[|h|].upstreamId, t[|h|].event, t[|h|].data) == h[|h| - 1]
  {
    assert |h| in t;
  }

  lemma WithoutTopRow(t: Table, h: seq<BufferedEvent>, lo: nat)
    requires IsHistory(h) && Holds(t, h, lo) && lo < |h|
    ensures IsHistory(h[..|h| - 1]) && Holds(t - {|h|}, h[..|h| - 1], lo)
  {
  }

  lemma SelectTop(t: Table, m: nat)
    requires t != map[] && MaxSeq(t) == m
    ensures SelectBySeq(t) == SelectBySeq(t - {m}) + [BufferedEvent(m, t[m].upstreamId, t[m].event, t[m].data)]
  {
  }

  lemma NothingHeld(t: Table, h: seq<BufferedEvent>)
    requires Holds(t, h, |h|)
    ensures SelectBySeq(t) == []
  {
    assert t == map[];
  }

  lemma SuffixSnoc(h: seq<BufferedEvent>, lo: nat)
    requires lo < |h|
    ensures h[lo..] == h[..|h| - 1][lo..] + [h[|h| - 1]]
  {
  }

  lemma {:induction false} SelectIsWindow(t: Table, h: seq<BufferedEvent>, lo: nat)
    requires IsHistory(h) && Holds(t, h, lo)
    ensures SelectBySeq(t) == h[lo..]
    decreases |h| - lo
  {
    if lo >= |h| {
      NothingHeld(t, h);
    } else {
      var n := |h|;
      TopRow(t, h, lo);
      WithoutTopRow(t, h, lo);
      SelectIsWindow(t - {n}, h[..n - 1], lo);
      SelectTop(t, n);
      SuffixSnoc(h, lo);
      hide *;
    }
  }
}

/** The rolling 24-hour history of 15-second buckets (src/history.rs). */
module History {
  import opened Types
  import opened KeyLists

  const BUCKET_SECS := 15
  const RETENTION_SECS := 24 * 60 * 60

  type Buckets = map<int, StatBucket>

  /** The bucket boundary at or below an epoch second (Rust rem_euclid is Dafny %). */
  function BucketKey(epoch: int): (k: int)
    ensures k % 15 == 0 && k <= epoch < k + 15
  {
    epoch - epoch % BUCKET_SECS
  }

  function KeysOf(s: Series): (keys: seq<int>)
    ensures |keys| == |s|
  {
    seq(|s|, i requires 0 <= i < |s| => BucketKey(s[i].timestamp))
  }

  /** The bucket of a key, or the empty one that an upsert would insert. */
  function Base(m: Buckets, k: int): StatBucket {
    if k in m then m[k] else EmptyBucket(k)
  }

  /** What merging a series means: each key named by the series holds, in the written field, the
      value of the last point that floors to it; every other field and bucket is kept. */
  ghost function MergeAt(m: Buckets, keys: seq<int>, s: Series, f: Field): Buckets
    requires |keys| == |s|
  {
    map k | k in m.Keys + (set x | x in keys) :: MergedBucket(m, keys, s, f, k)
  }

  ghost function MergedBucket(m: Buckets, keys: seq<int>, s: Series, f: Field, k: int): StatBucket
    requires |keys| == |s|
  {
    var i := LastIndex(keys, k);
    if i < 0 then Base(m, k) else Base(m, k).Set(f, s[i].value)
  }

  ghost function Merge(m: Buckets, s: Series, f: Field): Buckets {
    MergeAt(m, KeysOf(s), s, f)
  }

  function OwnedField(kind: Kind, i: nat): Field
    requires i < 4
  {
    match kind
    case Packet => [Total, Direct, Digipeated, Errors][i]
    case Aprsis => [Igated, Dropped, RfReceived, Reconnects][i]
  }

  ghost function MergeQuad(m: Buckets, kind: Kind, q: Quad): Buckets {
    var m0 := Merge(m, q.s0, OwnedField(kind, 0));
    var m1 := Merge(m0, q.s1, OwnedField(kind, 1));
    var m2 := Merge(m1, q.s2, OwnedField(kind, 2));
    Merge(m2, q.s3, OwnedField(kind, 3))
  }

  function TouchedBy(q: Quad): set<int> {
    set k | k in KeysOf(q.s0) + KeysOf(q.s1) + KeysOf(q.s2) + KeysOf(q.s3)
  }

  /** The first bucket that is kept: the one of a day ago. */
  function Cutoff(now: int): (c: int)
    ensures c % 15 == 0 && c <= now - 86_400 < c + 15
  {
    BucketKey(now) - RETENTION_SECS
  }

  function Retain(m: Buckets, cutoff: int): Buckets {
    map k | k in m && cutoff <= k :: m[k]
  }

  function Expired(m: Buckets, cutoff: int): set<int> {
    set k | k in m && k < cutoff
  }

  ghost predicate WellKeyed(m: Buckets) {
    forall k :: k in m ==> m[k].ts == k && k % BUCKET_SECS == 0
  }

  /** Collecting a vector of buckets into an ordered map: a later bucket replaces an earlier one. */
  function Collect(loaded: seq<StatBucket>): Buckets {
    if loaded == [] then map[]
    else
      var last := loaded[|loaded| - 1];
      Collect(loaded[..|loaded| - 1])[last.ts := last]
  }

  lemma SetTwice(b: StatBucket, f: Field, v: nat, w: nat)
    ensures b.Set(f, v).Set(f, w) == b.Set(f, w)
    ensures b.Set(f, v).ts == b.ts
  {
  }

  lemma MergedBucketSnoc(m: Buckets, keys: seq<int>, s: Series, f: Field, k: int, p: DataPoint, x: int)
    requires |keys| == |s|
    ensures x != k ==> MergedBucket(m, keys + [k], s + [p], f, x) == MergedBucket(m, keys, s, f, x)
    ensures x == k ==> MergedBucket(m, keys + [k], s + [p], f, x) == MergedBucket(m, keys, s, f, x).Set(f, p.value)
  {
    LastIndexSnoc(keys, k, x);
    var i := LastIndex(keys, x);
    if x == k && i >= 0 {
      SetTwice(Base(m, k), f, s[i].value, p.value);
    }
  }

  lemma UpdatedAt<V>(m: map<int, V>, m': map<int, V>, k: int)
    requires m'.Keys == m.Keys + {k}
    requires forall x :: x in m && x != k ==> m'[x] == m[x]
    ensures m' == m[k := m'[k]]
  {
    assert k in m'.Keys;
    var u := m[k := m'[k]];
    assert u.Keys == m'.Keys;
    assert forall x :: x in u ==> x == k || x in m;
    assert forall x :: x in u ==> u[x] == m'[x];
  }

  /** One point merged after the rest of its series. */
  lemma MergeSnoc(m: Buckets, keys: seq<int>, s: Series, f: Field, k: int, p: DataPoint)
    requires |keys| == |s|
    ensures MergeAt(m, keys + [k], s + [p], f)
         == MergeAt(m, keys, s, f)[k := Base(MergeAt(m, keys, s, f), k).Set(f, p.value)]
  {
    var r, r' := MergeAt(m, keys, s, f), MergeAt(m, keys + [k], s + [p], f);
    assert r'.Keys == r.Keys + {k};
    forall x | x in r && x != k
      ensures r'[x] == r[x]
    {
      MergedBucketSnoc(m, keys, s, f, k, p, x);
    }
    UpdatedAt(r, r', k);
    assert Base(r, k) == MergedBucket(m, keys, s, f, k);
    MergedBucketSnoc(m, keys, s, f, k, p, k);
  }

  lemma MergeNone(m: Buckets, keys: seq<int>, s: Series, f: Field)
    requires |keys| == |s|
    ensures MergeAt(m, keys[..0], s[..0], f) == m
  {
  }

  /** The loop step of both merge loops. */
  lemma MergeNext(m: Buckets, keys: seq<int>, s: Series, f: Field, i: nat)
    requires i < |keys| == |s|
    ensures MergeAt(m, keys[..i + 1], s[..i + 1], f)
         == var r := MergeAt(m, keys[..i], s[..i], f); r[keys[i] := Base(r, keys[i]).Set(f, s[i].value)]
  {
    assert keys[..i + 1] == keys[..i] + [keys[i]] && s[..i + 1] == s[..i] + [s[i]];
    MergeSnoc(m, keys[..i], s[..i], f, keys[i], s[i]);
  }

  lemma TouchNext(touched: seq<int>, keys: seq<int>, i: nat)
    requires i < |keys|
    ensures touched + keys[..i + 1] == touched + keys[..i] + [keys[i]]
  {
    assert keys[..i + 1] == keys[..i] + [keys[i]];
  }

  class HistoryStore {
    var buckets: Buckets

    constructor FromBuckets(loaded: seq<StatBucket>)
      ensures buckets == Collect(loaded)
    {
      var m: Buckets := map[];
      for i := 0 to |loaded|
        invariant m == Collect(loaded[..i])
      {
        assert loaded[..i + 1][..i] == loaded[..i];
        m := m[loaded[i].ts := loaded[i]];
      }
      assert loaded[..|loaded|] == loaded;
      buckets := m;
    }

    /** Upserts every point of the series; also returns the touched keys, appended. */
    method MergeSeries(series: Series, touched: seq<int>, f: Field) returns (touched': seq<int>)
      modifies this
      ensures buckets == Merge(old(buckets), series, f)
      ensures touched' == touched + KeysOf(series)
    {
      touched' := touched;
      var keys := KeysOf(series);
      MergeNone(old(buckets), keys, series, f);
      for i := 0 to |series|
        invariant buckets == MergeAt(old(buckets), keys[..i], series[..i], f)
        invariant touched' == touched + keys[..i]
      {
        var key := BucketKey(series[i].timestamp);
        MergeNext(old(buckets), keys, series, f, i);
        TouchNext(touched, keys, i);
        buckets := buckets[key := Base(buckets, key).Set(f, series[i].value)];
        touched' := touched' + [key];
      }
      assert keys[..|series|] == keys && series[..|series|] == series;
    }

    method UpdateFromPacket(t: Quad) returns (touched: seq<int>)
      modifies this
      ensures buckets == MergeQuad(old(buckets), Packet, t)
      ensures touched == Ascending(TouchedBy(t))
    {
      touched := MergeSeries(t.s0, [], Total);
      touched := MergeSeries(t.s1, touched, Direct);
      touched := MergeSeries(t.s2, touched, Digipeated);
      touched := MergeSeries(t.s3, touched, Errors);
      assert touched == KeysOf(t.s0) + KeysOf(t.s1) + KeysOf(t.s2) + KeysOf(t.s3);
      touched := Ascending(set k | k in touched);
    }

    method UpdateFromAprsis(t: Quad) returns (touched: seq<int>)
      modifies this
      ensures buckets == MergeQuad(old(buckets), Aprsis, t)
      ensures touched == Ascending(TouchedBy(t))
    {
      touched := MergeSeries(t.s0, [], Igated);
      touched := MergeSeries(t.s1, touched, Dropped);
      touched := MergeSeries(t.s2, touched, RfReceived);
      touched := MergeSeries(t.s3, touched, Reconnects);
      assert touched == KeysOf(t.s0) + KeysOf(t.s1) + KeysOf(t.s2) + KeysOf(t.s3);
      touched := Ascending(set k | k in touched);
    }

    /** Clones the buckets of those keys that are still present. */
    function BucketsFor(keys: seq<int>): seq<StatBucket>
      reads this
    {
      RowsFor(buckets, keys)
    }

    method Prune(now: int) returns (removed: seq<int>)
      modifies this
      ensures buckets == Retain(old(buckets), Cutoff(now))
      ensures removed == Ascending(Expired(old(buckets), Cutoff(now)))
      ensures forall k :: k in buckets <==> k in old(buckets) && now - now % 15 - 86_400 <= k
      ensures forall k :: k in removed <==> k in old(buckets) && k < now - now % 15 - 86_400
    {
      var cutoff := Cutoff(now);
      removed := Ascending(Expired(buckets, cutoff));
      for i := 0 to |removed|
        invariant buckets == old(buckets) - (set k | k in removed[..i])
      {
        buckets := buckets - {removed[i]};
      }
      assert removed[..|removed|] == removed;
    }

    /** The body of the history endpoint: every bucket, oldest first. */
    function Snapshot(): seq<StatBucket>
      reads this
    {
      Rows(buckets)
    }
  }

  function RowsFor(m: Buckets, keys: seq<int>): (r: seq<StatBucket>)
    ensures forall b :: b in r <==> exists k :: k in keys && k in m && m[k] == b
  {
    if keys == [] then []
    else
      assert forall k :: k in keys <==> k == keys[0] || k in keys[1..];
      (if keys[0] in m then [m[keys[0]]] else []) + RowsFor(m, keys[1..])
  }

  function RowsAt(m: Buckets, keys: seq<int>): (r: seq<StatBucket>)
    requires forall i :: 0 <= i < |keys| ==> keys[i] in m
    ensures |r| == |keys|
  {
    seq(|keys|, i requires 0 <= i < |keys| => m[keys[i]])
  }

  /** The rows of a table in key order: how the store loads it and how the history lists itself. */
  function Rows(m: Buckets): seq<StatBucket> {
    var keys := Ascending(m.Keys);
    assert forall i :: 0 <= i < |keys| ==> keys[i] in m.Keys;
    RowsAt(m, keys)
  }

  lemma {:induction false} CollectRowsAt(m: Buckets, keys: seq<int>)
    requires WellKeyed(m) && forall i :: 0 <= i < |keys| ==> keys[i] in m
    ensures Collect(RowsAt(m, keys)) == map k | k in keys :: m[k]
  {
    if keys == [] {
    } else {
      var n := |keys| - 1;
      assert forall k :: k in keys <==> k in keys[..n] || k == keys[n];
      CollectRowsAt(m, keys[..n]);
      assert RowsAt(m, keys)[..n] == RowsAt(m, keys[..n]);
      assert RowsAt(m, keys)[n] == m[keys[n]];
    }
  }

  /** Listing a well-keyed table and collecting the rows again gives the table back. */
  lemma CollectRows(m: Buckets)
    requires WellKeyed(m)
    ensures Collect(Rows(m)) == m
  {
    var keys := Ascending(m.Keys);
    assert forall i :: 0 <= i < |keys| ==> keys[i] in m.Keys;
    assert forall k :: k in keys <==> k in m.Keys;
    CollectRowsAt(m, keys);
  }

  lemma MergeKeepsKeying(m: Buckets, s: Series, f: Field)
    requires WellKeyed(m)
    ensures WellKeyed(Merge(m, s, f))
  {
  }

  lemma MergeQuadKeepsKeying(m: Buckets, kind: Kind, q: Quad)
    requires WellKeyed(m)
    ensures WellKeyed(MergeQuad(m, kind, q))
  {
    var m0 := Merge(m, q.s0, OwnedField(kind, 0));
    var m1 := Merge(m0, q.s1, OwnedField(kind, 1));
    var m2 := Merge(m1, q.s2, OwnedField(kind, 2));
    MergeKeepsKeying(m, q.s0, OwnedField(kind, 0));
    MergeKeepsKeying(m0, q.s1, OwnedField(kind, 1));
    MergeKeepsKeying(m1, q.s2, OwnedField(kind, 2));
    MergeKeepsKeying(m2, q.s3, OwnedField(kind, 3));
  }
}

/** Aggregation of raw 15-second buckets into the points of the activity chart
    (buildDisplaySeries in frontend/assets/app.js). */
module Chart {
  import opened Types
  import opened KeyLists
  import opened History
  import opened Healing
  import opened Replica

  datatype Range = Minutes | Hours
  {
    function WindowSecs(): nat {
      match this
      case Minutes => 60 * 60
      case Hours => 24 * 3600
    }

    function BucketSecs(): nat {
      match this
      case Minutes => 60
      case Hours => 3600
    }

    /** windowSecs / bucketSecs, which is whole for both ranges. */
    function Count(): nat {
      WindowSecs() / BucketSecs()
    }
  }

  datatype Slot = Slot(total: nat, direct: nat, igated: nat, rf: nat)
  {
    function Add(b: StatBucket): Slot {
      Slot(total + b.total, direct + b.direct, igated + b.igated, rf + b.rfReceived)
    }
  }

  const NO_SLOT := Slot(0, 0, 0, 0)

  datatype Measure = AllPackets | DirectPackets | GatedPackets | ReceivedPackets

  function Of(b: StatBucket, w: Measure): nat {
    match w
    case AllPackets => b.total
    case DirectPackets => b.direct
    case GatedPackets => b.igated
    case ReceivedPackets => b.rfReceived
  }

  /** One measure summed over the raw buckets with lo <= ts < hi. */
  ghost function SumOf(rows: seq<StatBucket>, w: Measure, lo: int, hi: int): nat {
    if rows == [] then 0
    else
      var n := |rows| - 1;
      SumOf(rows[..n], w, lo, hi) + if lo <= rows[n].ts < hi then Of(rows[n], w) else 0
  }

  ghost function SumIn(rows: seq<StatBucket>, lo: int, hi: int): Slot {
    Slot(SumOf(rows, AllPackets, lo, hi), SumOf(rows, DirectPackets, lo, hi),
         SumOf(rows, GatedPackets, lo, hi), SumOf(rows, ReceivedPackets, lo, hi))
  }

  lemma SumInSnoc(rows: seq<StatBucket>, b: StatBucket, lo: int, hi: int)
    ensures SumIn(rows + [b], lo, hi)
         == if lo <= b.ts < hi then SumIn(rows, lo, hi).Add(b) else SumIn(rows, lo, hi)
  {
  }

  function Point(slots: map<int, Slot>, key: int): Slot {
    if key in slots then slots[key] else NO_SLOT
  }

  /** Math.round. */
  function RoundHalfUp(x: real): int {
    (x + 0.5).Floor
  }

  function Percent(s: Slot): Option<real> {
    if s.rf > 0 then Some(RoundHalfUp(s.igated as real / s.rf as real * 1000.0) as real / 10.0) else None
  }

  function Start(range: Range, now: int): int {
    FloorBucket(now, range.BucketSecs()) - (range.Count() - 1) * range.BucketSecs()
  }

  lemma FloorIsInterval(ts: int, range: Range, key: int)
    requires ts >= 0 && key % range.BucketSecs() == 0
    ensures FloorBucket(ts, range.BucketSecs()) == key <==> key <= ts < key + range.BucketSecs()
  {
    match range
    case Minutes => FloorIsMinute(ts, key / 60);
    case Hours => FloorIsHour(ts, key / 3600);
  }

  lemma FloorIsMinute(ts: int, n: int)
    requires ts >= 0
    ensures ts - ts % 60 == n * 60 <==> n * 60 <= ts < n * 60 + 60
  {
  }

  lemma FloorIsHour(ts: int, n: int)
    requires ts >= 0
    ensures ts - ts % 3600 == n * 3600 <==> n * 3600 <= ts < n * 3600 + 3600
  {
  }

  lemma StartIsAligned(range: Range, now: int, i: nat)
    requires now >= 0
    ensures Start(range, now) <= Start(range, now) + i * range.BucketSecs()
    ensures (Start(range, now) + i * range.BucketSecs()) % range.BucketSecs() == 0
  {
  }

  /** Each slot from `start` on holds the sums of its interval. */
  ghost predicate Accumulated(slots: map<int, Slot>, rows: seq<StatBucket>, range: Range, start: int) {
    forall key {:trigger Point(slots, key)} :: start <= key && key % range.BucketSecs() == 0 ==>
      Point(slots, key) == SumIn(rows, key, key + range.BucketSecs())
  }

  lemma AccumulateStep(slots: map<int, Slot>, rows: seq<StatBucket>, range: Range, start: int, rb: StatBucket)
    requires Accumulated(slots, rows, range, start) && rb.ts >= 0
    requires start % range.BucketSecs() == 0
    ensures var key := FloorBucket(rb.ts, range.BucketSecs());
            Accumulated(if rb.ts >= start then slots[key := Point(slots, key).Add(rb)] else slots,
                        rows + [rb], range, start)
  {
    var size := range.BucketSecs();
    var slotKey := FloorBucket(rb.ts, size);
    var slots' := if rb.ts >= start then slots[slotKey := Point(slots, slotKey).Add(rb)] else slots;
    forall key {:trigger Point(slots', key)} | start <= key && key % range.BucketSecs() == 0
      ensures Point(slots', key) == SumIn(rows + [rb], key, key + range.BucketSecs())
    {
      FloorIsInterval(rb.ts, range, key);
      SumInSnoc(rows, rb, key, key + size);
      assert Point(slots, key) == SumIn(rows, key, key + size);
    }
    assert Accumulated(slots', rows + [rb], range, start);
  }

  /** Accumulates raw buckets into display-bucket slots. */
  method AccumulateSlots(rows: seq<StatBucket>, range: Range, start: int) returns (slots: map<int, Slot>)
    requires start % range.BucketSecs() == 0
    requires forall i :: 0 <= i < |rows| ==> rows[i].ts >= 0
    ensures Accumulated(slots, rows, range, start)
  {
    slots := map[];
    for n := 0 to |rows|
      invariant Accumulated(slots, rows[..n], range, start)
    {
      var rb := rows[n];
      AccumulateStep(slots, rows[..n], range, start, rb);
      assert rows[..n + 1] == rows[..n] + [rb];
      if rb.ts >= start {
        var slotKey := FloorBucket(rb.ts, range.BucketSecs());
        slots := slots[slotKey := Point(slots, slotKey).Add(rb)];
      }
    }
    assert rows[..|rows|] == rows;
  }

  lemma RowsSinceEpoch(buckets: Buckets)
    requires forall k :: k in buckets ==> buckets[k].ts >= 0
    ensures forall i :: 0 <= i < |Rows(buckets)| ==> Rows(buckets)[i].ts >= 0
  {
  }

  /** A percentage to one decimal; none where nothing was received. */
  ghost predicate ShowsRatio(p: Option<real>, part: nat, whole: nat) {
    if whole == 0 then p == None
    else p.Some? && -0.05 <= p.value - 100.0 * (part as real / whole as real) <= 0.05
  }

  /** n points of so many seconds each, from start on. */
  ghost predicate Draws(rows: seq<StatBucket>, start: int, size: nat, n: nat,
                        direct: seq<nat>, total: seq<nat>, pct: seq<Option<real>>) {
    && |direct| == |total| == |pct| == n
    && forall i :: 0 <= i < n ==>
         var lo, hi := start + i * size, start + i * size + size;
         && direct[i] == SumOf(rows, DirectPackets, lo, hi) && total[i] == SumOf(rows, AllPackets, lo, hi)
         && ShowsRatio(pct[i], SumOf(rows, GatedPackets, lo, hi), SumOf(rows, ReceivedPackets, lo, hi))
  }

  lemma PercentShowsRatio(s: Slot)
    ensures ShowsRatio(Percent(s), s.igated, s.rf)
  {
    if s.rf > 0 {
      var q := s.igated as real / s.rf as real;
      var r := RoundHalfUp(q * 1000.0);
      assert r as real <= q * 1000.0 + 0.5 < r as real + 1.0;
    }
  }

  lemma PointIsSum(slots: map<int, Slot>, rows: seq<StatBucket>, range: Range, now: int,
                   start: int, size: nat, i: nat)
    requires now >= 0 && start == Start(range, now) && size == range.BucketSecs()
    requires Accumulated(slots, rows, range, start)
    ensures Point(slots, start + i * size) == SumIn(rows, start + i * size, start + i * size + size)
  {
    StartIsAligned(range, now, i);
  }

  lemma DrawsRange(rows: seq<StatBucket>, range: Range, now: int,
                   direct: seq<nat>, total: seq<nat>, pct: seq<Option<real>>)
    requires now >= 0 && Draws(rows, Start(range, now), range.BucketSecs(), range.Count(), direct, total, pct)
    ensures range == Minutes ==> Draws(rows, now - now % 60 - 3540, 60, 60, direct, total, pct)
    ensures range == Hours ==> Draws(rows, now - now % 3600 - 82_800, 3600, 24, direct, total, pct)
  {
  }

  lemma DrawsNext(rows: seq<StatBucket>, start: int, size: nat, i: nat,
                  direct: seq<nat>, total: seq<nat>, pct: seq<Option<real>>, s: Slot)
    requires Draws(rows, start, size, i, direct, total, pct)
    requires s == SumIn(rows, start + i * size, start + i * size + size)
    ensures Draws(rows, start, size, i + 1, direct + [s.direct], total + [s.total], pct + [Percent(s)])
  {
    PercentShowsRatio(s);
  }

  /** The last hour by minutes, or the last day by hours, through the current minute or hour. */
  method BuildDisplaySeries(buckets: Buckets, range: Range, now: int)
    returns (direct: seq<nat>, total: seq<nat>, pct: seq<Option<real>>)
    requires now >= 0 && forall k :: k in buckets ==> buckets[k].ts >= 0
    ensures range == Minutes ==> Draws(Rows(buckets), now - now % 60 - 3540, 60, 60, direct, total, pct)
    ensures range == Hours ==> Draws(Rows(buckets), now - now % 3600 - 82_800, 3600, 24, direct, total, pct)
  {
    var size, start, rows := range.BucketSecs(), Start(range, now), Rows(buckets);
    RowsSinceEpoch(buckets);
    StartIsAligned(range, now, 0);
    var slots := AccumulateSlots(rows, range, start);
    direct, total, pct := [], [], [];
    for i := 0 to range.Count()
      invariant Draws(rows, start, size, i, direct, total, pct)
    {
      PointIsSum(slots, rows, range, now, start, size, i);
      var s := Point(slots, start + i * size);
      DrawsNext(rows, start, size, i, direct, total, pct, s);
      direct, total, pct := direct + [s.direct], total + [s.total], pct + [Percent(s)];
    }
    DrawsRange(rows, range, now, direct, total, pct);
  }

  /** One measure summed over the first n display points. */
  ghost function Displayed(rows: seq<StatBucket>, w: Measure, start: int, size: nat, n: nat): nat {
    if n == 0 then 0
    else Displayed(rows, w, start, size, n - 1) + SumOf(rows, w, start + (n - 1) * size, start + (n - 1) * size + size)
  }

  lemma {:induction false} SumSplits(rows: seq<StatBucket>, w: Measure, lo: int, mid: int, hi: int)
    requires lo <= mid <= hi
    ensures SumOf(rows, w, lo, hi) == SumOf(rows, w, lo, mid) + SumOf(rows, w, mid, hi)
  {
    if rows == [] {
    } else {
      SumSplits(rows[..|rows| - 1], w, lo, mid, hi);
    }
  }

  lemma {:induction false} EmptyInterval(rows: seq<StatBucket>, w: Measure, lo: int)
    ensures SumOf(rows, w, lo, lo) == 0
  {
    if rows == [] {
    } else {
      EmptyInterval(rows[..|rows| - 1], w, lo);
    }
  }

  /** Nothing is lost or counted twice: the display points of any prefix of the chart add up to the
      raw buckets of the time they cover. */
  lemma {:induction false} PointsPartition(rows: seq<StatBucket>, w: Measure, start: int, size: nat, n: nat)
    ensures Displayed(rows, w, start, size, n) == SumOf(rows, w, start, start + n * size)
  {
    if n == 0 {
      EmptyInterval(rows, w, start);
    } else {
      PointsPartition(rows, w, start, size, n - 1);
      var mid := (n - 1) * size;
      assert 0 <= mid && mid + size == n * size;
      SumSplits(rows, w, start, start + mid, start + mid + size);
    }
  }

  /** The whole chart shows the raw buckets from its start through the end of the current point. */
  lemma ChartConserves(rows: seq<StatBucket>, w: Measure, range: Range, now: int)
    ensures Displayed(rows, w, Start(range, now), range.BucketSecs(), range.Count())
         == SumOf(rows, w, Start(range, now), FloorBucket(now, range.BucketSecs()) + range.BucketSecs())
  {
    PointsPartition(rows, w, Start(range, now), range.BucketSecs(), range.Count());
  }

  lemma {:induction false} GatedWithinReceived(rows: seq<StatBucket>, lo: int, hi: int)
    requires forall i :: 0 <= i < |rows| ==> GoodBucket(rows[i])
    ensures SumOf(rows, GatedPackets, lo, hi) <= SumOf(rows, ReceivedPackets, lo, hi)
  {
    if rows == [] {
    } else {
      GatedWithinReceived(rows[..|rows| - 1], lo, hi);
    }
  }

  lemma Ratio(a: real, b: real)
    requires 0.0 <= a <= b && b > 0.0
    ensures 0.0 <= a / b <= 1.0
  {
  }

  /** A percentage is drawn exactly where something was received; it is within a twentieth of igated / received,
      and a percentage indeed: in 0..100. */
  lemma PercentIsOne(rows: seq<StatBucket>, lo: int, hi: int)
    requires forall i :: 0 <= i < |rows| ==> GoodBucket(rows[i])
    ensures var p, received := Percent(SumIn(rows, lo, hi)), SumOf(rows, ReceivedPackets, lo, hi);
            && ShowsRatio(p, SumOf(rows, GatedPackets, lo, hi), received)
            && (p.Some? <==> received > 0)
            && (p.Some? ==> 0.0 <= p.value <= 100.0)
  {
    GatedWithinReceived(rows, lo, hi);
    var s := SumIn(rows, lo, hi);
    PercentShowsRatio(s);
    if s.rf > 0 {
      Ratio(s.igated as real, s.rf as real);
      var q := s.igated as real / s.rf as real;
      var r := RoundHalfUp(q * 1000.0);
      assert r as real <= q * 1000.0 + 0.5 < r as real + 1.0;
      assert 0 <= r <= 1000;
    }
  }
}

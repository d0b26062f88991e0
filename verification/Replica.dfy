/** The browser's copy of the history (frontend/assets/app.js): seeded once from a snapshot, fed by
    the same telemetry windows the server merges. */
module Replica {
  import opened Types
  import opened KeyLists
  import opened History
  import opened Healing

  /** JavaScript's %: the remainder takes the sign of the dividend. */
  function JsRemainder(a: int, b: int): int
    requires b > 0
  {
    if a >= 0 then a % b else -((-a) % b)
  }

  function FloorBucket(epoch: int, size: int): int
    requires size > 0
  {
    epoch - JsRemainder(epoch, size)
  }

  /** Browser and server name the same bucket exactly for epochs that are not negative or already
      on a boundary. */
  lemma FloorsAgree(epoch: int)
    ensures FloorBucket(epoch, BUCKET_SECS) == BucketKey(epoch) <==> epoch >= 0 || epoch % BUCKET_SECS == 0
  {
  }

  /** Before the epoch the browser rounds up: its floor is the multiple next towards zero. */
  lemma FloorIsTowardZero(epoch: int, size: int) returns (q: int)
    requires size > 0
    ensures FloorBucket(epoch, size) == q * size
    ensures epoch >= 0 ==> 0 <= q * size <= epoch < q * size + size
    ensures epoch <= 0 ==> q * size - size < epoch <= q * size <= 0
  {
    var n := if epoch >= 0 then epoch else -epoch;
    NextMultiple(n, size);
    q := if epoch >= 0 then n / size else -(n / size);
    assert -(n / size) * size == -(n / size * size);
  }

  lemma NextMultiple(n: nat, size: int)
    requires size > 0
    ensures n - n % size == n / size * size && 0 <= n / size * size <= n < n / size * size + size
  {
  }

  function FloorsOf(s: Series): (keys: seq<int>)
    ensures |keys| == |s|
  {
    seq(|s|, i requires 0 <= i < |s| => FloorBucket(s[i].timestamp, BUCKET_SECS))
  }

  ghost function LiveMerge(m: Buckets, kind: Kind, q: Quad): Buckets {
    var m0 := MergeAt(m, FloorsOf(q.s0), q.s0, OwnedField(kind, 0));
    var m1 := MergeAt(m0, FloorsOf(q.s1), q.s1, OwnedField(kind, 1));
    var m2 := MergeAt(m1, FloorsOf(q.s2), q.s2, OwnedField(kind, 2));
    MergeAt(m2, FloorsOf(q.s3), q.s3, OwnedField(kind, 3))
  }

  function LivePrune(m: Buckets, now: int): Buckets {
    map k | k in m && m[k].ts >= FloorBucket(now, BUCKET_SECS) - RETENTION_SECS :: m[k]
  }

  ghost function Doomed(m: Buckets, keys: seq<int>, cutoff: int): set<int> {
    set k | k in keys && k in m && m[k].ts < cutoff
  }

  lemma DoomedStep(m: Buckets, keys: seq<int>, i: nat, cutoff: int)
    requires i < |keys| && Ascends(keys) && keys[i] in m
    ensures var kept := m - Doomed(m, keys[..i], cutoff);
            && keys[i] in kept && kept[keys[i]] == m[keys[i]]
            && m - Doomed(m, keys[..i + 1], cutoff) == if m[keys[i]].ts < cutoff then kept - {keys[i]} else kept
  {
  }

  lemma DoomedAll(m: Buckets, keys: seq<int>, now: int)
    requires forall k :: k in m.Keys <==> k in keys
    ensures m - Doomed(m, keys, FloorBucket(now, BUCKET_SECS) - RETENTION_SECS) == LivePrune(m, now)
  {
    var cutoff := FloorBucket(now, BUCKET_SECS) - RETENTION_SECS;
    forall k
      ensures k in LivePrune(m, now) <==> k in m - Doomed(m, keys, cutoff)
    {
      assert k in m <==> k in m.Keys;
    }
  }

  class Browser {
    var activityBuckets: Buckets

    constructor ()
      ensures activityBuckets == map[]
    {
      activityBuckets := map[];
    }

    method MergeSeriesIntoBuckets(series: Series, f: Field)
      modifies this
      ensures activityBuckets == MergeAt(old(activityBuckets), FloorsOf(series), series, f)
    {
      var keys := FloorsOf(series);
      MergeNone(old(activityBuckets), keys, series, f);
      for i := 0 to |series|
        invariant activityBuckets == MergeAt(old(activityBuckets), keys[..i], series[..i], f)
      {
        var ts := FloorBucket(series[i].timestamp, BUCKET_SECS);
        MergeNext(old(activityBuckets), keys, series, f, i);
        activityBuckets := activityBuckets[ts := Base(activityBuckets, ts).Set(f, series[i].value)];
      }
      assert keys[..|series|] == keys && series[..|series|] == series;
    }

    method PruneActivityBuckets(now: int)
      modifies this
      ensures activityBuckets == LivePrune(old(activityBuckets), now)
    {
      var cutoff := FloorBucket(now, BUCKET_SECS) - RETENTION_SECS;
      var before := activityBuckets;
      var keys := Ascending(before.Keys);
      for i := 0 to |keys|
        invariant activityBuckets == before - Doomed(before, keys[..i], cutoff)
      {
        var k := keys[i];
        assert k in before.Keys;
        DoomedStep(before, keys, i, cutoff);
        if activityBuckets[k].ts < cutoff {
          activityBuckets := activityBuckets - {k};
        }
      }
      assert keys[..|keys|] == keys;
      DoomedAll(before, keys, now);
    }

    /** The snapshot overwrites whatever the buffer holds for its buckets. */
    method SeedActivityHistory(rows: seq<StatBucket>)
      modifies this
      ensures activityBuckets == old(activityBuckets) + Collect(rows)
    {
      for i := 0 to |rows|
        invariant activityBuckets == old(activityBuckets) + Collect(rows[..i])
      {
        assert rows[..i + 1][..i] == rows[..i];
        activityBuckets := activityBuckets[rows[i].ts := rows[i]];
      }
      assert rows[..|rows|] == rows;
    }

    method OnPacketStatistics(q: Quad, now: int)
      modifies this
      ensures activityBuckets == LivePrune(LiveMerge(old(activityBuckets), Packet, q), now)
    {
      MergeSeriesIntoBuckets(q.s0, Total);
      MergeSeriesIntoBuckets(q.s1, Direct);
      MergeSeriesIntoBuckets(q.s2, Digipeated);
      MergeSeriesIntoBuckets(q.s3, Errors);
      PruneActivityBuckets(now);
    }

    method OnAprsisStatistics(q: Quad, now: int)
      modifies this
      ensures activityBuckets == LivePrune(LiveMerge(old(activityBuckets), Aprsis, q), now)
    {
      MergeSeriesIntoBuckets(q.s0, Igated);
      MergeSeriesIntoBuckets(q.s1, Dropped);
      MergeSeriesIntoBuckets(q.s2, RfReceived);
      MergeSeriesIntoBuckets(q.s3, Reconnects);
      PruneActivityBuckets(now);
    }
  }

  ghost predicate SinceEpoch(s: Series) {
    forall i :: 0 <= i < |s| ==> s[i].timestamp >= 0
  }

  lemma FloorsAreKeys(s: Series)
    requires SinceEpoch(s)
    ensures FloorsOf(s) == KeysOf(s)
  {
  }

  /** From the epoch on, a browser event does to its buckets what the server step does. */
  lemma BrowserStepIsServerStep(m: Buckets, kind: Kind, q: Quad, now: int)
    requires SinceEpoch(q.s0) && SinceEpoch(q.s1) && SinceEpoch(q.s2) && SinceEpoch(q.s3) && now >= 0
    requires WellKeyed(m)
    ensures LivePrune(LiveMerge(m, kind, q), now) == Retain(MergeQuad(m, kind, q), Cutoff(now))
  {
    FloorsAreKeys(q.s0);
    FloorsAreKeys(q.s1);
    FloorsAreKeys(q.s2);
    FloorsAreKeys(q.s3);
    FloorsAgree(now);
    MergeQuadKeepsKeying(m, kind, q);
  }

  //--------- browser runs --------

  ghost function BrowserStep(m: Buckets, streams: Streams, e: Event): Buckets
    requires e.tick <= |streams.Of(e.kind)|
  {
    LivePrune(LiveMerge(m, e.kind, QuadOf(WindowOf(streams.Of(e.kind), e.tick))), e.now)
  }

  /** What the buffer holds after these live events, by the browser's own floor, merge and prune. */
  ghost function BrowserRun(m: Buckets, streams: Streams, es: seq<Event>): Buckets
    requires Sent(streams, es)
  {
    if es == [] then m
    else
      var n := |es| - 1;
      BrowserStep(BrowserRun(m, streams, es[..n]), streams, es[n])
  }

  ghost predicate TicksSinceEpoch(streams: Streams) {
    forall kind, i :: 0 <= i < |streams.Of(kind)| ==> streams.Of(kind)[i].at >= 0
  }

  ghost predicate ClockSinceEpoch(es: seq<Event>) {
    forall i :: 0 <= i < |es| ==> es[i].now >= 0
  }

  lemma BrowserStepIsStep(m: Buckets, streams: Streams, e: Event)
    requires e.tick <= |streams.Of(e.kind)| && WellKeyed(m) && TicksSinceEpoch(streams) && e.now >= 0
    ensures BrowserStep(m, streams, e) == Step(m, streams, e)
  {
    var h := WindowOf(streams.Of(e.kind), e.tick);
    assert forall i :: 0 <= i < |h| ==> h[i].at >= 0 by {
      assert forall i :: 0 <= i < |streams.Of(e.kind)| ==> streams.Of(e.kind)[i].at >= 0;
    }
    BrowserStepIsServerStep(m, e.kind, QuadOf(h), e.now);
  }

  /** From the epoch on, the browser does over whole runs what the server does. */
  lemma {:induction false} BrowserRunIsRun(m: Buckets, streams: Streams, es: seq<Event>)
    requires Sent(streams, es) && WellKeyed(m) && TicksSinceEpoch(streams) && ClockSinceEpoch(es)
    ensures BrowserRun(m, streams, es) == Run(m, streams, es)
  {
    if es == [] {
    } else {
      var n := |es| - 1;
      BrowserRunIsRun(m, streams, es[..n]);
      RunKeepsKeying(m, streams, es[..n]);
      BrowserStepIsStep(Run(m, streams, es[..n]), streams, es[n]);
    }
  }

  //--------- convergence --------

  /** Fields of a stream that no tick so far floors to are still zero. */
  ghost predicate ZeroUnlessTicked(m: Buckets, kind: Kind, h: seq<Tick>) {
    forall k :: k in m && k !in TickKeys(h) ==> Holds(kind, m[k], Tick(0, 0, 0, 0, 0))
  }

  lemma MergeOwnKeepsZero(m: Buckets, kind: Kind, h: seq<Tick>, n: nat)
    requires ZeroUnlessTicked(m, kind, h) && n <= |h|
    ensures ZeroUnlessTicked(MergeTicks(m, kind, WindowOf(h, n)), kind, h)
  {
    var window := WindowOf(h, n);
    SliceKeys(h, From(n), n);
    assert forall x :: x in TickKeys(window) ==> x in TickKeys(h);
    forall k | k in MergeTicks(m, kind, window) && k !in TickKeys(h)
      ensures Holds(kind, MergeTicks(m, kind, window)[k], Tick(0, 0, 0, 0, 0))
    {
      MergeTicksBase(m, kind, window, k);
    }
  }

  lemma MergeOtherKeepsZero(m: Buckets, kind: Kind, h: seq<Tick>, other: Kind, window: seq<Tick>)
    requires ZeroUnlessTicked(m, kind, h) && other != kind
    ensures ZeroUnlessTicked(MergeTicks(m, other, window), kind, h)
  {
  }

  /** Live events alone, lost or repeated in any way, never invent counts. */
  lemma {:induction false} LiveEventsKeepZero(streams: Streams, es: seq<Event>, kind: Kind)
    requires Sent(streams, es)
    ensures ZeroUnlessTicked(Run(map[], streams, es), kind, streams.Of(kind))
  {
    if es == [] {
    } else {
      var n := |es| - 1;
      LiveEventsKeepZero(streams, es[..n], kind);
      var m, e := Run(map[], streams, es[..n]), es[n];
      StepMerges(m, streams, e);
      if e.kind == kind {
        MergeOwnKeepsZero(m, kind, streams.Of(kind), e.tick);
      } else {
        MergeOtherKeepsZero(m, kind, streams.Of(kind), e.kind, WindowOf(streams.Of(e.kind), e.tick));
      }
    }
  }

  /** The first window of this kind that arrives after the snapshot reaches back to it, and the last
      one is not older than it. */
  ghost predicate ReachesBack(ticks: seq<nat>, snapshot: nat) {
    ticks != [] && From(ticks[0]) <= snapshot <= ticks[|ticks| - 1]
  }

  /** A span merged over a snapshot bucket brings the stream's fields up to date. */
  lemma SpanOverSnapshot(seed: Buckets, kind: Kind, h: seq<Tick>, a: nat, s: nat, k: int, snap: StatBucket)
    requires a <= s <= |h|
    requires NewestOf(kind, seed, h[..s], k, snap)
    ensures NewestOf(kind, seed, h, k, StampNewest(snap, kind, h[a..], k))
  {
    assert h[0..s] == h[..s] && h[0..|h|] == h && h[a..|h|] == h[a..];
    SlicesOf(h, 0, a, s, |h|, k);
  }

  /** So does one merged over a live bucket that the snapshot does not have. */
  lemma SpanOverLive(seed: Buckets, kind: Kind, h: seq<Tick>, a: nat, s: nat, k: int, live: StatBucket)
    requires a <= s <= |h|
    requires k !in seed && k !in TickKeys(h[..s])
    requires k !in TickKeys(h) ==> Holds(kind, live, Tick(0, 0, 0, 0, 0))
    ensures NewestOf(kind, seed, h, k, StampNewest(live, kind, h[a..], k))
  {
    assert h[0..s] == h[..s] && h[0..|h|] == h && h[a..|h|] == h[a..];
    SlicesOf(h, 0, a, s, |h|, k);
    assert LastIndex(TickKeys(h[..s]), k) < 0;
    if LastIndex(TickKeys(h), k) < 0 {
      assert k !in TickKeys(h);
    }
  }

  lemma {:induction false} RunKeepsKeying(m: Buckets, streams: Streams, es: seq<Event>)
    requires Sent(streams, es) && WellKeyed(m)
    ensures WellKeyed(Run(m, streams, es))
  {
    if es == [] {
    } else {
      var n := |es| - 1;
      RunKeepsKeying(m, streams, es[..n]);
      MergeQuadKeepsKeying(Run(m, streams, es[..n]), es[n].kind,
                           QuadOf(WindowOf(streams.Of(es[n].kind), es[n].tick)));
    }
  }

  lemma DeliveredButLast(streams: Streams, start: int, es: seq<Event>)
    requires es != [] && Delivered(streams, start, es)
    ensures Delivered(streams, start, es[..|es| - 1])
    ensures Clock(start, es[..|es| - 1]) <= Clock(start, es)
  {
    var n := |es| - 1;
    ChainedPrefix(streams, start, es);
    forall kind | Ticks(es[..n], kind) != []
      ensures 0 < Ticks(es[..n], kind)[0] && Ticks(es[..n], kind)[0] - 1 <= 99
    {
      assert Ticks(es, kind)[0] == Ticks(es[..n], kind)[0];
    }
    assert Clock(start, es[..n]) <= es[n].now;
  }

  lemma {:induction false} DeliveredPrefix(streams: Streams, start: int, es: seq<Event>, j: nat)
    requires j <= |es| && Delivered(streams, start, es)
    ensures Delivered(streams, start, es[..j])
    ensures Clock(start, es[..j]) <= Clock(start, es)
    decreases |es|
  {
    if j == |es| {
      assert es[..j] == es;
    } else {
      var init := es[..|es| - 1];
      assert init[..j] == es[..j];
      DeliveredButLast(streams, start, es);
      DeliveredPrefix(streams, start, init, j);
    }
  }

  /** The browser's bucket at k, before the last prune, agrees with the newest tick of this stream. */
  lemma BrowserFieldsNewest(seed: Buckets, streams: Streams, kind: Kind, live: Buckets, snap: Buckets,
                            sp: nat, sa: nat, cs: int, ticks: seq<nat>, k: int)
    requires sp <= |streams.packet| && sa <= |streams.aprsis| && cs <= k
    requires snap == WholeHistory(seed, streams.packet[..sp], streams.aprsis[..sa], cs)
    requires ZeroUnlessTicked(live, kind, streams.Of(kind))
    requires ReachesBack(ticks, if kind == Packet then sp else sa) && ticks[|ticks| - 1] == |streams.Of(kind)|
    ensures NewestOf(kind, seed, streams.Of(kind), k,
                     StampNewest(Base(live + snap, k), kind, Span(streams.Of(kind), ticks), k))
  {
    var h, s := streams.Of(kind), if kind == Packet then sp else sa;
    WholeHistoryAt(seed, streams.packet[..sp], streams.aprsis[..sa], cs, k);
    assert Span(h, ticks) == h[From(ticks[0])..];
    if k in snap {
      SpanOverSnapshot(seed, kind, h, From(ticks[0]), s, k, snap[k]);
    } else {
      SpanOverLive(seed, kind, h, From(ticks[0]), s, k, Base(live, k));
    }
  }

  /** Stamping one stream's span and then the other's brings both halves of a bucket up to date. */
  lemma BothStamped(seed: Buckets, streams: Streams, b: StatBucket, hp: seq<Tick>, ha: seq<Tick>, k: int)
    requires NewestOf(Packet, seed, streams.packet, k, StampNewest(b, Packet, hp, k))
    requires NewestOf(Aprsis, seed, streams.aprsis, k, StampNewest(b, Aprsis, ha, k))
    ensures var r := StampNewest(StampNewest(b, Packet, hp, k), Aprsis, ha, k);
            && NewestOf(Packet, seed, streams.packet, k, r)
            && NewestOf(Aprsis, seed, streams.aprsis, k, r)
            && r.ts == b.ts
  {
  }

  lemma SameFields(seed: Buckets, streams: Streams, k: int, b: StatBucket, b': StatBucket)
    requires NewestOf(Packet, seed, streams.packet, k, b) && NewestOf(Packet, seed, streams.packet, k, b')
    requires NewestOf(Aprsis, seed, streams.aprsis, k, b) && NewestOf(Aprsis, seed, streams.aprsis, k, b')
    requires b.ts == b'.ts
    ensures b == b'
  {
  }

  lemma BrowserBucket(m: Buckets, streams: Streams, post: seq<Event>, t1: int, k: int)
    requires post != [] && Chained(streams, t1, post)
    ensures var b := StampNewest(Base(m, k), Packet, Span(streams.packet, Ticks(post, Packet)), k);
            k in Run(m, streams, post) ==>
              Run(m, streams, post)[k] == StampNewest(b, Aprsis, Span(streams.aprsis, Ticks(post, Aprsis)), k)
  {
    var hp, ha := Span(streams.packet, Ticks(post, Packet)), Span(streams.aprsis, Ticks(post, Aprsis));
    Collapse(m, t1, streams, post);
    MergeTicksBase(m, Packet, hp, k);
    MergeTicksBase(MergeTicks(m, Packet, hp), Aprsis, ha, k);
  }

  /** The bucket that the browser ends with is the one the whole history determines. */
  lemma CaughtUpAt(seed: Buckets, streams: Streams, live: Buckets, sp: nat, sa: nat, cs: int, c: int,
                   tp: seq<nat>, ta: seq<nat>, k: int)
    requires WellKeyed(seed) && WellKeyed(live) && cs <= c
    requires sp <= |streams.packet| && sa <= |streams.aprsis|
    requires ZeroUnlessTicked(live, Packet, streams.packet) && ZeroUnlessTicked(live, Aprsis, streams.aprsis)
    requires ReachesBack(tp, sp) && tp[|tp| - 1] == |streams.packet|
    requires ReachesBack(ta, sa) && ta[|ta| - 1] == |streams.aprsis|
    ensures var snapshot := WholeHistory(seed, streams.packet[..sp], streams.aprsis[..sa], cs);
            var server := WholeHistory(seed, streams.packet, streams.aprsis, c);
            var b := StampNewest(Base(live + snapshot, k), Packet, Span(streams.packet, tp), k);
            k in server ==> server[k] == StampNewest(b, Aprsis, Span(streams.aprsis, ta), k)
  {
    var snapshot := WholeHistory(seed, streams.packet[..sp], streams.aprsis[..sa], cs);
    var server := WholeHistory(seed, streams.packet, streams.aprsis, c);
    if k in server {
      var b, hp, ha := Base(live + snapshot, k), Span(streams.packet, tp), Span(streams.aprsis, ta);
      BrowserFieldsNewest(seed, streams, Packet, live, snapshot, sp, sa, cs, tp, k);
      BrowserFieldsNewest(seed, streams, Aprsis, live, snapshot, sp, sa, cs, ta, k);
      BothStamped(seed, streams, b, hp, ha, k);
      WholeHistoryAt(seed, streams.packet[..sp], streams.aprsis[..sa], cs, k);
      WholeHistoryAt(seed, streams.packet, streams.aprsis, c, k);
      SameFields(seed, streams, k, StampNewest(StampNewest(b, Packet, hp, k), Aprsis, ha, k), server[k]);
    }
  }

  /** A server run, the snapshot taken after its first j events, and a browser that applied that
      snapshot after the live events `pre` and before the live events `post`. */
  datatype Session = Session(seed: Buckets, t0: int, streams: Streams, es: seq<Event>, j: nat,
                             pre: seq<Event>, post: seq<Event>, t1: int)
  {
    ghost predicate Valid() {
      && WellKeyed(seed)
      && Delivered(streams, t0, es) && j <= |es|
      && Sent(streams, pre) && Chained(streams, t1, post)
      && (forall kind :: LastTick(es, kind) == LastTick(post, kind) == |streams.Of(kind)|)
      && (forall kind :: ReachesBack(Ticks(post, kind), LastTick(es[..j], kind)))
      && TicksSinceEpoch(streams) && ClockSinceEpoch(pre) && ClockSinceEpoch(post)
    }

    ghost function Server(): Buckets
      requires Valid()
    {
      Run(Retain(seed, Cutoff(t0)), streams, es)
    }

    ghost function Snapshot(): Buckets
      requires Valid()
    {
      Run(Retain(seed, Cutoff(t0)), streams, es[..j])
    }

    ghost function Live(): Buckets
      requires Valid()
    {
      BrowserRun(map[], streams, pre)
    }

    ghost function Browser(): Buckets
      requires Valid()
    {
      BrowserRun(Live() + Collect(Rows(Snapshot())), streams, post)
    }
  }

  lemma TicksOfPair(e: Event, f: Event)
    requires e.kind == Packet && f.kind == Aprsis
    ensures [e, f][..1] == [e] && [e][..0] == []
    ensures Ticks([e], Packet) == [e.tick] && Ticks([e], Aprsis) == []
    ensures Ticks([e, f], Packet) == [e.tick] && Ticks([e, f], Aprsis) == [f.tick]
  {
    assert [e, f][..1] == [e] && [e][..0] == [];
    assert Ticks([], Packet) == [] && Ticks([], Aprsis) == [];
    assert Ticks([e], Packet) == [] + [e.tick];
    assert Ticks([e], Aprsis) == [] + [];
  }

  lemma PairDelivered(streams: Streams, now: int)
    requires |streams.packet| == 1 && |streams.aprsis| == 1
    ensures Delivered(streams, now, [Event(Packet, 1, now), Event(Aprsis, 1, now)])
  {
    var e, f := Event(Packet, 1, now), Event(Aprsis, 1, now);
    TicksOfPair(e, f);
    assert [e, f][..0] == [];
    assert forall kind :: Ticks([e, f], kind) == [1];
    assert Sent(streams, [e, f]);
  }

  lemma PairReachesBack(streams: Streams, now: int)
    requires |streams.packet| == 1 && |streams.aprsis| == 1
    ensures var es := [Event(Packet, 1, now), Event(Aprsis, 1, now)];
            forall kind :: LastTick(es, kind) == |streams.Of(kind)| && LastTick(es[..0], kind) == 0
                           && ReachesBack(Ticks(es, kind), 0)
  {
    var es := [Event(Packet, 1, now), Event(Aprsis, 1, now)];
    TicksOfPair(es[0], es[1]);
    assert es[..0] == [];
    assert forall kind :: Ticks(es, kind) == [1];
  }

  /** Sessions exist: one tick of each stream, a snapshot taken before them, both ticks applied after. */
  lemma SomeSession(p: Tick, a: Tick, now: nat) returns (s: Session)
    requires p.at >= 0 && a.at >= 0
    ensures s.Valid() && s.streams == Streams([p], [a]) && s.j == 0
  {
    var streams, es := Streams([p], [a]), [Event(Packet, 1, now), Event(Aprsis, 1, now)];
    s := Session(map[], now, streams, es, 0, [], es, now);
    PairDelivered(streams, now);
    PairReachesBack(streams, now);
    assert TicksSinceEpoch(streams) && ClockSinceEpoch(es);
    assert Sent(streams, []) && Chained(streams, now, es);
  }

  lemma PrefixIsWhole(seed: Buckets, t0: int, streams: Streams, es: seq<Event>)
    requires Delivered(streams, t0, es)
    ensures var sp, sa := LastTick(es, Packet), LastTick(es, Aprsis);
            && sp <= |streams.packet| && sa <= |streams.aprsis|
            && Run(Retain(seed, Cutoff(t0)), streams, es)
            == WholeHistory(seed, streams.packet[..sp], streams.aprsis[..sa], Cutoff(Clock(t0, es)))
  {
    SelfHealing(seed, t0, streams, es);
    TicksSent(streams, es, Packet);
    TicksSent(streams, es, Aprsis);
  }

  lemma RunIsListed(m: Buckets, streams: Streams, es: seq<Event>)
    requires WellKeyed(m) && Sent(streams, es)
    ensures WellKeyed(Run(m, streams, es)) && Collect(Rows(Run(m, streams, es))) == Run(m, streams, es)
  {
    RunKeepsKeying(m, streams, es);
    CollectRows(Run(m, streams, es));
  }

  lemma SnapshotIsListed(s: Session)
    requires s.Valid()
    ensures WellKeyed(s.Snapshot()) && Collect(Rows(s.Snapshot())) == s.Snapshot()
  {
    RunIsListed(Retain(s.seed, Cutoff(s.t0)), s.streams, s.es[..s.j]);
  }

  lemma SnapshotIsWhole(s: Session)
    requires s.Valid()
    ensures var sp, sa := LastTick(s.es[..s.j], Packet), LastTick(s.es[..s.j], Aprsis);
            && sp <= |s.streams.packet| && sa <= |s.streams.aprsis|
            && s.Snapshot() == WholeHistory(s.seed, s.streams.packet[..sp], s.streams.aprsis[..sa],
                                            Cutoff(Clock(s.t0, s.es[..s.j])))
  {
    DeliveredPrefix(s.streams, s.t0, s.es, s.j);
    PrefixIsWhole(s.seed, s.t0, s.streams, s.es[..s.j]);
  }

  lemma WholeOfAll(seed: Buckets, t0: int, streams: Streams, es: seq<Event>)
    requires Delivered(streams, t0, es)
    requires LastTick(es, Packet) == |streams.packet| && LastTick(es, Aprsis) == |streams.aprsis|
    ensures Run(Retain(seed, Cutoff(t0)), streams, es)
         == WholeHistory(seed, streams.packet, streams.aprsis, Cutoff(Clock(t0, es)))
  {
    assert Upto(streams.packet, |streams.packet|) == streams.packet;
    assert Upto(streams.aprsis, |streams.aprsis|) == streams.aprsis;
    SelfHealing(seed, t0, streams, es);
  }

  lemma ServerIsWhole(s: Session)
    requires s.Valid()
    ensures s.Server() == WholeHistory(s.seed, s.streams.packet, s.streams.aprsis, Cutoff(Clock(s.t0, s.es)))
  {
    assert LastTick(s.es, Packet) == |s.streams.Of(Packet)| && LastTick(s.es, Aprsis) == |s.streams.Of(Aprsis)|;
    WholeOfAll(s.seed, s.t0, s.streams, s.es);
  }

  lemma LiveFacts(s: Session)
    requires s.Valid()
    ensures WellKeyed(s.Live())
    ensures ZeroUnlessTicked(s.Live(), Packet, s.streams.packet)
    ensures ZeroUnlessTicked(s.Live(), Aprsis, s.streams.aprsis)
  {
    RunKeepsKeying(map[], s.streams, s.pre);
    BrowserRunIsRun(map[], s.streams, s.pre);
    LiveEventsKeepZero(s.streams, s.pre, Packet);
    LiveEventsKeepZero(s.streams, s.pre, Aprsis);
  }

  lemma RunOverSnapshot(live: Buckets, snapshot: Buckets, streams: Streams, post: seq<Event>)
    requires WellKeyed(live) && WellKeyed(snapshot) && Sent(streams, post)
    requires TicksSinceEpoch(streams) && ClockSinceEpoch(post)
    ensures BrowserRun(live + snapshot, streams, post) == Run(live + snapshot, streams, post)
  {
    assert WellKeyed(live + snapshot);
    BrowserRunIsRun(live + snapshot, streams, post);
  }

  lemma BrowserIsRun(s: Session)
    requires s.Valid()
    ensures s.Browser() == Run(s.Live() + s.Snapshot(), s.streams, s.post)
  {
    SnapshotIsListed(s);
    LiveFacts(s);
    RunOverSnapshot(s.Live(), s.Snapshot(), s.streams, s.post);
  }

  lemma ValuesConverge(s: Session, k: int)
    requires s.Valid()
    requires k in s.Browser() && k in s.Server()
    ensures s.Browser()[k] == s.Server()[k]
  {
    var sp, sa := LastTick(s.es[..s.j], Packet), LastTick(s.es[..s.j], Aprsis);
    var tp, ta := Ticks(s.post, Packet), Ticks(s.post, Aprsis);
    assert ReachesBack(tp, sp) && ReachesBack(ta, sa);
    assert LastTick(s.post, Packet) == |s.streams.Of(Packet)| && LastTick(s.post, Aprsis) == |s.streams.Of(Aprsis)|;
    SnapshotIsWhole(s);
    ServerIsWhole(s);
    LiveFacts(s);
    BrowserIsRun(s);
    DeliveredPrefix(s.streams, s.t0, s.es, s.j);
    CutoffMonotone(Clock(s.t0, s.es[..s.j]), Clock(s.t0, s.es));
    BrowserBucket(s.Live() + s.Snapshot(), s.streams, s.post, s.t1, k);
    CaughtUpAt(s.seed, s.streams, s.Live(), sp, sa, Cutoff(Clock(s.t0, s.es[..s.j])),
               Cutoff(Clock(s.t0, s.es)), tp, ta, k);
  }

  //--------- presence --------

  ghost predicate Ticked(streams: Streams, k: int) {
    k in TickKeys(streams.packet) || k in TickKeys(streams.aprsis)
  }

  lemma WindowIsTicked(streams: Streams, e: Event, k: int)
    requires e.tick <= |streams.Of(e.kind)| && k in TickKeys(WindowOf(streams.Of(e.kind), e.tick))
    ensures Ticked(streams, k)
  {
    SliceKeys(streams.Of(e.kind), From(e.tick), e.tick);
  }

  /** Live events create buckets at ticked keys only. */
  lemma {:induction false} LiveKeysAreTicked(streams: Streams, es: seq<Event>, k: int)
    requires Sent(streams, es) && k in Run(map[], streams, es)
    ensures Ticked(streams, k)
  {
    if es == [] {
    } else {
      var n := |es| - 1;
      var m, e := Run(map[], streams, es[..n]), es[n];
      StepMerges(m, streams, e);
      var window := WindowOf(streams.Of(e.kind), e.tick);
      MergeTicksBase(m, e.kind, window, k);
      if k in m {
        LiveKeysAreTicked(streams, es[..n], k);
      } else {
        WindowIsTicked(streams, e, k);
      }
    }
  }

  /** A stream's keys are those before the snapshot and those of a span that reaches back to it. */
  lemma KeysSplit(h: seq<Tick>, ticks: seq<nat>, s: nat, k: int)
    requires s <= |h| && ReachesBack(ticks, s) && ticks[|ticks| - 1] == |h|
    ensures k in TickKeys(h) <==> k in TickKeys(h[..s]) || k in TickKeys(Span(h, ticks))
  {
    var from := From(ticks[0]);
    SliceKeys(h, 0, s);
    SliceKeys(h, from, |h|);
    var keys := TickKeys(h);
    assert h[0..s] == h[..s] && Span(h, ticks) == h[from..|h|];
    assert k in keys <==> k in keys[0..s] || k in keys[from..|h|] by {
      if i :| 0 <= i < |keys| && keys[i] == k {
        assert if i < s then keys[0..s][i] == k else keys[from..|h|][i - from] == k;
      }
    }
  }

  /** Which buckets the browser ends with, before its last prune. */
  lemma BrowserHas(m: Buckets, streams: Streams, post: seq<Event>, t1: int, k: int)
    requires post != [] && Chained(streams, t1, post)
    ensures k in Run(m, streams, post) <==>
            && Cutoff(Clock(t1, post)) <= k
            && (k in m || k in TickKeys(Span(streams.packet, Ticks(post, Packet)))
                || k in TickKeys(Span(streams.aprsis, Ticks(post, Aprsis))))
  {
    var hp, ha := Span(streams.packet, Ticks(post, Packet)), Span(streams.aprsis, Ticks(post, Aprsis));
    Collapse(m, t1, streams, post);
    MergeTicksBase(m, Packet, hp, k);
    MergeTicksBase(MergeTicks(m, Packet, hp), Aprsis, ha, k);
    assert k in TickKeys(hp) <==> LastIndex(TickKeys(hp), k) >= 0;
    assert k in TickKeys(ha) <==> LastIndex(TickKeys(ha), k) >= 0;
  }

  lemma SnapshotHas(s: Session, k: int)
    requires s.Valid() && Cutoff(Clock(s.t0, s.es)) <= k
    ensures var sp, sa := LastTick(s.es[..s.j], Packet), LastTick(s.es[..s.j], Aprsis);
            && sp <= |s.streams.packet| && sa <= |s.streams.aprsis|
            && (k in s.Snapshot() <==>
                  k in s.seed || k in TickKeys(s.streams.packet[..sp]) || k in TickKeys(s.streams.aprsis[..sa]))
  {
    var before := s.es[..s.j];
    SnapshotIsWhole(s);
    DeliveredPrefix(s.streams, s.t0, s.es, s.j);
    CutoffMonotone(Clock(s.t0, before), Clock(s.t0, s.es));
    WholeHistoryAt(s.seed, s.streams.packet[..LastTick(before, Packet)], s.streams.aprsis[..LastTick(before, Aprsis)],
                   Cutoff(Clock(s.t0, before)), k);
  }

  lemma ServerHas(s: Session, k: int)
    requires s.Valid() && Cutoff(Clock(s.t0, s.es)) <= k
    ensures k in s.Server() <==> k in s.seed || Ticked(s.streams, k)
  {
    ServerIsWhole(s);
    WholeHistoryAt(s.seed, s.streams.packet, s.streams.aprsis, Cutoff(Clock(s.t0, s.es)), k);
  }

  lemma LiveIsTicked(s: Session, k: int)
    requires s.Valid() && k in s.Live()
    ensures Ticked(s.streams, k)
  {
    BrowserRunIsRun(map[], s.streams, s.pre);
    LiveKeysAreTicked(s.streams, s.pre, k);
  }

  /** At a key that both clocks retain, a bucket that one side has the other has. */
  lemma PresenceConverges(s: Session, k: int)
    requires s.Valid()
    requires Cutoff(Clock(s.t0, s.es)) <= k && Cutoff(Clock(s.t1, s.post)) <= k
    ensures k in s.Browser() <==> k in s.Server()
  {
    var sp, sa := LastTick(s.es[..s.j], Packet), LastTick(s.es[..s.j], Aprsis);
    var tp, ta := Ticks(s.post, Packet), Ticks(s.post, Aprsis);
    assert ReachesBack(tp, sp) && ReachesBack(ta, sa);
    assert LastTick(s.post, Packet) == |s.streams.Of(Packet)| && LastTick(s.post, Aprsis) == |s.streams.Of(Aprsis)|;
    SnapshotHas(s, k);
    ServerHas(s, k);
    BrowserIsRun(s);
    BrowserHas(s.Live() + s.Snapshot(), s.streams, s.post, s.t1, k);
    KeysSplit(s.streams.packet, tp, sp, k);
    KeysSplit(s.streams.aprsis, ta, sa, k);
    if k in s.Live() {
      LiveIsTicked(s, k);
    }
  }

  /** The browser catches up: whatever live events it saw, lost or repeated before, and however stale
      the snapshot is that overwrote them, once a later window of each stream that reaches back to the
      snapshot has arrived, the two sides hold the same buckets at every key that both clocks retain. */
  lemma ReplicaConverges(s: Session, c: int)
    requires s.Valid()
    requires Cutoff(Clock(s.t0, s.es)) <= c && Cutoff(Clock(s.t1, s.post)) <= c
    ensures Retain(s.Browser(), c) == Retain(s.Server(), c)
  {
    var browser, server := Retain(s.Browser(), c), Retain(s.Server(), c);
    forall k
      ensures (k in browser <==> k in server) && (k in browser ==> browser[k] == server[k])
    {
      if c <= k {
        PresenceConverges(s, k);
        if k in s.Browser() {
          ValuesConverge(s, k);
        }
      }
    }
    SameMap(browser, server);
  }
}

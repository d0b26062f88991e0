/** From the counters of the two tasks to the buckets and the chart: one chain. */
module Pipeline {
  import opened Types
  import opened KeyLists
  import opened History
  import opened Healing
  import PacketStats
  import Aprsis
  import Chart
  import Mirror
  import Replica

  /** What the two tasks send, tick by tick, when their counters are in order. */
  lemma CountersMakeGoodStreams(c: PacketStats.PacketCounters, a: Aprsis.AprsisTask)
    requires c.Valid() && a.Valid()
    ensures GoodStreams(Streams(c.hist, a.hist))
  {
    var streams := Streams(c.hist, a.hist);
    assert a.State().Balance(a.gating);
    assert forall i :: 0 <= i < |a.State().hist| ==> GoodTick(Kind.Aprsis, a.State().hist[i]);
    forall kind, i | 0 <= i < |streams.Of(kind)|
      ensures GoodTick(kind, streams.Of(kind)[i])
    {
      match kind
      case Packet => assert streams.Of(kind)[i] == c.hist[i];
      case Aprsis => assert streams.Of(kind)[i] == a.State().hist[i];
    }
  }

  /** Whatever windows of the two tasks arrive, every bucket has total = direct + digipeated and
      igated + dropped <= received. */
  lemma CountersMakeGoodBuckets(c: PacketStats.PacketCounters, a: Aprsis.AprsisTask, seed: Buckets, es: seq<Event>)
    requires c.Valid() && a.Valid() && GoodBuckets(seed)
    requires Sent(Streams(c.hist, a.hist), es)
    ensures GoodBuckets(Run(seed, Streams(c.hist, a.hist), es))
  {
    CountersMakeGoodStreams(c, a);
    CrossFieldInvariant(seed, Streams(c.hist, a.hist), es);
  }

  lemma RowsAreGood(m: Buckets)
    requires GoodBuckets(m)
    ensures forall i :: 0 <= i < |Rows(m)| ==> GoodBucket(Rows(m)[i])
  {
    var keys := Ascending(m.Keys);
    assert forall i :: 0 <= i < |keys| ==> keys[i] in m.Keys;
  }

  lemma RetainKeepsGood(m: Buckets, c: int)
    requires GoodBuckets(m)
    ensures GoodBuckets(Retain(m, c))
  {
  }

  lemma PlusKeepsGood(m: Buckets, m': Buckets)
    requires GoodBuckets(m) && GoodBuckets(m')
    ensures GoodBuckets(m + m')
  {
  }

  /** One seed, run to the snapshot, laid over a live run, and run on. */
  lemma LayeredRunIsGood(streams: Streams, seed: Buckets, before: seq<Event>, pre: seq<Event>, post: seq<Event>)
    requires GoodStreams(streams) && GoodBuckets(seed)
    requires Sent(streams, before) && Sent(streams, pre) && Sent(streams, post)
    ensures GoodBuckets(Run(Run(map[], streams, pre) + Run(seed, streams, before), streams, post))
  {
    CrossFieldInvariant(map[], streams, pre);
    CrossFieldInvariant(seed, streams, before);
    PlusKeepsGood(Run(map[], streams, pre), Run(seed, streams, before));
    CrossFieldInvariant(Run(map[], streams, pre) + Run(seed, streams, before), streams, post);
  }

  /** So has every bucket of the browser, whenever its snapshot was taken and whatever it missed. */
  lemma BrowserIsGood(c: PacketStats.PacketCounters, a: Aprsis.AprsisTask, s: Replica.Session)
    requires c.Valid() && a.Valid() && s.Valid()
    requires s.streams == Streams(c.hist, a.hist) && GoodBuckets(s.seed)
    ensures GoodBuckets(s.Browser())
  {
    CountersMakeGoodStreams(c, a);
    RetainKeepsGood(s.seed, Cutoff(s.t0));
    LayeredRunIsGood(s.streams, Retain(s.seed, Cutoff(s.t0)), s.es[..s.j], s.pre, s.post);
    Replica.BrowserIsRun(s);
    Replica.BrowserRunIsRun(map[], s.streams, s.pre);
  }

  /** And every percentage drawn from them is one. */
  lemma DrawnPercentagesHold(c: PacketStats.PacketCounters, a: Aprsis.AprsisTask, s: Replica.Session, lo: int, hi: int)
    requires c.Valid() && a.Valid() && s.Valid()
    requires s.streams == Streams(c.hist, a.hist) && GoodBuckets(s.seed)
    ensures var slot := Chart.SumIn(Rows(s.Browser()), lo, hi);
            && (Chart.Percent(slot).Some? <==> Chart.SumOf(Rows(s.Browser()), Chart.ReceivedPackets, lo, hi) > 0)
            && (Chart.Percent(slot).Some? ==> 0.0 <= Chart.Percent(slot).value <= 100.0)
  {
    BrowserIsGood(c, a, s);
    RowsAreGood(s.Browser());
    Chart.PercentIsOne(Rows(s.Browser()), lo, hi);
  }

  //--------- across processes --------

  /** The windows that are merged come from good ticks of their stream. */
  ghost predicate GoodAction(a: Mirror.Action) {
    a.Merged? ==> exists h: seq<Tick> :: a.t == QuadOf(h) && forall i :: 0 <= i < |h| ==> GoodTick(a.kind, h[i])
  }

  ghost predicate GoodNode(n: Mirror.Node) {
    GoodBuckets(n.memory) && GoodBuckets(n.table)
  }

  lemma StepStaysGood(n: Mirror.Node, a: Mirror.Action)
    requires GoodNode(n) && GoodAction(a)
    ensures GoodNode(Mirror.StepNode(n, a))
  {
    match a
    case Merged(kind, t, now, upsertOk, deleteOk) =>
      var h: seq<Tick> :| t == QuadOf(h) && forall i :: 0 <= i < |h| ==> GoodTick(kind, h[i]);
      QuadMergesTicks(n.memory, kind, h);
      MergeKeepsGood(n.memory, kind, h);
      PersistKeepsGood(n.table, MergeQuad(n.memory, kind, t), now, TouchedBy(t), upsertOk, deleteOk);
    case Restarted(now, loadOk, _) =>
      RetainKeepsGood(if loadOk then n.table else map[], Cutoff(now));
    case Stopped(_) =>
      PlusKeepsGood(n.table, n.memory);
  }

  lemma PersistKeepsGood(table: Buckets, merged: Buckets, now: int, touched: set<int>, upsertOk: bool, deleteOk: bool)
    requires GoodBuckets(table) && GoodBuckets(merged)
    ensures GoodBuckets(Retain(merged, Cutoff(now)))
    ensures GoodBuckets(Mirror.Persisted(table, Retain(merged, Cutoff(now)), touched, Expired(merged, Cutoff(now)),
                                         upsertOk, deleteOk))
  {
  }

  /** Memory and table keep the bucket relations over restarts, stops and failing calls, so every process
      starts from a good seed. */
  lemma {:induction false} NodeStaysGood(n: Mirror.Node, acts: seq<Mirror.Action>)
    requires GoodNode(n) && forall i :: 0 <= i < |acts| ==> GoodAction(acts[i])
    ensures GoodNode(Mirror.RunNode(n, acts))
  {
    if acts == [] {
    } else {
      var last := |acts| - 1;
      NodeStaysGood(n, acts[..last]);
      StepStaysGood(Mirror.RunNode(n, acts[..last]), acts[last]);
    }
  }
}

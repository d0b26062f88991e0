/** The merge of sliding telemetry windows refines the merge of the whole, unbounded history. */
module Healing {
  import opened Types
  import opened KeyLists
  import opened History

  /** Points a task keeps in each series (src/aprs_is.rs and src/stream.rs trim to 100). */
  const WINDOW := 100

  /** One telemetry tick of a stream: its four series get one equally stamped point each. */
  datatype Tick = Tick(at: int, v0: nat, v1: nat, v2: nat, v3: nat)
  {
    function Value(i: nat): nat
      requires i < 4
    {
      [v0, v1, v2, v3][i]
    }
  }

  function Column(h: seq<Tick>, i: nat): (s: Series)
    requires i < 4
    ensures |s| == |h|
  {
    seq(|h|, j requires 0 <= j < |h| => DataPoint(h[j].at, h[j].Value(i)))
  }

  function QuadOf(h: seq<Tick>): Quad {
    Quad(Column(h, 0), Column(h, 1), Column(h, 2), Column(h, 3))
  }

  function From(n: nat): nat {
    if n > WINDOW then n - WINDOW else 0
  }

  /** What the series hold after the first n ticks of a stream. */
  function WindowOf(h: seq<Tick>, n: nat): seq<Tick>
    requires n <= |h|
  {
    h[From(n)..n]
  }

  function TickKeys(h: seq<Tick>): (keys: seq<int>)
    ensures |keys| == |h|
  {
    seq(|h|, i requires 0 <= i < |h| => BucketKey(h[i].at))
  }

  function Stamp(kind: Kind, b: StatBucket, t: Tick): StatBucket {
    match kind
    case Packet => b.(total := t.v0, direct := t.v1, digipeated := t.v2, errors := t.v3)
    case Aprsis => b.(igated := t.v0, dropped := t.v1, rfReceived := t.v2, reconnects := t.v3)
  }

  ghost function StampNewest(b: StatBucket, kind: Kind, h: seq<Tick>, k: int): StatBucket {
    var i := LastIndex(TickKeys(h), k);
    if i < 0 then b else Stamp(kind, b, h[i])
  }

  ghost function Stamped(m: Buckets, kind: Kind, h: seq<Tick>, k: int): StatBucket {
    StampNewest(Base(m, k), kind, h, k)
  }

  /** The declarative merge: every bucket a tick floors to holds the newest such tick. */
  ghost function MergeTicks(m: Buckets, kind: Kind, h: seq<Tick>): Buckets {
    map k | k in m.Keys + (set x | x in TickKeys(h)) :: Stamped(m, kind, h, k)
  }

  /** Pushing a point and trimming to 100 slides the window. */
  function PushTrim(s: Series, p: DataPoint): Series {
    var pushed := s + [p];
    if |pushed| > WINDOW then pushed[1..] else pushed
  }

  lemma PushTrimSlides(h: seq<Tick>, t: Tick, i: nat)
    requires i < 4
    ensures PushTrim(Column(WindowOf(h, |h|), i), DataPoint(t.at, t.Value(i)))
         == Column(WindowOf(h + [t], |h| + 1), i)
  {
    var left := PushTrim(Column(WindowOf(h, |h|), i), DataPoint(t.at, t.Value(i)));
    var right := Column(WindowOf(h + [t], |h| + 1), i);
    assert |left| == |right|;
    forall j | 0 <= j < |left|
      ensures left[j] == right[j]
    {
      var k := From(|h| + 1) + j;
      assert (h + [t])[k] == if k < |h| then h[k] else t;
      assert WindowOf(h + [t], |h| + 1)[j] == (h + [t])[k];
      assert k < |h| ==> WindowOf(h, |h|)[k - From(|h|)] == h[k];
    }
  }

  /** All four series slide together. */
  lemma PushQuad(h: seq<Tick>, t: Tick)
    ensures var q := QuadOf(WindowOf(h, |h|));
            Quad(PushTrim(q.s0, DataPoint(t.at, t.v0)), PushTrim(q.s1, DataPoint(t.at, t.v1)),
                 PushTrim(q.s2, DataPoint(t.at, t.v2)), PushTrim(q.s3, DataPoint(t.at, t.v3)))
            == QuadOf(WindowOf(h + [t], |h| + 1))
  {
    PushTrimSlides(h, t, 0);
    PushTrimSlides(h, t, 1);
    PushTrimSlides(h, t, 2);
    PushTrimSlides(h, t, 3);
  }

  //--------- algebra of the merge --------

  lemma SameBuckets(m: Buckets, m': Buckets)
    requires m.Keys == m'.Keys
    requires forall k :: k in m ==> Base(m, k) == Base(m', k)
    ensures m == m'
  {
    forall k | k in m
      ensures m[k] == m'[k]
    {
      assert Base(m, k) == Base(m', k);
    }
  }

  lemma MergeTicksBase(m: Buckets, kind: Kind, h: seq<Tick>, k: int)
    ensures Base(MergeTicks(m, kind, h), k) == Stamped(m, kind, h, k)
    ensures k in MergeTicks(m, kind, h) <==> k in m || LastIndex(TickKeys(h), k) >= 0
  {
  }

  lemma ColumnMergeBase(m: Buckets, h: seq<Tick>, i: nat, f: Field, k: int)
    requires i < 4
    ensures var r, last := Merge(m, Column(h, i), f), LastIndex(TickKeys(h), k);
            && Base(r, k) == (if last < 0 then Base(m, k) else Base(m, k).Set(f, h[last].Value(i)))
            && (k in r <==> k in m || last >= 0)
  {
    assert KeysOf(Column(h, i)) == TickKeys(h);
    assert k in TickKeys(h) <==> LastIndex(TickKeys(h), k) >= 0;
  }

  lemma SetFour(kind: Kind, b: StatBucket, t: Tick)
    ensures b.Set(OwnedField(kind, 0), t.v0).Set(OwnedField(kind, 1), t.v1)
             .Set(OwnedField(kind, 2), t.v2).Set(OwnedField(kind, 3), t.v3) == Stamp(kind, b, t)
  {
  }

  lemma QuadMergeBase(m: Buckets, kind: Kind, h: seq<Tick>, k: int)
    ensures Base(MergeQuad(m, kind, QuadOf(h)), k) == Stamped(m, kind, h, k)
    ensures k in MergeQuad(m, kind, QuadOf(h)) <==> k in m || LastIndex(TickKeys(h), k) >= 0
  {
    var m0 := Merge(m, Column(h, 0), OwnedField(kind, 0));
    var m1 := Merge(m0, Column(h, 1), OwnedField(kind, 1));
    var m2 := Merge(m1, Column(h, 2), OwnedField(kind, 2));
    ColumnMergeBase(m, h, 0, OwnedField(kind, 0), k);
    ColumnMergeBase(m0, h, 1, OwnedField(kind, 1), k);
    ColumnMergeBase(m1, h, 2, OwnedField(kind, 2), k);
    ColumnMergeBase(m2, h, 3, OwnedField(kind, 3), k);
    var i := LastIndex(TickKeys(h), k);
    if i >= 0 {
      SetFour(kind, Base(m, k), h[i]);
    }
  }

  /** Merging the four equally stamped series field by field stamps whole ticks. */
  lemma QuadMergesTicks(m: Buckets, kind: Kind, h: seq<Tick>)
    ensures MergeQuad(m, kind, QuadOf(h)) == MergeTicks(m, kind, h)
  {
    forall k
      ensures Base(MergeQuad(m, kind, QuadOf(h)), k) == Base(MergeTicks(m, kind, h), k)
      ensures k in MergeQuad(m, kind, QuadOf(h)) <==> k in MergeTicks(m, kind, h)
    {
      QuadMergeBase(m, kind, h, k);
      MergeTicksBase(m, kind, h, k);
    }
    SameBuckets(MergeQuad(m, kind, QuadOf(h)), MergeTicks(m, kind, h));
  }

  lemma SliceKeys(h: seq<Tick>, a: nat, n: nat)
    requires a <= n <= |h|
    ensures TickKeys(h[a..n]) == TickKeys(h)[a..n]
  {
  }

  lemma StampTwice(kind: Kind, b: StatBucket, t: Tick, t': Tick)
    ensures Stamp(kind, Stamp(kind, b, t), t') == Stamp(kind, b, t')
  {
  }

  lemma SlicesOf(h: seq<Tick>, a: nat, b: nat, n: nat, n': nat, k: int)
    requires a <= b <= n <= n' <= |h|
    ensures var late, early := LastIndex(TickKeys(h[b..n']), k), LastIndex(TickKeys(h[a..n]), k);
            LastIndex(TickKeys(h[a..n']), k) == if late >= 0 then b - a + late else early
  {
    SliceKeys(h, a, n);
    SliceKeys(h, b, n');
    SliceKeys(h, a, n');
    LastAcross(TickKeys(h), a, b, n, n', k);
  }

  lemma AbsorbAt(bucket: StatBucket, kind: Kind, h: seq<Tick>, a: nat, b: nat, n: nat, n': nat, k: int)
    requires a <= b <= n <= n' <= |h|
    ensures StampNewest(StampNewest(bucket, kind, h[a..n], k), kind, h[b..n'], k)
         == StampNewest(bucket, kind, h[a..n'], k)
  {
    SlicesOf(h, a, b, n, n', k);
    var early, late := LastIndex(TickKeys(h[a..n]), k), LastIndex(TickKeys(h[b..n']), k);
    if late >= 0 && early >= 0 {
      StampTwice(kind, bucket, h[a..n][early], h[b..n'][late]);
    }
  }

  /** Overlapping windows merge to what their union merges to. */
  lemma Absorb(m: Buckets, kind: Kind, h: seq<Tick>, a: nat, b: nat, n: nat, n': nat)
    requires a <= b <= n <= n' <= |h|
    ensures MergeTicks(MergeTicks(m, kind, h[a..n]), kind, h[b..n']) == MergeTicks(m, kind, h[a..n'])
  {
    var m' := MergeTicks(m, kind, h[a..n]);
    var left, right := MergeTicks(m', kind, h[b..n']), MergeTicks(m, kind, h[a..n']);
    forall k
      ensures Base(left, k) == Base(right, k)
      ensures k in left <==> k in right
    {
      MergeTicksBase(m, kind, h[a..n], k);
      MergeTicksBase(m', kind, h[b..n'], k);
      MergeTicksBase(m, kind, h[a..n'], k);
      AbsorbAt(Base(m, k), kind, h, a, b, n, n', k);
      SlicesOf(h, a, b, n, n', k);
    }
    SameBuckets(left, right);
  }

  /** The two streams own disjoint fields, so their merges commute. */
  lemma Commute(m: Buckets, hp: seq<Tick>, ha: seq<Tick>)
    ensures MergeTicks(MergeTicks(m, Aprsis, ha), Packet, hp) == MergeTicks(MergeTicks(m, Packet, hp), Aprsis, ha)
  {
    var mp, ma := MergeTicks(m, Packet, hp), MergeTicks(m, Aprsis, ha);
    var left, right := MergeTicks(ma, Packet, hp), MergeTicks(mp, Aprsis, ha);
    forall k
      ensures Base(left, k) == Base(right, k)
      ensures k in left <==> k in right
    {
      MergeTicksBase(m, Packet, hp, k);
      MergeTicksBase(m, Aprsis, ha, k);
      MergeTicksBase(ma, Packet, hp, k);
      MergeTicksBase(mp, Aprsis, ha, k);
    }
    SameBuckets(left, right);
  }

  /** Buckets pruned before a merge do not matter after a prune that is no older. */
  lemma PruneThrough(m: Buckets, kind: Kind, h: seq<Tick>, c: int, c': int)
    requires c <= c'
    ensures Retain(MergeTicks(Retain(m, c), kind, h), c') == Retain(MergeTicks(m, kind, h), c')
  {
  }

  //--------- runs of the fan-out task --------

  datatype Streams = Streams(packet: seq<Tick>, aprsis: seq<Tick>)
  {
    function Of(kind: Kind): seq<Tick> {
      match kind
      case Packet => packet
      case Aprsis => aprsis
    }
  }

  /** A consumer processes the window that a stream sent at its tick-th tick, at clock now. */
  datatype Event = Event(kind: Kind, tick: nat, now: int)

  ghost predicate Sent(streams: Streams, es: seq<Event>) {
    forall i :: 0 <= i < |es| ==> es[i].tick <= |streams.Of(es[i].kind)|
  }

  /** One consumer step: merge the window, then prune. */
  ghost function Step(m: Buckets, streams: Streams, e: Event): Buckets
    requires e.tick <= |streams.Of(e.kind)|
  {
    Retain(MergeQuad(m, e.kind, QuadOf(WindowOf(streams.Of(e.kind), e.tick))), Cutoff(e.now))
  }

  ghost function Run(m: Buckets, streams: Streams, es: seq<Event>): Buckets
    requires Sent(streams, es)
  {
    if es == [] then m
    else
      var n := |es| - 1;
      Step(Run(m, streams, es[..n]), streams, es[n])
  }

  /** The ticks of one stream among the events, in order of arrival. */
  ghost function Ticks(es: seq<Event>, kind: Kind): seq<nat> {
    if es == [] then []
    else
      var n := |es| - 1;
      Ticks(es[..n], kind) + if es[n].kind == kind then [es[n].tick] else []
  }

  ghost function LastTick(es: seq<Event>, kind: Kind): nat {
    var ticks := Ticks(es, kind);
    if ticks == [] then 0 else ticks[|ticks| - 1]
  }

  function Clock(start: int, es: seq<Event>): int {
    if es == [] then start else es[|es| - 1].now
  }

  /** Arrivals in order, with at most 99 ticks missed between two of them. */
  ghost predicate Gapless(ticks: seq<nat>) {
    forall i :: 0 < i < |ticks| ==> ticks[i - 1] < ticks[i] && ticks[i] - ticks[i - 1] - 1 <= 99
  }

  /** The clock does not run backwards, and each stream arrives without a gap of 100 ticks. */
  ghost predicate Chained(streams: Streams, start: int, es: seq<Event>) {
    && Sent(streams, es)
    && (forall i {:trigger es[i]} :: 0 <= i < |es| ==> Clock(start, es[..i]) <= es[i].now)
    && Gapless(Ticks(es, Packet)) && Gapless(Ticks(es, Aprsis))
  }

  /** Also at most 99 ticks are missed before the first arrival. */
  ghost predicate Delivered(streams: Streams, start: int, es: seq<Event>) {
    && Chained(streams, start, es)
    && forall kind :: Ticks(es, kind) != [] ==> 0 < Ticks(es, kind)[0] && Ticks(es, kind)[0] - 1 <= 99
  }

  /** What the windows received from a stream span together. */
  ghost function Span(h: seq<Tick>, ticks: seq<nat>): seq<Tick> {
    if ticks == [] then []
    else
      var from, upto := From(ticks[0]), ticks[|ticks| - 1];
      if from <= upto <= |h| then h[from..upto] else []
  }

  lemma {:induction false} TicksSent(streams: Streams, es: seq<Event>, kind: Kind)
    requires Sent(streams, es)
    ensures forall i :: 0 <= i < |Ticks(es, kind)| ==> Ticks(es, kind)[i] <= |streams.Of(kind)|
  {
    if es == [] {
    } else {
      TicksSent(streams, es[..|es| - 1], kind);
    }
  }

  lemma {:induction false} GaplessAscends(ticks: seq<nat>)
    requires Gapless(ticks) && ticks != []
    ensures ticks[0] <= ticks[|ticks| - 1]
  {
    if |ticks| == 1 {
    } else {
      GaplessAscends(ticks[..|ticks| - 1]);
    }
  }

  lemma ChainedPrefix(streams: Streams, start: int, es: seq<Event>)
    requires es != [] && Chained(streams, start, es)
    ensures Chained(streams, start, es[..|es| - 1])
  {
    var n := |es| - 1;
    assert forall i {:trigger es[i]} :: 0 <= i < n ==> es[..n][i] == es[i] && es[..n][..i] == es[..i];
    forall kind
      ensures Gapless(Ticks(es[..n], kind))
    {
      assert Gapless(Ticks(es, kind));
      assert forall i :: 0 <= i < |Ticks(es[..n], kind)| ==> Ticks(es[..n], kind)[i] == Ticks(es, kind)[i];
    }
  }

  /** One more window of a stream extends the span of that stream. */
  lemma SpanGrows(m: Buckets, kind: Kind, h: seq<Tick>, ticks: seq<nat>, tick: nat)
    requires Gapless(ticks + [tick])
    requires tick <= |h| && forall i :: 0 <= i < |ticks| ==> ticks[i] <= |h|
    ensures MergeTicks(MergeTicks(m, kind, Span(h, ticks)), kind, WindowOf(h, tick))
         == MergeTicks(m, kind, Span(h, ticks + [tick]))
  {
    if ticks == [] {
      NothingMerged(m, kind);
    } else {
      var last := |ticks| - 1;
      assert forall i :: 0 <= i <= last ==> (ticks + [tick])[i] == ticks[i];
      assert (ticks + [tick])[last + 1] == tick;
      GaplessAscends(ticks);
      Absorb(m, kind, h, From(ticks[0]), From(tick), ticks[last], tick);
    }
  }

  lemma NothingMerged(m: Buckets, kind: Kind)
    ensures MergeTicks(m, kind, []) == m
  {
  }

  ghost function MergeSpans(m: Buckets, streams: Streams, tp: seq<nat>, ta: seq<nat>): Buckets {
    MergeTicks(MergeTicks(m, Packet, Span(streams.packet, tp)), Aprsis, Span(streams.aprsis, ta))
  }

  lemma SpansGrow(m: Buckets, streams: Streams, tp: seq<nat>, ta: seq<nat>, e: Event)
    requires e.tick <= |streams.Of(e.kind)|
    requires Gapless(if e.kind == Packet then tp + [e.tick] else ta + [e.tick])
    requires forall i :: 0 <= i < |tp| ==> tp[i] <= |streams.packet|
    requires forall i :: 0 <= i < |ta| ==> ta[i] <= |streams.aprsis|
    ensures MergeTicks(MergeSpans(m, streams, tp, ta), e.kind, WindowOf(streams.Of(e.kind), e.tick))
         == MergeSpans(m, streams, if e.kind == Packet then tp + [e.tick] else tp,
                       if e.kind == Aprsis then ta + [e.tick] else ta)
  {
    var m' := MergeTicks(m, Packet, Span(streams.packet, tp));
    if e.kind == Packet {
      Commute(m', WindowOf(streams.packet, e.tick), Span(streams.aprsis, ta));
      SpanGrows(m, Packet, streams.packet, tp, e.tick);
    } else {
      SpanGrows(m', Aprsis, streams.aprsis, ta, e.tick);
    }
  }

  lemma StepMerges(m: Buckets, streams: Streams, e: Event)
    requires e.tick <= |streams.Of(e.kind)|
    ensures Step(m, streams, e)
         == Retain(MergeTicks(m, e.kind, WindowOf(streams.Of(e.kind), e.tick)), Cutoff(e.now))
  {
    QuadMergesTicks(m, e.kind, WindowOf(streams.Of(e.kind), e.tick));
  }

  lemma CutoffMonotone(a: int, b: int)
    requires a <= b
    ensures Cutoff(a) <= Cutoff(b)
  {
  }

  lemma TicksSnoc(es: seq<Event>, kind: Kind)
    requires es != []
    ensures var n := |es| - 1;
            Ticks(es, kind) == if es[n].kind == kind then Ticks(es[..n], kind) + [es[n].tick] else Ticks(es[..n], kind)
  {
  }

  /** A chained run merges each stream's span once and prunes once. */
  lemma {:induction false} Collapse(m: Buckets, start: int, streams: Streams, es: seq<Event>)
    requires es != [] && Chained(streams, start, es)
    ensures Run(m, streams, es)
         == Retain(MergeSpans(m, streams, Ticks(es, Packet), Ticks(es, Aprsis)), Cutoff(Clock(start, es)))
  {
    var n := |es| - 1;
    var es', e := es[..n], es[n];
    var tp, ta := Ticks(es', Packet), Ticks(es', Aprsis);
    ChainedPrefix(streams, start, es);
    TicksSent(streams, es', Packet);
    TicksSent(streams, es', Aprsis);
    StepMerges(Run(m, streams, es'), streams, e);
    SpansGrow(m, streams, tp, ta, e);
    TicksSnoc(es, Packet);
    TicksSnoc(es, Aprsis);
    if es' == [] {
      NothingMerged(m, Packet);
      NothingMerged(m, Aprsis);
    } else {
      Collapse(m, start, streams, es');
      CutoffMonotone(Clock(start, es'), e.now);
      PruneThrough(MergeSpans(m, streams, tp, ta), e.kind, WindowOf(streams.Of(e.kind), e.tick),
                   Cutoff(Clock(start, es')), Cutoff(e.now));
    }
  }

  /** The buckets that the seed and every tick so far determine, pruned once. */
  ghost function WholeHistory(seed: Buckets, hp: seq<Tick>, ha: seq<Tick>, cutoff: int): Buckets {
    Retain(MergeTicks(MergeTicks(seed, Packet, hp), Aprsis, ha), cutoff)
  }

  function Upto(h: seq<Tick>, n: nat): seq<Tick> {
    if n <= |h| then h[..n] else h
  }

  lemma SpanFromStart(h: seq<Tick>, ticks: seq<nat>)
    requires ticks != [] && ticks[0] <= WINDOW && ticks[0] <= ticks[|ticks| - 1] <= |h|
    ensures Span(h, ticks) == h[..ticks[|ticks| - 1]]
  {
  }

  lemma SpanIsPrefix(streams: Streams, start: int, es: seq<Event>, kind: Kind)
    requires Delivered(streams, start, es)
    ensures Span(streams.Of(kind), Ticks(es, kind)) == Upto(streams.Of(kind), LastTick(es, kind))
  {
    var ticks := Ticks(es, kind);
    TicksSent(streams, es, kind);
    if ticks != [] {
      assert Gapless(ticks);
      GaplessAscends(ticks);
      SpanFromStart(streams.Of(kind), ticks);
    }
  }

  /** Sliding windows lose nothing: as long as no more than 99 consecutive ticks of a stream are
      missed, the store always equals the merge of the whole history, pruned at the last clock. */
  lemma SelfHealing(seed: Buckets, start: int, streams: Streams, es: seq<Event>)
    requires Delivered(streams, start, es)
    ensures Run(Retain(seed, Cutoff(start)), streams, es)
         == WholeHistory(seed, Upto(streams.packet, LastTick(es, Packet)),
                         Upto(streams.aprsis, LastTick(es, Aprsis)), Cutoff(Clock(start, es)))
  {
    SpanIsPrefix(streams, start, es, Packet);
    SpanIsPrefix(streams, start, es, Aprsis);
    var c, c' := Cutoff(start), Cutoff(Clock(start, es));
    if es == [] {
      NothingMerged(seed, Packet);
      NothingMerged(seed, Aprsis);
    } else {
      ClockForward(streams, start, es);
      CutoffMonotone(start, Clock(start, es));
      Collapse(Retain(seed, c), start, streams, es);
      PruneThroughBoth(seed, Span(streams.packet, Ticks(es, Packet)), Span(streams.aprsis, Ticks(es, Aprsis)), c, c');
    }
  }

  lemma PruneThroughBoth(m: Buckets, hp: seq<Tick>, ha: seq<Tick>, c: int, c': int)
    requires c <= c'
    ensures Retain(MergeTicks(MergeTicks(Retain(m, c), Packet, hp), Aprsis, ha), c')
         == Retain(MergeTicks(MergeTicks(m, Packet, hp), Aprsis, ha), c')
  {
    var left, right := MergeTicks(Retain(m, c), Packet, hp), MergeTicks(m, Packet, hp);
    PruneThrough(m, Packet, hp, c, c');
    PruneThrough(left, Aprsis, ha, c', c');
    PruneThrough(right, Aprsis, ha, c', c');
  }

  lemma {:induction false} ClockForward(streams: Streams, start: int, es: seq<Event>)
    requires Chained(streams, start, es)
    ensures start <= Clock(start, es)
  {
    if es == [] {
    } else {
      ChainedPrefix(streams, start, es);
      ClockForward(streams, start, es[..|es| - 1]);
    }
  }

  /** Which ticks were missed makes no difference: two deliveries of the same streams that end at
      the same ticks and clock, one of which may be the delivery of every tick, end in the same store. */
  lemma MissedTicksDoNotMatter(seed: Buckets, start: int, streams: Streams, es: seq<Event>, all: seq<Event>)
    requires Delivered(streams, start, es) && Delivered(streams, start, all)
    requires LastTick(es, Packet) == LastTick(all, Packet) && LastTick(es, Aprsis) == LastTick(all, Aprsis)
    requires Clock(start, es) == Clock(start, all)
    ensures Run(Retain(seed, Cutoff(start)), streams, es) == Run(Retain(seed, Cutoff(start)), streams, all)
  {
    SelfHealing(seed, start, streams, es);
    SelfHealing(seed, start, streams, all);
  }

  /** Does bucket b hold the four values of tick t of this stream? */
  ghost predicate Holds(kind: Kind, b: StatBucket, t: Tick) {
    match kind
    case Packet => b.total == t.v0 && b.direct == t.v1 && b.digipeated == t.v2 && b.errors == t.v3
    case Aprsis => b.igated == t.v0 && b.dropped == t.v1 && b.rfReceived == t.v2 && b.reconnects == t.v3
  }

  /** Is field for field what the stream's newest tick at k says, or the seed if there is none. */
  ghost predicate NewestOf(kind: Kind, seed: Buckets, h: seq<Tick>, k: int, b: StatBucket) {
    var i := LastIndex(TickKeys(h), k);
    Holds(kind, b, if i >= 0 then h[i] else ContentOf(kind, Base(seed, k)))
  }

  /** Field by field: a bucket is retained exactly when it was seeded or named by some tick, and is
      not expired; and it holds, for each stream, that stream's newest tick that floors to it. */
  lemma BucketHoldsNewest(seed: Buckets, start: int, streams: Streams, es: seq<Event>, k: int)
    requires Delivered(streams, start, es)
    ensures var m := Run(Retain(seed, Cutoff(start)), streams, es);
            var hp := Upto(streams.packet, LastTick(es, Packet));
            var ha := Upto(streams.aprsis, LastTick(es, Aprsis));
            && (k in m <==> Cutoff(Clock(start, es)) <= k && (k in seed || k in TickKeys(hp) || k in TickKeys(ha)))
            && (k in m ==> NewestOf(Packet, seed, hp, k, m[k]) && NewestOf(Aprsis, seed, ha, k, m[k]))
  {
    SelfHealing(seed, start, streams, es);
    var hp := Upto(streams.packet, LastTick(es, Packet));
    var ha := Upto(streams.aprsis, LastTick(es, Aprsis));
    WholeHistoryAt(seed, hp, ha, Cutoff(Clock(start, es)), k);
  }

  lemma WholeHistoryAt(seed: Buckets, hp: seq<Tick>, ha: seq<Tick>, c: int, k: int)
    ensures var m := WholeHistory(seed, hp, ha, c);
            && (k in m <==> c <= k && (k in seed || k in TickKeys(hp) || k in TickKeys(ha)))
            && (k in m ==> NewestOf(Packet, seed, hp, k, m[k]) && NewestOf(Aprsis, seed, ha, k, m[k]))
            && (k in m ==> m[k].ts == Base(seed, k).ts)
  {
  }

  function ContentOf(kind: Kind, b: StatBucket): Tick {
    match kind
    case Packet => Tick(b.ts, b.total, b.direct, b.digipeated, b.errors)
    case Aprsis => Tick(b.ts, b.igated, b.dropped, b.rfReceived, b.reconnects)
  }

  /** The bound is tight: miss 100 ticks and a tick with a bucket of its own is gone for good. */
  lemma HundredMissedLosesATick(h: seq<Tick>, now: int)
    requires |h| == 101 && BucketKey(h[0].at) !in TickKeys(h[1..])
    requires Cutoff(now) <= BucketKey(h[0].at)
    ensures var streams := Streams(h, []);
            var k := BucketKey(h[0].at);
            && k !in Run(map[], streams, [Event(Packet, 101, now)])
            && k in WholeHistory(map[], h, [], Cutoff(now))
  {
    var streams, k := Streams(h, []), BucketKey(h[0].at);
    assert WindowOf(h, 101) == h[1..];
    var es := [Event(Packet, 101, now)];
    assert es[..0] == [];
    QuadMergesTicks(map[], Packet, h[1..]);
    assert k !in MergeTicks(map[], Packet, h[1..]);
    assert TickKeys(h)[0] == k;
    assert k in MergeTicks(map[], Packet, h);
  }

  //--------- cross-field invariant --------

  ghost predicate GoodTick(kind: Kind, t: Tick) {
    match kind
    case Packet => t.v0 == t.v1 + t.v2
    case Aprsis => t.v0 + t.v1 <= t.v2
  }

  /** Everything heard was heard direct or digipeated; nothing is gated or dropped unreceived. */
  ghost predicate GoodBucket(b: StatBucket) {
    b.total == b.direct + b.digipeated && b.igated + b.dropped <= b.rfReceived
  }

  ghost predicate GoodBuckets(m: Buckets) {
    forall k :: k in m ==> GoodBucket(m[k])
  }

  ghost predicate GoodStreams(streams: Streams) {
    forall kind, i :: 0 <= i < |streams.Of(kind)| ==> GoodTick(kind, streams.Of(kind)[i])
  }

  lemma MergeKeepsGood(m: Buckets, kind: Kind, h: seq<Tick>)
    requires GoodBuckets(m)
    requires forall i :: 0 <= i < |h| ==> GoodTick(kind, h[i])
    ensures GoodBuckets(MergeTicks(m, kind, h))
  {
  }

  /** Every bucket of every reachable store relates its fields as the per-packet counters do, no
      matter which ticks were lost or how the clock moved. */
  lemma {:induction false} CrossFieldInvariant(seed: Buckets, streams: Streams, es: seq<Event>)
    requires GoodBuckets(seed) && GoodStreams(streams) && Sent(streams, es)
    ensures GoodBuckets(Run(seed, streams, es))
  {
    if es == [] {
    } else {
      var n := |es| - 1;
      var m := Run(seed, streams, es[..n]);
      CrossFieldInvariant(seed, streams, es[..n]);
      var h := streams.Of(es[n].kind);
      var window := WindowOf(h, es[n].tick);
      QuadMergesTicks(m, es[n].kind, window);
      assert forall i :: 0 <= i < |h| ==> GoodTick(es[n].kind, streams.Of(es[n].kind)[i]);
      MergeKeepsGood(m, es[n].kind, window);
    }
  }
}

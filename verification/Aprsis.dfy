/** The APRS-IS task as a state machine over packets, telemetry ticks, report ticks, reconnects and
    restarts (src/aprs_is.rs). */
module Aprsis {
  import opened Types
  import opened Gate
  import opened Dedup
  import opened StoreTables
  import opened Healing
  import opened Quadratic

  /** What becomes of one received packet. */
  datatype Verdict =
    | NotGating
    | Filtered(reason: DropReason)
    | Duplicate
    | Refused
    | Gated(line: Bytes)
    | WriteLost(line: Bytes)
  {
    predicate IsDrop() {
      Filtered? || Duplicate? || Refused?
    }
  }

  /** The decision, read off the full log of gated packets. */
  ghost function Decide(log: seq<Entry>, gating: bool, p: RtpPacket, callsign: Bytes,
                        age: nat, now: int, writeOk: bool): Verdict {
    if !gating then NotGating
    else if DropPacket(p, age).Some? then Filtered(DropPacket(p, age).value)
    else if RecentlyGated(log, DedupKey(p), now) then Duplicate
    else match Wire(p, callsign)
      case None => Refused
      case Some(line) => if writeOk then Gated(line) else WriteLost(line)
  }

  /** A packet is gated exactly when gating is on, the policy finds it fit, the log holds no equal one
      less than 30 s old, its line is one line, and the write succeeds. */
  lemma GatedIff(log: seq<Entry>, gating: bool, p: RtpPacket, callsign: Bytes, age: nat, now: int, writeOk: bool)
    ensures Decide(log, gating, p, callsign, age, now, writeOk).Gated? <==>
            && gating && Fit(p, age) && !RecentlyGated(log, DedupKey(p), now) && writeOk
            && !(HasBreak(p.source) || HasBreak(p.destination) || HasBreak(p.path) || HasBreak(callsign))
            && !BreakInside(p.infoBytes)
  {
    PassesIffFit(p, age);
    WireRefusedIff(p, callsign);
    EmbeddedIff(p.infoBytes);
  }

  /** Every other verdict, likewise on the fields: a dropped packet names the first rule it breaks. */
  lemma VerdictIff(log: seq<Entry>, gating: bool, p: RtpPacket, callsign: Bytes, age: nat, now: int, writeOk: bool)
    ensures var v, stale := Decide(log, gating, p, callsign, age, now, writeOk), age > 30_000_000_000;
            var fit, twin := gating && Fit(p, age), RecentlyGated(log, DedupKey(p), now);
            var broken := HasBreak(p.source) || HasBreak(p.destination) || HasBreak(p.path) || HasBreak(callsign)
                          || BreakInside(p.infoBytes);
            && (v == NotGating <==> !gating)
            && (v == Filtered(MalformedField) <==> gating && Malformed(p))
            && (v == Filtered(Stale) <==> gating && !Malformed(p) && stale)
            && (v == Filtered(RfOnly) <==> gating && !Malformed(p) && !stale && p.rfOnly)
            && (v == Filtered(GenericQuery) <==> gating && !Malformed(p) && !stale && !p.rfOnly && p.ptype == '?')
            && (v == Filtered(ThirdPartyInternet) <==>
                  gating && !Malformed(p) && !stale && !p.rfOnly && FromInternet(p))
            && (v == Duplicate <==> fit && twin)
            && (v == Refused <==> fit && !twin && broken)
            && (v.Gated? || v.WriteLost? <==> fit && !twin && !broken)
            && (v.Gated? ==> writeOk && v.line == RxLine(p, callsign) + [13, 10])
            && (v.WriteLost? ==> !writeOk && v.line == RxLine(p, callsign) + [13, 10])
  {
    PassesIffFit(p, age);
    ReasonIsFirstBroken(p, age);
    WireRefusedIff(p, callsign);
    EmbeddedIff(p.infoBytes);
  }

  function One(b: bool): nat {
    if b then 1 else 0
  }

  /** The one reason a verdict adds to, if it is a drop. */
  function Attributed(d: Drops, v: Verdict): Drops {
    match v
    case Filtered(Stale) => d.(stale := d.stale + 1)
    case Filtered(RfOnly) => d.(rfOnly := d.rfOnly + 1)
    case Filtered(GenericQuery) => d.(query := d.query + 1)
    case Filtered(ThirdPartyInternet) => d.(thirdParty := d.thirdParty + 1)
    case Filtered(SatelliteDirect) => d.(satellite := d.satellite + 1)
    case Filtered(MalformedField) => d.(malformed := d.malformed + 1)
    case Refused => d.(malformed := d.malformed + 1)
    case Duplicate => d.(duplicate := d.duplicate + 1)
    case _ => d
  }

  lemma AttributedOnce(d: Drops, v: Verdict)
    ensures Attributed(d, v).Sum() == d.Sum() + One(v.IsDrop())
  {
  }

  /** The lifetime counters after one packet: received, and gated or dropped for one reason. */
  function Counted(l: AprsisLifetime, v: Verdict): AprsisLifetime {
    AprsisLifetime(l.rfReceived + 1, l.packetsIgated + One(v.Gated?), l.packetsDropped + One(v.IsDrop()),
                   l.reconnects, Attributed(l.drops, v), l.lagged)
  }

  /** One column of the telemetry ticks, summed. */
  function SumColumn(h: seq<Tick>, i: nat): nat
    requires i < 4
  {
    if h == [] then 0 else SumColumn(h[..|h| - 1], i) + h[|h| - 1].Value(i)
  }

  lemma {:induction false} SumColumnSplits(h: seq<Tick>, n: nat, i: nat)
    requires n <= |h| && i < 4
    ensures SumColumn(h, i) == SumColumn(h[..n], i) + SumColumn(h[n..], i)
  {
    if n == |h| {
      assert h[..n] == h && h[n..] == [];
    } else {
      var m := |h| - 1;
      SumColumnSplits(h[..m], n, i);
      assert h[..m][..n] == h[..n] && h[n..][..m - n] == h[..m][n..];
      assert h[n..][|h[n..]| - 1] == h[m];
    }
  }

  function SeriesSum(s: Series): nat {
    if s == [] then 0 else SeriesSum(s[..|s| - 1]) + s[|s| - 1].value
  }

  lemma {:induction false} SeriesSumIsColumn(h: seq<Tick>, i: nat)
    requires i < 4
    ensures SeriesSum(Column(h, i)) == SumColumn(h, i)
  {
    if h == [] {
    } else {
      var n := |h| - 1;
      SeriesSumIsColumn(h[..n], i);
      assert Column(h, i)[..n] == Column(h[..n], i);
    }
  }

  /** The counters of the open statistics interval, reset by every tick. */
  datatype Interval = Interval(igated: nat, dropped: nat, rf: nat, reconnects: nat)
  {
    function TickAt(now: int): Tick {
      Tick(now, igated, dropped, rf, reconnects)
    }

    function Count(v: Verdict): Interval {
      Interval(igated + One(v.Gated?), dropped + One(v.IsDrop()), rf + 1, reconnects)
    }
  }

  const NEW_INTERVAL := Interval(0, 0, 0, 0)

  /** The counters of the open report, reset when a report has been written. */
  datatype Reported = Reported(rf: nat, dropped: nat, direct: nat, satellite: nat, other: nat)
  {
    function Count(p: RtpPacket, v: Verdict): Reported {
      Reported(rf + 1, dropped + One(v.IsDrop()), direct + One(p.heardDirect),
               satellite + One(p.isSatellite), other + One(p.frequencyHz != 144_390_000))
    }
  }

  const NEW_REPORT := Reported(0, 0, 0, 0, 0)

  /** The books of one process run: what it loaded, its lifetime totals, every past tick, the open
      interval and report, and the packets whose write failed. */
  datatype Books = Books(start: AprsisLifetime, lifetime: AprsisLifetime, hist: seq<Tick>,
                         open: Interval, report: Reported, lost: nat)
  {
    /** Every lifetime total is its starting value, plus all past ticks, plus the open interval. */
    ghost predicate Conserved() {
      && lifetime.packetsIgated == start.packetsIgated + SumColumn(hist, 0) + open.igated
      && lifetime.packetsDropped == start.packetsDropped + SumColumn(hist, 1) + open.dropped
      && lifetime.rfReceived == start.rfReceived + SumColumn(hist, 2) + open.rf
      && lifetime.reconnects == start.reconnects + SumColumn(hist, 3) + open.reconnects
    }

    /** Every drop has one reason; with gating on, every packet is gated, dropped or lost. */
    ghost predicate Accounted(gating: bool) {
      && lifetime.packetsDropped == lifetime.drops.Sum()
      && (gating ==>
            lifetime.rfReceived - start.rfReceived
            == (lifetime.packetsIgated - start.packetsIgated) + (lifetime.packetsDropped - start.packetsDropped) + lost)
      && open.igated + open.dropped <= open.rf
      && (forall i :: 0 <= i < |hist| ==> GoodTick(Kind.Aprsis, hist[i]))
      && report.dropped <= report.rf && report.direct <= report.rf
    }

    ghost predicate Balance(gating: bool) {
      Conserved() && Accounted(gating)
    }

    function Packet(p: RtpPacket, v: Verdict): Books {
      this.(lifetime := Counted(lifetime, v), open := open.Count(v), report := report.Count(p, v),
            lost := lost + One(v.WriteLost?))
    }

    function Reconnect(): Books {
      this.(lifetime := lifetime.(reconnects := lifetime.reconnects + 1),
            open := open.(reconnects := open.reconnects + 1))
    }

    function Lag(n: nat): Books {
      this.(lifetime := lifetime.(lagged := lifetime.lagged + n))
    }

    function Tick(now: int): Books {
      this.(hist := hist + [open.TickAt(now)], open := NEW_INTERVAL)
    }
  }

  /** The books of a process that starts from these totals. */
  function NewBooks(l: AprsisLifetime): Books {
    Books(l, l, [], NEW_INTERVAL, NEW_REPORT, 0)
  }

  lemma NewBooksBalance(l: AprsisLifetime, gating: bool)
    requires l.packetsDropped == l.drops.Sum()
    ensures NewBooks(l).Balance(gating)
  {
  }

  /** Whatever the verdict, one packet keeps the books balanced. */
  lemma PacketBalances(b: Books, gating: bool, p: RtpPacket, v: Verdict)
    requires b.Balance(gating) && (v.NotGating? <==> !gating)
    ensures b.Packet(p, v).Balance(gating)
  {
  }

  /** Closing the interval moves its counts into the history and loses none. */
  lemma TickBalances(b: Books, gating: bool, now: int)
    requires b.Balance(gating)
    ensures b.Tick(now).Balance(gating)
  {
  }

  lemma ReconnectBalances(b: Books, gating: bool)
    requires b.Balance(gating)
    ensures b.Reconnect().Balance(gating)
  {
  }

  lemma LagBalances(b: Books, gating: bool, n: nat)
    requires b.Balance(gating)
    ensures b.Lag(n).Balance(gating)
  {
  }

  class AprsisTask {
    const callsign: Bytes
    const gating: bool       // igating is enabled and the passcode valid

    var report: Reported
    var open: Interval
    var lifetime: AprsisLifetime

    // the series of the telemetry event, in the order the history merges them
    var igatedSeries: Series
    var droppedSeries: Series
    var rfReceivedSeries: Series
    var reconnectSeries: Series

    var dedupCache: Cache
    var firstConnect: bool
    var sequence: nat

    // the whole past of this process
    ghost var start: AprsisLifetime
    ghost var hist: seq<Tick>          // every statistics tick
    ghost var log: seq<Entry>          // every gated packet
    ghost var lost: nat                // packets whose write failed
    ghost var clock: int

    ghost function State(): Books
      reads this
    {
      Books(start, lifetime, hist, open, report, lost)
    }

    ghost function Sent(): Quad
      reads this
    {
      Quad(igatedSeries, droppedSeries, rfReceivedSeries, reconnectSeries)
    }

    ghost predicate DedupValid()
      reads this
    {
      CacheRefines(dedupCache, log, clock) && Spaced(log)
    }

    ghost predicate Valid()
      reads this
    {
      var balanced, deduplicates := State().Balance(gating), DedupValid();
      balanced && deduplicates && Sent() == QuadOf(WindowOf(hist, |hist|))
    }

    /** A process that continues from these totals; everything else begins empty. */
    constructor (totals: AprsisLifetime, callsign: Bytes, gating: bool, sequence: nat, now: int)
      requires totals.packetsDropped == totals.drops.Sum()
      ensures Valid()
      ensures State() == NewBooks(totals) && JustStarted(State()) && firstConnect
      ensures log == [] && clock == now
      ensures this.callsign == callsign && this.gating == gating && this.sequence == sequence
    {
      this.callsign, this.gating, this.sequence := callsign, gating, sequence;
      report, open := NEW_REPORT, NEW_INTERVAL;
      lifetime, start := totals, totals;
      igatedSeries, droppedSeries, rfReceivedSeries, reconnectSeries := [], [], [], [];
      dedupCache, firstConnect := map[], true;
      hist, log, lost, clock := [], [], 0, now;
    }

    /** A start or restart: the totals come from the store, or are zero if it cannot be read. */
    static method Start(store: Store, callsign: Bytes, gating: bool, sequence: nat, now: int, loadOk: bool)
      returns (task: AprsisTask)
      requires store.aprsisLifetime.packetsDropped == store.aprsisLifetime.drops.Sum()
      ensures fresh(task) && task.Valid()
      ensures task.State() == NewBooks(if loadOk then store.aprsisLifetime
                                       else AprsisLifetime(0, 0, 0, 0, Drops(0, 0, 0, 0, 0, 0, 0), 0))
      ensures JustStarted(task.State())
      ensures task.log == [] && task.clock == now
      ensures task.callsign == callsign && task.gating == gating && task.sequence == sequence
    {
      var totals := if loadOk then store.aprsisLifetime else NO_LIFETIME;
      task := new AprsisTask(totals, callsign, gating, sequence, now);
    }

    /** A dropped packet, counted once in total and once for its reason. */
    method CountDrop(v: Verdict)
      requires v.IsDrop()
      modifies this`report, this`open, this`lifetime
      ensures report == old(report).(dropped := old(report).dropped + 1)
      ensures open == old(open).(dropped := old(open).dropped + 1)
      ensures lifetime == old(lifetime).(packetsDropped := old(lifetime).packetsDropped + 1,
                                         drops := Attributed(old(lifetime).drops, v))
    {
      report := report.(dropped := report.dropped + 1);
      open := open.(dropped := open.dropped + 1);
      lifetime := lifetime.(packetsDropped := lifetime.packetsDropped + 1, drops := Attributed(lifetime.drops, v));
    }

    /** Policy, duplicate check, write boundary, write. Only a write that succeeds is remembered. */
    method Judge(p: RtpPacket, age: nat, now: int, writeOk: bool) returns (v: Verdict)
      requires DedupValid() && clock <= now
      modifies this`dedupCache, this`log, this`clock
      ensures DedupValid() && clock == now
      ensures v == Decide(old(log), gating, p, callsign, age, now, writeOk) && (v.NotGating? <==> !gating)
      ensures log == old(log) + if v.Gated? then [Entry(DedupKey(p), now)] else []
    {
      TimePasses(dedupCache, log, clock, now);
      clock := now;
      if !gating {
        return NotGating;
      }
      var reason := DropPacket(p, age);
      if reason.Some? {
        return Filtered(reason.value);
      }
      var dedupKey := DedupKey(p);
      CacheDecides(dedupCache, log, now, dedupKey, now);
      if Suppresses(dedupCache, dedupKey, now) {
        return Duplicate;
      }
      var line := ForRxigateBytes(p, callsign);
      if HasBreak(TrimEnd(line)) {
        return Refused;
      }
      line := line + [CR, LF];
      if !writeOk {
        return WriteLost(line);
      }
      GateKeeps(dedupCache, log, now, dedupKey, now);
      dedupCache := dedupCache[dedupKey := now];
      log := log + [Entry(dedupKey, now)];
      return Gated(line);
    }

    /** A packet was received, whatever becomes of it. */
    method CountReceived(p: RtpPacket)
      modifies this`report, this`open, this`lifetime
      ensures report == old(report).Count(p, NotGating)
      ensures open == old(open).Count(NotGating)
      ensures lifetime == Counted(old(lifetime), NotGating)
    {
      report := Reported(report.rf + 1, report.dropped, report.direct + One(p.heardDirect),
                         report.satellite + One(p.isSatellite), report.other + One(p.frequencyHz != 144_390_000));
      open := open.(rf := open.rf + 1);
      lifetime := lifetime.(rfReceived := lifetime.rfReceived + 1);
    }

    /** Moves every counter as the verdict says. */
    method Count(p: RtpPacket, v: Verdict)
      modifies this`report, this`open, this`lifetime, this`lost
      ensures State() == old(State()).Packet(p, v)
    {
      CountReceived(p);
      if v.IsDrop() {
        CountDrop(v);
      } else if v.Gated? {
        open := open.(igated := open.igated + 1);
        lifetime := lifetime.(packetsIgated := lifetime.packetsIgated + 1);
      } else if v.WriteLost? {
        lost := lost + 1;
      }
    }

    /** The gating arm. The decision is the one the full log calls for, and every counter moves as
        the decision says. */
    method OnPacket(p: RtpPacket, age: nat, now: int, writeOk: bool) returns (v: Verdict)
      requires Valid() && clock <= now
      modifies this`report, this`open, this`lifetime, this`dedupCache, this`log, this`lost, this`clock
      ensures Valid() && clock == now
      ensures v == Decide(old(log), gating, p, callsign, age, now, writeOk)
      ensures log == old(log) + if v.Gated? then [Entry(DedupKey(p), now)] else []
      ensures State() == old(State()).Packet(p, v)
    {
      v := Judge(p, age, now, writeOk);
      Count(p, v);
      PacketBalances(old(State()), gating, p, v);
    }

    /** Pushes one point to each series and trims them. */
    method PushSeries(now: int) returns (t: Quad)
      requires Sent() == QuadOf(WindowOf(hist, |hist|))
      modifies this`igatedSeries, this`droppedSeries, this`rfReceivedSeries, this`reconnectSeries, this`hist
      ensures hist == old(hist) + [open.TickAt(now)]
      ensures t == Sent() == QuadOf(WindowOf(hist, |hist|))
    {
      PushQuad(hist, open.TickAt(now));
      rfReceivedSeries := PushTrim(rfReceivedSeries, DataPoint(now, open.rf));
      droppedSeries := PushTrim(droppedSeries, DataPoint(now, open.dropped));
      igatedSeries := PushTrim(igatedSeries, DataPoint(now, open.igated));
      reconnectSeries := PushTrim(reconnectSeries, DataPoint(now, open.reconnects));
      t := Quad(igatedSeries, droppedSeries, rfReceivedSeries, reconnectSeries);
      hist := hist + [open.TickAt(now)];
    }

    /** Closes the interval into the series and opens a new one. */
    method CloseInterval(now: int) returns (t: Quad)
      requires Sent() == QuadOf(WindowOf(hist, |hist|))
      modifies this`igatedSeries, this`droppedSeries, this`rfReceivedSeries, this`reconnectSeries
      modifies this`open, this`hist
      ensures State() == old(State()).Tick(now)
      ensures t == Sent() == QuadOf(WindowOf(hist, |hist|))
    {
      t := PushSeries(now);
      open := NEW_INTERVAL;
    }

    /** The statistics tick: purge the cache, push and trim the series, send them, reset the
        interval, persist the lifetime counters. */
    method OnTelemetryTick(store: Store, now: int, saveOk: bool) returns (t: Quad)
      requires Valid() && clock <= now
      modifies this`igatedSeries, this`droppedSeries, this`rfReceivedSeries, this`reconnectSeries
      modifies this`dedupCache, this`open, this`hist, this`clock, store`aprsisLifetime
      ensures Valid() && clock == now
      ensures State() == old(State()).Tick(now)
      ensures forall k :: k in dedupCache <==> RecentlyGated(log, k, now)
      ensures t == QuadOf(WindowOf(hist, |hist|))
      ensures store.aprsisLifetime == if saveOk then lifetime else old(store.aprsisLifetime)
      ensures saveOk ==> store.aprsisLifetime.packetsDropped == store.aprsisLifetime.drops.Sum()
    {
      ghost var before := State();
      PurgeKeeps(dedupCache, log, clock, now);
      dedupCache := Purge(dedupCache, now);
      clock := now;
      t := CloseInterval(now);
      TickBalances(before, gating, now);
      store.SaveAprsisLifetime(lifetime, saveOk);
    }

    /** A connection was made. The first one of the process is not a reconnect. */
    method OnConnected()
      requires Valid()
      modifies this`firstConnect, this`lifetime, this`open
      ensures Valid() && !firstConnect
      ensures State() == if old(firstConnect) then old(State()) else old(State()).Reconnect()
    {
      if firstConnect {
        firstConnect := false;
      } else {
        ReconnectBalances(State(), gating);
        lifetime := lifetime.(reconnects := lifetime.reconnects + 1);
        open := open.(reconnects := open.reconnects + 1);
      }
    }

    /** The channel lagged: n packets were never evaluated. */
    method OnLagged(n: nat)
      requires Valid()
      modifies this`lifetime
      ensures Valid()
      ensures State() == old(State()).Lag(n)
    {
      LagBalances(State(), gating, n);
      lifetime := lifetime.(lagged := lifetime.lagged + n);
    }

    /** The final flush on shutdown: what it stores is fit to start the next process from. */
    method OnShutdown(store: Store, saveOk: bool)
      requires Valid()
      modifies store`aprsisLifetime
      ensures store.aprsisLifetime == if saveOk then lifetime else old(store.aprsisLifetime)
      ensures saveOk ==> store.aprsisLifetime.packetsDropped == store.aprsisLifetime.drops.Sum()
    {
      store.SaveAprsisLifetime(lifetime, saveOk);
    }

    /** The report tick: five analog items; the counters restart if every write succeeded. */
    method OnReportTick(writesOk: bool) returns (items: seq<AprsQuadratic>, fields: Report)
      requires Valid()
      modifies this`report, this`sequence
      ensures Valid()
      ensures items == Items(old(report))
      ensures ReportsOn(items, old(report))
      ensures |fields.values| == |fields.equations| == 5
      ensures forall i :: 0 <= i < 5 ==> fields.values[i] == items[i].x
      ensures forall i :: 0 <= i < 5 ==> fields.equations[i] == (items[i].a, items[i].b, items[i].c)
      ensures sequence == old(sequence) + One(writesOk)
      ensures report == if writesOk then Reported(0, 0, 0, 0, 0) else old(report)
    {
      items := Items(report);
      ReportRecovers(State(), gating);
      var encoded := ToAprs(items);
      fields := encoded.value;
      if writesOk {
        sequence := sequence + 1;
        report := NEW_REPORT;
      }
    }
  }

  function Percentage(part: nat, whole: nat): real {
    if whole > 0 then 100.0 * part as real / whole as real else 0.0
  }

  function Items(r: Reported): (items: seq<AprsQuadratic>)
    ensures |items| == 5
  {
    [New(r.rf as real), New(r.satellite as real), New(Percentage(r.dropped, r.rf)),
     New(Percentage(r.direct, r.rf)), New(r.other as real)]
  }

  lemma PercentageInRange(part: nat, whole: nat)
    requires part <= whole
    ensures 0.0 <= Percentage(part, whole) <= 100.0
  {
  }

  /** One of the two shapes of an encoded value: the value itself, or three base-128 digits. */
  ghost predicate InFormat(q: AprsQuadratic) {
    || (q.a == 0.0 && q.b == 1.0 && q.x <= 255)
    || (q.x == 128 && -128.0 < q.b < 128.0 && -128.0 < q.c < 128.0)
  }

  lemma CountInFormat(n: nat)
    ensures InFormat(New(n as real)) && New(n as real).Value() == n as real
  {
    var v := n as real;
    assert v.Floor == n;
    if v <= 255.0 {
      SmallValues(v);
    } else {
      LargeValues(v);
    }
  }

  /** Within half a millionth of a share in percent; zero where nothing was received. */
  ghost predicate ShowsShare(x: real, part: nat, whole: nat) {
    if whole > 0 then -0.0000005 <= x - 100.0 * part as real / whole as real <= 0.0000005 else x == 0.0
  }

  /** What a receiver computes from the five items: the packets received, those from satellites, the dropped and
      the directly heard shares, and the packets on another frequency. */
  ghost predicate ReportsOn(items: seq<AprsQuadratic>, r: Reported) {
    && |items| == 5
    && items[0].Value() == r.rf as real
    && items[1].Value() == r.satellite as real
    && ShowsShare(items[2].Value(), r.dropped, r.rf)
    && ShowsShare(items[3].Value(), r.direct, r.rf)
    && items[4].Value() == r.other as real
  }

  /** What a receiver computes from a report of balanced books: the counts exactly; the percentages,
      which always take the encoding with a = 0 and b = 1, within half a millionth. */
  lemma ReportRecovers(b: Books, gating: bool)
    requires b.Balance(gating)
    ensures var items := Items(b.report);
            && ReportsOn(items, b.report)
            && items[2].a == items[3].a == 0.0 && items[2].b == items[3].b == 1.0
            && forall i :: 0 <= i < 5 ==> InFormat(items[i])
  {
    var r := b.report;
    CountInFormat(r.rf);
    CountInFormat(r.satellite);
    CountInFormat(r.other);
    PercentageInRange(r.dropped, r.rf);
    PercentageInRange(r.direct, r.rf);
    SmallValues(Percentage(r.dropped, r.rf));
    SmallValues(Percentage(r.direct, r.rf));
  }

  /** A lifetime total splits into the points already trimmed from its series and the visible sum. */
  lemma TrimmedPlusVisible(h: seq<Tick>, i: nat)
    requires i < 4
    ensures SumColumn(h, i) == SumColumn(h[..From(|h|)], i) + SeriesSum(Column(WindowOf(h, |h|), i))
  {
    SumColumnSplits(h, From(|h|), i);
    assert h[From(|h|)..] == WindowOf(h, |h|);
    SeriesSumIsColumn(WindowOf(h, |h|), i);
  }

  function TotalOf(l: AprsisLifetime, i: nat): nat
    requires i < 4
  {
    [l.packetsIgated, l.packetsDropped, l.rfReceived, l.reconnects][i]
  }

  /** Lifetime total = starting value + points trimmed from the series + visible series + open interval. */
  lemma LifetimeIsConserved(b: Books, gating: bool, i: nat)
    requires b.Balance(gating) && i < 4
    ensures TotalOf(b.lifetime, i)
         == TotalOf(b.start, i) + SumColumn(b.hist[..From(|b.hist|)], i)
            + SeriesSum(Column(WindowOf(b.hist, |b.hist|), i)) + b.open.TickAt(0).Value(i)
  {
    TrimmedPlusVisible(b.hist, i);
  }

  //--------- crashes --------

  /** A process and the row that its totals are saved in. */
  datatype Process = Process(books: Books, stored: AprsisLifetime)

  datatype ProcessStep =
    | Received(p: RtpPacket, v: Verdict)
    | Telemetry(now: int, saveOk: bool)
    | Reconnected
    | Lagged(n: nat)
    | ReportSent
    | Stopped(saveOk: bool)
    | Restarted(loadOk: bool)

  function NextProcess(s: Process, a: ProcessStep): Process {
    match a
    case Received(p, v) => s.(books := s.books.Packet(p, v))
    case Telemetry(now, saveOk) => Process(s.books.Tick(now), if saveOk then s.books.lifetime else s.stored)
    case Reconnected => s.(books := s.books.Reconnect())
    case Lagged(n) => s.(books := s.books.Lag(n))
    case ReportSent => s.(books := s.books.(report := NEW_REPORT))
    case Stopped(saveOk) => s.(stored := if saveOk then s.books.lifetime else s.stored)
    case Restarted(loadOk) => s.(books := NewBooks(if loadOk then s.stored else NO_LIFETIME))
  }

  function RunProcess(s: Process, acts: seq<ProcessStep>): Process {
    if acts == [] then s else NextProcess(RunProcess(s, acts[..|acts| - 1]), acts[|acts| - 1])
  }

  predicate Saves(a: ProcessStep) {
    (a.Telemetry? && a.saveOk) || (a.Stopped? && a.saveOk)
  }

  /** The totals at the last tick or stop whose save succeeded. */
  function LastSaved(s: Process, acts: seq<ProcessStep>): AprsisLifetime {
    if acts == [] then s.stored
    else
      var n := |acts| - 1;
      if Saves(acts[n]) then RunProcess(s, acts[..n]).books.lifetime
      else LastSaved(s, acts[..n])
  }

  /** Packets received since the last successful save or restart. */
  function Unsaved(acts: seq<ProcessStep>): nat {
    if acts == [] then 0
    else
      var n := |acts| - 1;
      if acts[n].Restarted? || Saves(acts[n]) then 0
      else Unsaved(acts[..n]) + One(acts[n].Received?)
  }

  //--------- what the counters count --------

  /** What a step can be counted for. */
  datatype Mark = AnyPacket | Judged(v: Verdict) | AnyDrop | AnyWrite | AnyLoss
                | HeardDirect | OnSatellite | OffFrequency | AnyReconnect

  ghost predicate Bears(a: ProcessStep, m: Mark) {
    match m
    case AnyPacket => a.Received?
    case Judged(v) => a.Received? && a.v == v
    case AnyDrop => a.Received? && (a.v.Filtered? || a.v.Duplicate? || a.v.Refused?)
    case AnyWrite => a.Received? && a.v.Gated?
    case AnyLoss => a.Received? && a.v.WriteLost?
    case HeardDirect => a.Received? && a.p.heardDirect
    case OnSatellite => a.Received? && a.p.isSatellite
    case OffFrequency => a.Received? && a.p.frequencyHz != 144_390_000
    case AnyReconnect => a.Reconnected?
  }

  /** How long a counter runs, at most until the next restart. */
  datatype Term = Lifelong | UntilTick | UntilReport

  ghost predicate Ends(a: ProcessStep, t: Term) {
    a.Restarted? || (t == UntilTick && a.Telemetry?) || (t == UntilReport && a.ReportSent?)
  }

  /** How many steps of the current term bear a mark. */
  ghost function Tally(acts: seq<ProcessStep>, t: Term, m: Mark): nat {
    if acts == [] then 0
    else
      var n := |acts| - 1;
      if Ends(acts[n], t) then 0
      else Tally(acts[..n], t, m) + (if Bears(acts[n], m) then 1 else 0)
  }

  /** The totals that the current process started from. */
  ghost function StartedFrom(s: Process, acts: seq<ProcessStep>): AprsisLifetime {
    if acts == [] then s.books.lifetime
    else
      var n := |acts| - 1;
      if !acts[n].Restarted? then StartedFrom(s, acts[..n])
      else if acts[n].loadOk then RunProcess(s, acts[..n]).stored
      else AprsisLifetime(0, 0, 0, 0, Drops(0, 0, 0, 0, 0, 0, 0), 0)
  }

  /** Each reason counts the packets that were judged so, and the malformed ones the refused lines as well. */
  ghost predicate ReasonsTallied(d: Drops, d0: Drops, acts: seq<ProcessStep>) {
    && d.stale == d0.stale + Tally(acts, Lifelong, Judged(Filtered(Stale)))
    && d.rfOnly == d0.rfOnly + Tally(acts, Lifelong, Judged(Filtered(RfOnly)))
    && d.query == d0.query + Tally(acts, Lifelong, Judged(Filtered(GenericQuery)))
    && d.thirdParty == d0.thirdParty + Tally(acts, Lifelong, Judged(Filtered(ThirdPartyInternet)))
    && d.satellite == d0.satellite + Tally(acts, Lifelong, Judged(Filtered(SatelliteDirect)))
    && d.duplicate == d0.duplicate + Tally(acts, Lifelong, Judged(Duplicate))
    && d.malformed == d0.malformed + Tally(acts, Lifelong, Judged(Filtered(MalformedField)))
                      + Tally(acts, Lifelong, Judged(Refused))
  }

  ghost predicate TotalsTallied(l: AprsisLifetime, l0: AprsisLifetime, lost: nat, acts: seq<ProcessStep>) {
    && l.rfReceived == l0.rfReceived + Tally(acts, Lifelong, AnyPacket)
    && l.packetsIgated == l0.packetsIgated + Tally(acts, Lifelong, AnyWrite)
    && l.packetsDropped == l0.packetsDropped + Tally(acts, Lifelong, AnyDrop)
    && l.reconnects == l0.reconnects + Tally(acts, Lifelong, AnyReconnect)
    && lost == Tally(acts, Lifelong, AnyLoss)
  }

  ghost predicate IntervalTallied(i: Interval, acts: seq<ProcessStep>) {
    && i.rf == Tally(acts, UntilTick, AnyPacket)
    && i.igated == Tally(acts, UntilTick, AnyWrite)
    && i.dropped == Tally(acts, UntilTick, AnyDrop)
    && i.reconnects == Tally(acts, UntilTick, AnyReconnect)
  }

  ghost predicate ReportTallied(r: Reported, acts: seq<ProcessStep>) {
    && r.rf == Tally(acts, UntilReport, AnyPacket)
    && r.dropped == Tally(acts, UntilReport, AnyDrop)
    && r.direct == Tally(acts, UntilReport, HeardDirect)
    && r.satellite == Tally(acts, UntilReport, OnSatellite)
    && r.other == Tally(acts, UntilReport, OffFrequency)
  }

  /** A process that has counted nothing yet. */
  ghost predicate JustStarted(b: Books) {
    b.start == b.lifetime && b.open == Interval(0, 0, 0, 0) && b.report == Reported(0, 0, 0, 0, 0) && b.lost == 0
  }

  /** Every counter, over every run: the lifetime totals and the seven reasons are what the process started from and
      the packets judged accordingly since; the open interval counts since the last tick, the open report
      since the last one sent. */
  lemma {:induction false} CountersTally(s: Process, acts: seq<ProcessStep>)
    requires JustStarted(s.books)
    ensures var b := RunProcess(s, acts).books;
            && b.start == StartedFrom(s, acts)
            && ReasonsTallied(b.lifetime.drops, b.start.drops, acts)
            && TotalsTallied(b.lifetime, b.start, b.lost, acts)
            && IntervalTallied(b.open, acts) && ReportTallied(b.report, acts)
  {
    if acts == [] {
    } else {
      var n := |acts| - 1;
      CountersTally(s, acts[..n]);
      var b, b' := RunProcess(s, acts[..n]).books, RunProcess(s, acts).books;
      ReasonsStep(b, acts, b');
      TotalsStep(b, acts, b');
      IntervalStep(b, acts, b');
      ReportStep(b, acts, b');
    }
  }

  /** What the last of these steps makes of the books. */
  ghost predicate LastStep(b: Books, acts: seq<ProcessStep>, b': Books) {
    && acts != []
    && var a := acts[|acts| - 1];
       match a
       case Received(p, v) => b' == b.Packet(p, v)
       case Telemetry(now, _) => b' == b.Tick(now)
       case Reconnected => b' == b.Reconnect()
       case Lagged(n) => b' == b.Lag(n)
       case ReportSent => b' == b.(report := NEW_REPORT)
       case Stopped(_) => b' == b
       case Restarted(_) => b' == NewBooks(b'.start)
  }

  lemma ReasonsStep(b: Books, acts: seq<ProcessStep>, b': Books)
    requires LastStep(b, acts, b') && ReasonsTallied(b.lifetime.drops, b.start.drops, acts[..|acts| - 1])
    ensures ReasonsTallied(b'.lifetime.drops, b'.start.drops, acts)
  {
    var a := acts[|acts| - 1];
    if a.Received? {
      ReasonStep(b.lifetime.drops, b.start.drops, acts, a.v, b'.lifetime.drops);
    }
  }

  lemma ReasonStep(d: Drops, d0: Drops, acts: seq<ProcessStep>, v: Verdict, d': Drops)
    requires acts != [] && acts[|acts| - 1].Received? && acts[|acts| - 1].v == v && d' == Attributed(d, v)
    requires ReasonsTallied(d, d0, acts[..|acts| - 1])
    ensures ReasonsTallied(d', d0, acts)
  {
  }

  lemma TotalsStep(b: Books, acts: seq<ProcessStep>, b': Books)
    requires LastStep(b, acts, b') && TotalsTallied(b.lifetime, b.start, b.lost, acts[..|acts| - 1])
    ensures TotalsTallied(b'.lifetime, b'.start, b'.lost, acts)
  {
  }

  lemma IntervalStep(b: Books, acts: seq<ProcessStep>, b': Books)
    requires LastStep(b, acts, b') && IntervalTallied(b.open, acts[..|acts| - 1])
    ensures IntervalTallied(b'.open, acts)
  {
  }

  lemma ReportStep(b: Books, acts: seq<ProcessStep>, b': Books)
    requires LastStep(b, acts, b') && ReportTallied(b.report, acts[..|acts| - 1])
    ensures ReportTallied(b'.report, acts)
  {
  }

  //--------- what a crash keeps --------

  ghost predicate LegalSteps(acts: seq<ProcessStep>, gating: bool) {
    forall i :: 0 <= i < |acts| && acts[i].Received? ==> (acts[i].v.NotGating? <==> !gating)
  }

  ghost predicate Sound(s: Process, gating: bool) {
    var balanced := s.books.Balance(gating);
    balanced && s.stored.packetsDropped == s.stored.drops.Sum()
  }

  lemma ReceivedIsSound(s: Process, gating: bool, p: RtpPacket, v: Verdict, s': Process)
    requires Sound(s, gating) && (v.NotGating? <==> !gating)
    requires s'.books == s.books.Packet(p, v) && s'.stored == s.stored
    ensures Sound(s', gating)
  {
    PacketBalances(s.books, gating, p, v);
  }

  lemma TickIsSound(s: Process, gating: bool, now: int, s': Process)
    requires Sound(s, gating)
    requires s'.books == s.books.Tick(now) && (s'.stored == s.stored || s'.stored == s.books.lifetime)
    ensures Sound(s', gating)
  {
    TickBalances(s.books, gating, now);
  }

  lemma ReconnectIsSound(s: Process, gating: bool, s': Process)
    requires Sound(s, gating)
    requires s'.books == s.books.Reconnect() && s'.stored == s.stored
    ensures Sound(s', gating)
  {
    ReconnectBalances(s.books, gating);
  }

  lemma LagIsSound(s: Process, gating: bool, n: nat, s': Process)
    requires Sound(s, gating)
    requires s'.books == s.books.Lag(n) && s'.stored == s.stored
    ensures Sound(s', gating)
  {
    LagBalances(s.books, gating, n);
  }

  lemma StopIsSound(s: Process, gating: bool, s': Process)
    requires Sound(s, gating)
    requires s'.books == s.books && (s'.stored == s.stored || s'.stored == s.books.lifetime)
    ensures Sound(s', gating)
  {
  }

  lemma ReportIsSound(s: Process, gating: bool, s': Process)
    requires Sound(s, gating)
    requires s'.books == s.books.(report := NEW_REPORT) && s'.stored == s.stored
    ensures Sound(s', gating)
  {
  }

  lemma RestartIsSound(s: Process, gating: bool, totals: AprsisLifetime, s': Process)
    requires Sound(s, gating) && totals.packetsDropped == totals.drops.Sum()
    requires s'.books == NewBooks(totals) && s'.stored == s.stored
    ensures Sound(s', gating)
  {
    NewBooksBalance(totals, gating);
  }

  lemma StepIsSound(s: Process, a: ProcessStep, gating: bool, s': Process)
    requires Sound(s, gating) && (a.Received? ==> (a.v.NotGating? <==> !gating))
    requires s' == NextProcess(s, a)
    ensures Sound(s', gating)
  {
    match a
    case Received(p, v) => ReceivedIsSound(s, gating, p, v, s');
    case Telemetry(now, _) => TickIsSound(s, gating, now, s');
    case Reconnected => ReconnectIsSound(s, gating, s');
    case Lagged(n) => LagIsSound(s, gating, n, s');
    case ReportSent => ReportIsSound(s, gating, s');
    case Stopped(_) => StopIsSound(s, gating, s');
    case Restarted(loadOk) =>
      var totals := if loadOk then s.stored else NO_LIFETIME;
      RestartIsSound(s, gating, totals, s');
  }

  /** Over every run with crashes, stops and failing saves and loads: the books balance, the stored totals
      are those of the last successful save, and so are the totals a restart that can read them starts from. */
  lemma {:induction false} CrashRecoversLastSave(s: Process, acts: seq<ProcessStep>, gating: bool)
    requires Sound(s, gating) && LegalSteps(acts, gating)
    ensures Sound(RunProcess(s, acts), gating)
    ensures RunProcess(s, acts).stored == LastSaved(s, acts)
    ensures NextProcess(RunProcess(s, acts), Restarted(true)).books.lifetime == LastSaved(s, acts)
  {
    if acts == [] {
    } else {
      var n := |acts| - 1;
      CrashRecoversLastSave(s, acts[..n], gating);
      StepIsSound(RunProcess(s, acts[..n]), acts[n], gating, RunProcess(s, acts));
    }
  }

  lemma StepLoses(s: Process, a: ProcessStep, u: nat, s': Process)
    requires s.books.lifetime.rfReceived == s.stored.rfReceived + u && (a.Restarted? ==> a.loadOk)
    requires s' == NextProcess(s, a)
    ensures s'.books.lifetime.rfReceived
         == s'.stored.rfReceived + if a.Restarted? || Saves(a) then 0 else u + One(a.Received?)
  {
  }

  /** What a crash loses: exactly the packets received since the last successful save or restart. */
  lemma {:induction false} CrashLosesUnsaved(s: Process, acts: seq<ProcessStep>)
    requires s.books.lifetime == s.stored
    requires forall i :: 0 <= i < |acts| && acts[i].Restarted? ==> acts[i].loadOk
    ensures RunProcess(s, acts).books.lifetime.rfReceived == RunProcess(s, acts).stored.rfReceived + Unsaved(acts)
  {
    if acts == [] {
    } else {
      var n := |acts| - 1;
      CrashLosesUnsaved(s, acts[..n]);
      StepLoses(RunProcess(s, acts[..n]), acts[n], Unsaved(acts[..n]), RunProcess(s, acts));
    }
  }

  /** A restart that cannot read the totals counts from zero, and its next save replaces them for good. */
  lemma FailedLoadErasesTotals(s: Process, now: int)
    ensures RunProcess(s, [Restarted(false), Telemetry(now, true)]).stored
         == AprsisLifetime(0, 0, 0, 0, Drops(0, 0, 0, 0, 0, 0, 0), 0)
  {
    var acts := [Restarted(false), Telemetry(now, true)];
    assert acts[..1] == [Restarted(false)] && acts[..1][..0] == [];
    assert RunProcess(s, acts[..1]) == NextProcess(RunProcess(s, []), Restarted(false));
  }
}

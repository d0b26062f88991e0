/** The GPS position shared between two tasks (src/gpsd.rs, GpsFix in src/config.rs,
    gpsd_beacon_location in src/aprs_is.rs). gpsd_task merges TPV and SKY reports into local fields
    and then, as a separate step, writes them to the shared cell; aprsis_task reads that cell between
    any two steps. */
module Gps {
  import opened Types

  const METERS_TO_FEET := 3.28084

  /** 30 seconds, in nanoseconds of the local monotonic clock. */
  const GPS_FRESHNESS := 30_000_000_000

  datatype Mode = NoFix | Fix2d | Fix3d

  datatype Tpv = Tpv(mode: Mode, lat: Option<real>, lon: Option<real>, altMsl: Option<real>, alt: Option<real>)

  /** `satellites` holds the used flag of each; uSat and nSat are the scalars of a summary report. */
  datatype Sky = Sky(hdop: Option<real>, satellites: Option<seq<bool>>, uSat: Option<nat>, nSat: Option<nat>)

  datatype GpsFix = GpsFix(lat: Option<real>, lon: Option<real>, altFt: Option<real>, mode: nat,
                           satsUsed: nat, satsVisible: nat, hdop: Option<real>, receivedAt: nat)
  {
    predicate IsFresh(now: nat) {
      Elapsed(receivedAt, now) < GPS_FRESHNESS && mode >= 2 && lat.Some? && lon.Some?
    }
  }

  datatype Location = Location(lat: Option<real>, lon: Option<real>, alt: Option<real>)

  /** Instant::elapsed: saturates at zero. */
  function Elapsed(since: nat, now: nat): nat {
    if now >= since then now - since else 0
  }

  function ModeNumber(m: Mode): nat {
    match m
    case NoFix => 1
    case Fix2d => 2
    case Fix3d => 3
  }

  /** MSL altitude, or else the generic one, in feet. */
  function Feet(tpv: Tpv): Option<real> {
    match Or(tpv.altMsl, tpv.alt)
    case Some(m) => Some(m * METERS_TO_FEET)
    case None => None
  }

  function UsedCount(flags: seq<bool>): nat {
    if flags == [] then 0 else UsedCount(flags[..|flags| - 1]) + if flags[|flags| - 1] then 1 else 0
  }

  lemma {:induction false} UsedIsCount(flags: seq<bool>)
    ensures UsedCount(flags) == |set i | 0 <= i < |flags| && flags[i]|
  {
    var used := set i | 0 <= i < |flags| && flags[i];
    if flags == [] {
    } else {
      var n := |flags| - 1;
      UsedIsCount(flags[..n]);
      var before := set i | 0 <= i < |flags[..n]| && flags[..n][i];
      assert used == if flags[n] then before + {n} else before;
    }
  }

  /** `as u32` */
  function U32(n: nat): nat {
    n % 0x1_0000_0000
  }

  /** A report's effect on the local fields, which travel together as one fix. */
  function AfterTpv(f: GpsFix, tpv: Tpv, now: nat): GpsFix {
    f.(lat := tpv.lat, lon := tpv.lon, altFt := Feet(tpv), mode := ModeNumber(tpv.mode), receivedAt := now)
  }

  function AfterSky(f: GpsFix, sky: Sky): GpsFix {
    var g := f.(hdop := sky.hdop);
    match sky.satellites
    case Some(flags) => g.(satsVisible := U32(|flags|), satsUsed := U32(UsedCount(flags)))
    case None =>
      g.(satsUsed := if sky.uSat.Some? then U32(sky.uSat.value) else f.satsUsed,
         satsVisible := if sky.nSat.Some? then U32(sky.nSat.value) else f.satsVisible)
  }

  function BeaconLocation(shared: Option<GpsFix>, fallbackAlt: Option<real>, now: nat): Option<Location> {
    match shared
    case Some(fix) =>
      if fix.IsFresh(now) then Some(Location(fix.lat, fix.lon, Or(fix.altFt, fallbackAlt))) else None
    case None => None
  }

  //--------- writer and reader --------

  class SharedFix {
    var fix: Option<GpsFix>

    constructor ()
      ensures fix == None
    {
      fix := None;
    }
  }

  class GpsdTask {
    const gpsState: SharedFix
    var lat: Option<real>
    var lon: Option<real>
    var altFt: Option<real>
    var mode: nat
    var satsUsed: nat
    var satsVisible: nat
    var hdop: Option<real>
    var receivedAt: nat

    function Fields(): GpsFix
      reads this
    {
      GpsFix(lat, lon, altFt, mode, satsUsed, satsVisible, hdop, receivedAt)
    }

    ghost function State(): System
      reads this, gpsState
    {
      System(Fields(), gpsState.fix)
    }

    constructor (gpsState: SharedFix, now: nat)
      requires gpsState.fix == None
      ensures this.gpsState == gpsState && State() == Started(now)
    {
      this.gpsState := gpsState;
      lat, lon, altFt, hdop := None, None, None, None;
      mode, satsUsed, satsVisible, receivedAt := 1, 0, 0, now;
    }

    method OnTpv(tpv: Tpv, now: nat)
      modifies this
      ensures State() == Next(old(State()), TpvReport(tpv, now))
    {
      mode := match tpv.mode case NoFix => 1 case Fix2d => 2 case Fix3d => 3;
      lat, lon := tpv.lat, tpv.lon;
      altFt := match Or(tpv.altMsl, tpv.alt) case Some(m) => Some(m * METERS_TO_FEET) case None => None;
      receivedAt := now;
    }

    method OnSky(sky: Sky)
      modifies this
      ensures State() == Next(old(State()), SkyReport(sky))
      ensures hdop == sky.hdop
      ensures sky.satellites.Some? ==>
                var flags := sky.satellites.value;
                && satsVisible == |flags| % 0x1_0000_0000
                && satsUsed == |set i | 0 <= i < |flags| && flags[i]| % 0x1_0000_0000
      ensures sky.satellites.None? ==>
                && satsUsed == (if sky.uSat.Some? then sky.uSat.value % 0x1_0000_0000 else old(satsUsed))
                && satsVisible == (if sky.nSat.Some? then sky.nSat.value % 0x1_0000_0000 else old(satsVisible))
    {
      hdop := sky.hdop;
      match sky.satellites {
        case Some(flags) =>
          satsVisible := U32(|flags|);
          var used := 0;
          for i := 0 to |flags|
            invariant used == UsedCount(flags[..i])
          {
            assert flags[..i + 1][..i] == flags[..i];
            if flags[i] {
              used := used + 1;
            }
          }
          assert flags[..|flags|] == flags;
          UsedIsCount(flags);
          satsUsed := U32(used);
        case None =>
          if sky.uSat.Some? {
            satsUsed := U32(sky.uSat.value);
          }
          if sky.nSat.Some? {
            satsVisible := U32(sky.nSat.value);
          }
      }
    }

    method Publish()
      modifies gpsState
      ensures State() == Next(old(State()), Published)
    {
      gpsState.fix := Some(Fields());
    }
  }

  //--------- every interleaving --------

  /** Ignored: lost connections, reconnections, and lines that are blank, unreadable or of another class. */
  datatype Event = TpvReport(tpv: Tpv, at: nat) | SkyReport(sky: Sky) | Published | Ignored

  datatype System = System(fields: GpsFix, shared: Option<GpsFix>)

  function Started(now: nat): System {
    System(GpsFix(None, None, None, 1, 0, 0, None, now), None)
  }

  function Next(s: System, e: Event): System {
    match e
    case TpvReport(tpv, at) => s.(fields := AfterTpv(s.fields, tpv, at))
    case SkyReport(sky) => s.(fields := AfterSky(s.fields, sky))
    case Published => s.(shared := Some(s.fields))
    case Ignored => s
  }

  function Run(start: nat, log: seq<Event>): System {
    if log == [] then Started(start) else Next(Run(start, log[..|log| - 1]), log[|log| - 1])
  }

  /** Event p is the last write to the shared cell. */
  ghost predicate LastPublished(log: seq<Event>, p: int) {
    0 <= p < |log| && log[p].Published? && forall j :: p < j < |log| ==> !log[j].Published?
  }

  /** Event i is the latest TPV report before position n. */
  ghost predicate LatestTpv(log: seq<Event>, n: int, i: int) {
    0 <= i < n <= |log| && log[i].TpvReport? && forall j :: i < j < n ==> !log[j].TpvReport?
  }

  ghost predicate NoTpv(log: seq<Event>, n: int) {
    n <= |log| && forall j :: 0 <= j < n ==> !log[j].TpvReport?
  }

  /** The fix's position fields are those of the latest TPV report before position n, all of them. */
  ghost predicate Carries(f: GpsFix, log: seq<Event>, n: int) {
    && (NoTpv(log, n) ==> f.mode == 1)
    && (forall i :: LatestTpv(log, n, i) ==> FromReport(f, log[i]))
  }

  /** The height above mean sea level if the report has it, else the generic one, in feet; else the fallback. */
  ghost predicate AltitudeOf(feet: Option<real>, tpv: Tpv, fallback: Option<real>) {
    && (tpv.altMsl.Some? ==> feet == Some(tpv.altMsl.value * 3.28084))
    && (tpv.altMsl.None? && tpv.alt.Some? ==> feet == Some(tpv.alt.value * 3.28084))
    && (tpv.altMsl.None? && tpv.alt.None? ==> feet == fallback)
  }

  ghost predicate FromReport(f: GpsFix, e: Event) {
    && e.TpvReport? && f.lat == e.tpv.lat && f.lon == e.tpv.lon && AltitudeOf(f.altFt, e.tpv, None)
    && f.mode == (if e.tpv.mode == NoFix then 1 else if e.tpv.mode == Fix2d then 2 else 3) && f.receivedAt == e.at
  }

  lemma {:induction false} FieldsCarryLatest(start: nat, log: seq<Event>)
    ensures Carries(Run(start, log).fields, log, |log|)
  {
    var n := |log| - 1;
    if log == [] {
    } else {
      FieldsCarryLatest(start, log[..n]);
      NextCarries(Run(start, log[..n]), log, n);
    }
  }

  lemma NextCarries(s: System, log: seq<Event>, n: int)
    requires n == |log| - 1 && log != [] && Carries(s.fields, log[..n], n)
    ensures Carries(Next(s, log[n]).fields, log, n + 1)
  {
    CarriesExtends(s.fields, log[..n], log, n);
    StepCarries(s, log, n);
  }

  lemma StepCarries(s: System, log: seq<Event>, n: int)
    requires 0 <= n < |log| && Carries(s.fields, log, n)
    ensures Carries(Next(s, log[n]).fields, log, n + 1)
  {
    var f := Next(s, log[n]).fields;
    if log[n].TpvReport? {
      forall i | LatestTpv(log, n + 1, i) ensures FromReport(f, log[i]) {
        assert i == n;
      }
    } else {
      OtherEventsKeepPosition(s, log[n]);
      assert NoTpv(log, n + 1) ==> NoTpv(log, n);
      forall i | LatestTpv(log, n + 1, i) ensures FromReport(f, log[i]) {
        assert LatestTpv(log, n, i);
      }
    }
  }

  lemma OtherEventsKeepPosition(s: System, e: Event)
    requires !e.TpvReport?
    ensures var f, f' := s.fields, Next(s, e).fields;
            && f'.lat == f.lat && f'.lon == f.lon && f'.altFt == f.altFt
            && f'.mode == f.mode && f'.receivedAt == f.receivedAt
  {
  }

  lemma CarriesExtends(f: GpsFix, before: seq<Event>, log: seq<Event>, n: int)
    requires n <= |before| <= |log| && before == log[..|before|] && Carries(f, before, n)
    ensures Carries(f, log, n)
  {
    assert forall j :: 0 <= j < |before| ==> before[j] == log[j];
    assert NoTpv(log, n) ==> NoTpv(before, n);
    assert forall i :: LatestTpv(log, n, i) ==> LatestTpv(before, n, i);
  }

  ghost predicate NothingPublished(log: seq<Event>) {
    forall j :: 0 <= j < |log| ==> !log[j].Published?
  }

  lemma {:induction false} SharedCarriesPublished(start: nat, log: seq<Event>)
    ensures var shared := Run(start, log).shared;
            && (shared == None <==> NothingPublished(log))
            && (forall p :: shared.Some? && LastPublished(log, p) ==> Carries(shared.value, log, p))
  {
    var n := |log| - 1;
    if log == [] {
    } else {
      var before := log[..n];
      SharedCarriesPublished(start, before);
      if log[n].Published? {
        FieldsCarryLatest(start, before);
        CarriesExtends(Run(start, before).fields, before, log, n);
        assert forall p :: LastPublished(log, p) ==> p == n;
      } else {
        assert NothingPublished(log) == NothingPublished(before);
        var shared := Run(start, before).shared;
        forall p | shared.Some? && LastPublished(log, p)
          ensures Carries(shared.value, log, p)
        {
          assert LastPublished(before, p);
          CarriesExtends(shared.value, before, log, p);
        }
      }
    }
  }

  /** A TPV report good enough to beacon from: at least a 2D fix, both coordinates, under 30 s old. */
  ghost predicate Usable(e: Event, now: nat) {
    e.TpvReport? && e.tpv.mode != NoFix && e.tpv.lat.Some? && e.tpv.lon.Some? && now - e.at < 30_000_000_000
  }

  ghost predicate IsSource(log: seq<Event>, p: int, i: int) {
    LastPublished(log, p) && LatestTpv(log, p, i)
  }

  /** A beacon, if one is sent, has the coordinates and the altitude of this report. */
  ghost predicate Carried(b: Option<Location>, tpv: Tpv, fallback: Option<real>) {
    b.Some? ==> b.value.lat == tpv.lat && b.value.lon == tpv.lon && AltitudeOf(b.value.alt, tpv, fallback)
  }

  lemma BeaconOfReport(f: GpsFix, e: Event, fallback: Option<real>, now: nat)
    requires FromReport(f, e)
    ensures BeaconLocation(Some(f), fallback, now).Some? <==> Usable(e, now)
    ensures Carried(BeaconLocation(Some(f), fallback, now), e.tpv, fallback)
  {
  }

  /** In every interleaving, a beacon is sent from GPS exactly when the latest TPV report before the
      last publication is usable, and both coordinates are those of that one report. */
  lemma BeaconIsLatestPublishedTpv(start: nat, log: seq<Event>, fallback: Option<real>, now: nat)
    ensures var b := BeaconLocation(Run(start, log).shared, fallback, now);
            && (b.Some? <==> exists p, i :: IsSource(log, p, i) && Usable(log[i], now))
            && (forall p, i :: IsSource(log, p, i) ==> Carried(b, log[i].tpv, fallback))
  {
    SharedCarriesPublished(start, log);
    var shared := Run(start, log).shared;
    if shared.Some? {
      var p := LastPublishedExists(log);
      assert forall q :: LastPublished(log, q) ==> q == p;
      LatestTpvExists(log, p);
      assert NoTpv(log, p) ==> shared.value.mode == 1;
      var b := BeaconLocation(shared, fallback, now);
      forall i | LatestTpv(log, p, i)
        ensures b.Some? <==> Usable(log[i], now)
        ensures Carried(b, log[i].tpv, fallback) && IsSource(log, p, i)
      {
        assert FromReport(shared.value, log[i]);
        BeaconOfReport(shared.value, log[i], fallback, now);
      }
    }
  }

  lemma {:induction false} LastPublishedExists(log: seq<Event>) returns (p: int)
    requires !NothingPublished(log)
    ensures LastPublished(log, p)
  {
    p := |log| - 1;
    if !log[p].Published? {
      p := LastPublishedExists(log[..p]);
    }
  }

  lemma {:induction false} LatestTpvExists(log: seq<Event>, n: int)
    requires 0 <= n <= |log|
    ensures NoTpv(log, n) || exists i :: LatestTpv(log, n, i)
  {
    if n > 0 {
      if log[n - 1].TpvReport? {
        assert LatestTpv(log, n, n - 1);
      } else {
        LatestTpvExists(log, n - 1);
        if !NoTpv(log, n - 1) {
          var i :| LatestTpv(log, n - 1, i);
          assert LatestTpv(log, n, i);
        }
      }
    }
  }

  /** Once no TPV report is under 30 s old there is no location, however many SKY reports,
      reconnections and publications come after the last one. */
  lemma SkyNeverRefreshes(start: nat, log: seq<Event>, fallback: Option<real>, now: nat)
    requires forall i :: 0 <= i < |log| && log[i].TpvReport? ==> now - log[i].at >= 30_000_000_000
    ensures BeaconLocation(Run(start, log).shared, fallback, now) == None
  {
    BeaconIsLatestPublishedTpv(start, log, fallback, now);
  }

  /** A report that is parsed but not yet published does not move the beacon. */
  lemma UnpublishedIsUnseen(start: nat, log: seq<Event>, tail: seq<Event>, fallback: Option<real>, now: nat)
    requires NothingPublished(tail)
    ensures BeaconLocation(Run(start, log + tail).shared, fallback, now)
         == BeaconLocation(Run(start, log).shared, fallback, now)
    decreases |tail|
  {
    if tail == [] {
      assert log + tail == log;
    } else {
      var n := |tail| - 1;
      UnpublishedIsUnseen(start, log, tail[..n], fallback, now);
      assert (log + tail)[..|log + tail| - 1] == log + tail[..n];
    }
  }
}

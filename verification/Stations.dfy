/** The listener's station and frequency tables (rtp_listener in src/stream.rs). */
module Stations {
  import opened Types
  import opened StoreTables
  import opened DirtyTable

  const STATION_SECS := 36 * 3600
  const FREQ_SECS := 24 * 3600

  /** Object and item reports are filed under their own name. */
  function StationKey(p: Heard): string {
    if p.objectName.Some? then p.objectName.value else p.source
  }

  /** The frequency in kHz: what its megahertz with three decimals show. */
  function FreqKey(p: Heard): nat {
    (p.frequencyHz + 500) / 1000
  }

  //--------- what an entry means --------

  ghost function CountDirect(log: seq<Heard>): nat {
    if log == [] then 0
    else CountDirect(log[..|log| - 1]) + if log[|log| - 1].direct then 1 else 0
  }

  predicate HasFix(p: Heard) {
    p.latitude.Some? && p.longitude.Some?
  }

  function Transmitter(p: Heard): Option<string> {
    if p.objectName.Some? then Some(p.source) else None
  }

  /** The latest value that any packet of the log carries. */
  ghost function Latest<T>(log: seq<Heard>, carried: Heard -> Option<T>): Option<T> {
    if log == [] then None
    else if carried(log[|log| - 1]).Some? then carried(log[|log| - 1])
    else Latest(log[..|log| - 1], carried)
  }

  /** The last packet with a full position. */
  ghost predicate IsLastFix(log: seq<Heard>, i: int) {
    && 0 <= i < |log| && log[i].latitude.Some? && log[i].longitude.Some?
    && forall j :: i < j < |log| ==> log[j].latitude.None? || log[j].longitude.None?
  }

  /** The source of the last object or item report. */
  ghost function LastReporter(log: seq<Heard>): Option<string> {
    if log == [] then None
    else
      var last := log[|log| - 1];
      if last.objectName.Some? then Some(last.source) else LastReporter(log[..|log| - 1])
  }

  /** The earliest packet that attains the maximum altitude. */
  ghost predicate IsPeak(log: seq<Heard>, i: int) {
    && 0 <= i < |log| && log[i].altitude.Some?
    && forall j :: 0 <= j < |log| && log[j].altitude.Some? ==>
         && log[j].altitude.value <= log[i].altitude.value
         && (j < i ==> log[j].altitude.value < log[i].altitude.value)
  }

  ghost predicate PositionFrom(e: StationEntry, log: seq<Heard>)
    requires log != []
  {
    if exists i :: IsLastFix(log, i) then
      exists i :: IsLastFix(log, i) && e.latitude == log[i].latitude && e.longitude == log[i].longitude
                  && e.positionVia == log[i].via
    else e.latitude == e.longitude == None && e.positionVia == log[0].via
  }

  ghost predicate AltitudeFrom(e: StationEntry, log: seq<Heard>)
    requires log != []
  {
    if exists i :: IsPeak(log, i) then
      exists i :: IsPeak(log, i) && e.altitude == log[i].altitude && e.altitudeVia == log[i].via
    else e.altitude.None? && e.altitudeVia == log[0].via
  }

  ghost predicate TalliesFrom(e: StationEntry, log: seq<Heard>)
    requires log != []
  {
    var last := log[|log| - 1];
    && e.lastHeard == last.time && e.frequencyHz == last.frequencyHz && e.heardDirect == last.direct
    && e.count == |log| && e.countDirect == CountDirect(log) && e.count == e.countDirect + e.countDigipeated
    && e.transmittedBy == LastReporter(log)
    && e.symbolTable == Latest(log, (p: Heard) => p.symbolTable)
    && e.symbolCode == Latest(log, (p: Heard) => p.symbolCode)
  }

  /** The entry of key is the summary of the packets heard under it since it was created. */
  ghost predicate Summarises(e: StationEntry, key: string, log: seq<Heard>) {
    && log != [] && e.callsign == key
    && TalliesFrom(e, log) && PositionFrom(e, log) && AltitudeFrom(e, log)
  }

  /** The summary leaves nothing open: a log has one entry. */
  lemma SummaryIsComplete(e: StationEntry, f: StationEntry, key: string, log: seq<Heard>)
    requires Summarises(e, key, log) && Summarises(f, key, log)
    ensures e == f
  {
  }

  //--------- what the listener does --------

  /** The row an absent key is created with, before its first packet is applied. */
  function NewEntry(key: string, p: Heard): StationEntry {
    StationEntry(key, Transmitter(p), p.time, p.frequencyHz, None, None, None, p.direct, p.via, p.via,
                 None, None, 0, 0, 0)
  }

  /** The updates that one packet makes to its entry, in the order of the source. */
  function Observe(e0: StationEntry, p: Heard): StationEntry {
    var e1 := e0.(lastHeard := p.time, frequencyHz := p.frequencyHz, heardDirect := p.direct,
                  transmittedBy := Or(Transmitter(p), e0.transmittedBy));
    var e2 := if p.direct then e1.(count := e1.count + 1, countDirect := e1.countDirect + 1)
              else e1.(count := e1.count + 1, countDigipeated := e1.countDigipeated + 1);
    var e3 := if HasFix(p) then e2.(latitude := p.latitude, longitude := p.longitude, positionVia := p.via) else e2;
    var e4 := match p.altitude
              case None => e3
              case Some(alt) =>
                if e3.altitude.None? || alt > e3.altitude.value
                then e3.(altitudeVia := p.via, altitude := Some(alt)) else e3;
    e4.(symbolTable := Or(p.symbolTable, e4.symbolTable), symbolCode := Or(p.symbolCode, e4.symbolCode))
  }

  lemma LatestSnoc<T>(log: seq<Heard>, p: Heard, carried: Heard -> Option<T>)
    ensures Latest(log + [p], carried) == Or(carried(p), Latest(log, carried))
  {
  }

  lemma TalliesSnoc(e: StationEntry, log: seq<Heard>, p: Heard)
    requires log != [] && TalliesFrom(e, log)
    ensures TalliesFrom(Observe(e, p), log + [p])
  {
  }

  lemma PositionSnoc(e: StationEntry, log: seq<Heard>, p: Heard)
    requires log != [] && PositionFrom(e, log)
    ensures PositionFrom(Observe(e, p), log + [p])
  {
    var log' := log + [p];
    if HasFix(p) {
      assert IsLastFix(log', |log|);
    } else {
      assert forall i :: 0 <= i < |log| ==> log'[i] == log[i];
      assert forall i :: IsLastFix(log', i) <==> IsLastFix(log, i);
      assert log'[0] == log[0];
    }
  }

  lemma AltitudeSnoc(e: StationEntry, log: seq<Heard>, p: Heard)
    requires log != [] && AltitudeFrom(e, log)
    ensures AltitudeFrom(Observe(e, p), log + [p])
  {
    var log' := log + [p];
    assert forall i :: 0 <= i < |log| ==> log'[i] == log[i];
    assert log'[|log|] == p;
    if i :| IsPeak(log, i) && e.altitude == log[i].altitude && e.altitudeVia == log[i].via {
      if p.altitude.Some? && p.altitude.value > log[i].altitude.value {
        assert IsPeak(log', |log|);
      } else {
        assert IsPeak(log', i);
      }
    } else {
      NoPeakNoAltitude(log);
      if p.altitude.Some? {
        assert IsPeak(log', |log|);
      } else {
        assert forall i :: !IsPeak(log', i);
        assert log'[0] == log[0];
      }
    }
  }

  /** A log that reports any altitude has a peak. */
  lemma {:induction false} NoPeakNoAltitude(log: seq<Heard>)
    ensures (exists i :: IsPeak(log, i)) || forall j :: 0 <= j < |log| ==> log[j].altitude.None?
  {
    if log == [] {
    } else {
      var n := |log| - 1;
      NoPeakNoAltitude(log[..n]);
      assert forall j :: 0 <= j < n ==> log[..n][j] == log[j];
      if i :| IsPeak(log[..n], i) {
        if log[n].altitude.Some? && log[n].altitude.value > log[i].altitude.value {
          assert IsPeak(log, n);
        } else {
          assert IsPeak(log, i);
        }
      } else if log[n].altitude.Some? {
        assert IsPeak(log, n);
      }
    }
  }

  lemma ObserveSummarises(e: StationEntry, key: string, log: seq<Heard>, p: Heard)
    requires Summarises(e, key, log)
    ensures Summarises(Observe(e, p), key, log + [p])
  {
    TalliesSnoc(e, log, p);
    PositionSnoc(e, log, p);
    AltitudeSnoc(e, log, p);
  }

  lemma FirstTallies(key: string, p: Heard)
    ensures TalliesFrom(Observe(NewEntry(key, p), p), [p])
  {
    assert [p][..0] == [];
    assert CountDirect([]) == 0;
    LatestSnoc([], p, (q: Heard) => q.symbolTable);
    LatestSnoc([], p, (q: Heard) => q.symbolCode);
  }

  lemma FirstPosition(key: string, p: Heard)
    ensures PositionFrom(Observe(NewEntry(key, p), p), [p])
  {
    if HasFix(p) {
      assert IsLastFix([p], 0);
    }
  }

  lemma FirstAltitude(key: string, p: Heard)
    ensures AltitudeFrom(Observe(NewEntry(key, p), p), [p])
  {
    if p.altitude.Some? {
      assert IsPeak([p], 0);
    }
  }

  lemma FirstSummarises(key: string, p: Heard)
    ensures Summarises(Observe(NewEntry(key, p), p), key, [p])
  {
    FirstTallies(key, p);
    FirstPosition(key, p);
    FirstAltitude(key, p);
  }

  ghost function LogOf<K>(logs: map<K, seq<Heard>>, k: K): seq<Heard> {
    if k in logs then logs[k] else []
  }

  /** A frequency row counts the packets heard on it since it was created. */
  ghost predicate FreqFrom(row: FreqRow, log: seq<Heard>) {
    log != [] && row == FreqRow(|log|, log[|log| - 1].time)
  }

  ghost predicate HeardWithin(log: seq<Heard>, secs: int, now: int) {
    log != [] && now - log[|log| - 1].time < secs
  }

  function StationTime(e: StationEntry): int {
    e.lastHeard
  }

  function FreqTime(r: FreqRow): int {
    r.lastHeard
  }

  /** Exactly the keys are kept whose last packet came less than so many seconds ago, with their entries. */
  ghost predicate KeepsRecent<K(!new), V>(m: map<K, V>, logs: map<K, seq<Heard>>, kept: map<K, V>,
                                          secs: int, now: int) {
    && (forall k :: k in kept <==> k in m && HeardWithin(LogOf(logs, k), secs, now))
    && forall k :: k in kept ==> kept[k] == m[k]
  }

  /** HashMap::retain: visits the keys in some order, keeps the fresh ones, collects the others. */
  method Retain<K(==), V>(m: map<K, V>, lastHeard: V -> int, now: int, threshold: int)
    returns (kept: map<K, V>, evicted: set<K>)
    ensures forall k :: k in kept <==> k in m && now - lastHeard(m[k]) < threshold
    ensures kept == m - evicted && evicted == m.Keys - kept.Keys
  {
    kept, evicted := m, {};
    var todo := m.Keys;
    while todo != {}
      invariant todo <= m.Keys
      invariant evicted <= m.Keys
      invariant forall k :: k in m && k !in todo ==> (k in evicted <==> now - lastHeard(m[k]) >= threshold)
      invariant evicted !! todo
      invariant kept == m - evicted
      decreases todo
    {
      var k :| k in todo;
      todo := todo - {k};
      if now - lastHeard(m[k]) >= threshold {
        evicted := evicted + {k};
        kept := kept - {k};
      }
    }
  }

  ghost predicate StationsMatch(m: map<string, StationEntry>, logs: map<string, seq<Heard>>) {
    logs.Keys == m.Keys && forall k :: k in m ==> Summarises(m[k], k, logs[k])
  }

  ghost predicate FreqsMatch(m: map<nat, FreqRow>, logs: map<nat, seq<Heard>>) {
    logs.Keys == m.Keys && forall k :: k in m ==> FreqFrom(m[k], logs[k])
  }

  /** The entry of the packet's key after the packet, created if it was absent. */
  function TrackedEntry(m: map<string, StationEntry>, p: Heard): StationEntry {
    var key := StationKey(p);
    Observe(if key in m then m[key] else NewEntry(key, p), p)
  }

  lemma TrackedMatches(m: map<string, StationEntry>, logs: map<string, seq<Heard>>, p: Heard)
    requires StationsMatch(m, logs)
    ensures var key := StationKey(p);
            StationsMatch(m[key := TrackedEntry(m, p)], logs[key := LogOf(logs, key) + [p]])
  {
    var key := StationKey(p);
    if key in m {
      ObserveSummarises(m[key], key, logs[key], p);
    } else {
      FirstSummarises(key, p);
      assert [] + [p] == [p];
    }
  }

  /** Looks the entry up or creates it, and applies the packet. */
  method UpdatedEntry(m: map<string, StationEntry>, ghost logs: map<string, seq<Heard>>, p: Heard)
    returns (entry: StationEntry)
    requires StationsMatch(m, logs)
    ensures var key := StationKey(p);
            StationsMatch(m[key := entry], logs[key := LogOf(logs, key) + [p]])
  {
    TrackedMatches(m, logs, p);
    entry := TrackedEntry(m, p);
  }

  lemma CountedMatches(m: map<nat, FreqRow>, logs: map<nat, seq<Heard>>, p: Heard)
    requires FreqsMatch(m, logs)
    ensures var key := FreqKey(p);
            var row := if key in m then m[key] else FreqRow(0, p.time);
            FreqsMatch(m[key := FreqRow(row.count + 1, p.time)], logs[key := LogOf(logs, key) + [p]])
  {
  }

  lemma StationsAreRecent(m: map<string, StationEntry>, logs: map<string, seq<Heard>>,
                          kept: map<string, StationEntry>, now: int)
    requires StationsMatch(m, logs)
    requires forall k :: k in kept <==> k in m && now - StationTime(m[k]) < STATION_SECS
    requires forall k :: k in kept ==> kept[k] == m[k]
    ensures KeepsRecent(m, logs, kept, 129_600, now)
  {
    forall k | k in m
      ensures LogOf(logs, k) != [] && m[k].lastHeard == LogOf(logs, k)[|LogOf(logs, k)| - 1].time
    {
      LastHeardIs(m[k], k, logs[k]);
    }
  }

  lemma LastHeardIs(e: StationEntry, key: string, log: seq<Heard>)
    requires Summarises(e, key, log)
    ensures log != [] && e.lastHeard == log[|log| - 1].time
  {
  }

  lemma FreqsAreRecent(m: map<nat, FreqRow>, logs: map<nat, seq<Heard>>, kept: map<nat, FreqRow>, now: int)
    requires FreqsMatch(m, logs)
    requires forall k :: k in kept <==> k in m && now - FreqTime(m[k]) < FREQ_SECS
    requires forall k :: k in kept ==> kept[k] == m[k]
    ensures KeepsRecent(m, logs, kept, 86_400, now)
  {
  }

  lemma KeptMatch(m: map<string, StationEntry>, logs: map<string, seq<Heard>>, evicted: set<string>)
    requires StationsMatch(m, logs)
    ensures StationsMatch(m - evicted, logs - evicted)
  {
  }

  lemma KeptFreqsMatch(m: map<nat, FreqRow>, logs: map<nat, seq<Heard>>, evicted: set<nat>)
    requires FreqsMatch(m, logs)
    ensures FreqsMatch(m - evicted, logs - evicted)
  {
  }

  lemma FiledUnderCallsign(m: map<string, StationEntry>, logs: map<string, seq<Heard>>)
    requires StationsMatch(m, logs)
    ensures forall k :: k in m ==> m[k].callsign == k
  {
  }

  /** What a flush leaves in the store, whichever of its calls fail, still summarises some packets. */
  lemma WrittenStationsMatch(db: map<string, StationEntry>, stored: map<string, seq<Heard>>, evicted: set<string>,
                             keys: set<string>, m: map<string, StationEntry>, logs: map<string, seq<Heard>>,
                             calls: Calls<string>)
    requires StationsMatch(db, stored) && StationsMatch(m, logs)
    ensures StationsMatch(Written(Deleted(db, evicted, calls), keys, m, calls),
                          Written(Deleted(stored, evicted, calls), keys, logs, calls))
  {
  }

  lemma WrittenFreqsMatch(db: map<nat, FreqRow>, stored: map<nat, seq<Heard>>, evicted: set<nat>,
                          keys: set<nat>, m: map<nat, FreqRow>, logs: map<nat, seq<Heard>>, calls: Calls<nat>)
    requires FreqsMatch(db, stored) && FreqsMatch(m, logs)
    ensures FreqsMatch(Written(Deleted(db, evicted, calls), keys, m, calls),
                       Written(Deleted(stored, evicted, calls), keys, logs, calls))
  {
  }

  class StationTables {
    var stationMap: map<string, StationEntry>
    var freqCounts: map<nat, FreqRow>
    var dirtyStations: set<string>
    var dirtyFreqs: set<nat>
    ghost var stationLogs: map<string, seq<Heard>>   // the packets of each entry since its creation
    ghost var freqLogs: map<nat, seq<Heard>>
    ghost var storedStations: map<string, seq<Heard>>   // the packets that each stored row summarises
    ghost var storedFreqs: map<nat, seq<Heard>>

    /** Every stored row summarises some packets of its key: what a restart needs to go on from. */
    ghost predicate Stored(store: Store)
      reads this`storedStations, this`storedFreqs, store`stations, store`freqs
    {
      var stations, freqs := StationsMatch(store.stations, storedStations), FreqsMatch(store.freqs, storedFreqs);
      stations && freqs
    }

    ghost predicate Valid()
      reads this
    {
      var stations, freqs := StationsMatch(stationMap, stationLogs), FreqsMatch(freqCounts, freqLogs);
      stations && freqs
    }

    ghost function StationRows(store: Store): Table<string, StationEntry>
      reads this, store
    {
      Table(stationMap, store.stations, dirtyStations)
    }

    ghost function FreqRows(store: Store): Table<nat, FreqRow>
      reads this, store
    {
      Table(freqCounts, store.freqs, dirtyFreqs)
    }

    /** Startup: load both tables; one that fails to load starts empty. The logs of the loaded rows come
        with them. */
    constructor (store: Store, ghost stationLogs: map<string, seq<Heard>>, ghost freqLogs: map<nat, seq<Heard>>,
                 stationsOk: bool, freqsOk: bool)
      requires StationsMatch(store.stations, stationLogs) && FreqsMatch(store.freqs, freqLogs)
      ensures Valid() && Stored(store)
      ensures StationRows(store) == Restart(Table(map[], store.stations, {}), stationsOk)
      ensures FreqRows(store) == Restart(Table(map[], store.freqs, {}), freqsOk)
      ensures this.stationLogs == if stationsOk then stationLogs else map[]
      ensures this.freqLogs == if freqsOk then freqLogs else map[]
    {
      stationMap := if stationsOk then store.stations else map[];
      freqCounts := if freqsOk then store.freqs else map[];
      dirtyStations, dirtyFreqs := {}, {};
      this.stationLogs := if stationsOk then stationLogs else map[];
      this.freqLogs := if freqsOk then freqLogs else map[];
      storedStations, storedFreqs := stationLogs, freqLogs;
    }

    /** The frequency half of the packet arm. */
    method CountFreq(p: Heard)
      requires FreqsMatch(freqCounts, freqLogs)
      modifies this`freqCounts, this`dirtyFreqs, this`freqLogs
      ensures FreqsMatch(freqCounts, freqLogs)
      ensures freqLogs == old(freqLogs)[FreqKey(p) := LogOf(old(freqLogs), FreqKey(p)) + [p]]
      ensures -500 < 1000 * FreqKey(p) - p.frequencyHz <= 500
      ensures FreqKey(p) in freqCounts && freqCounts == old(freqCounts)[FreqKey(p) := freqCounts[FreqKey(p)]]
      ensures dirtyFreqs == old(dirtyFreqs) + {FreqKey(p)}
    {
      CountedMatches(freqCounts, freqLogs, p);
      var key := FreqKey(p);
      dirtyFreqs := dirtyFreqs + {key};
      var row := if key in freqCounts then freqCounts[key] else FreqRow(0, p.time);
      freqCounts := freqCounts[key := FreqRow(row.count + 1, p.time)];
      freqLogs := freqLogs[key := LogOf(freqLogs, key) + [p]];
    }

    /** The station half: the entry keeps summarising the packets of its key. */
    method TrackStation(p: Heard)
      requires StationsMatch(stationMap, stationLogs)
      modifies this`stationMap, this`dirtyStations, this`stationLogs
      ensures StationsMatch(stationMap, stationLogs)
      ensures stationLogs == old(stationLogs)[StationKey(p) := LogOf(old(stationLogs), StationKey(p)) + [p]]
      ensures p.objectName == Some(StationKey(p)) || (p.objectName.None? && StationKey(p) == p.source)
      ensures StationKey(p) in stationMap && stationMap == old(stationMap)[StationKey(p) := stationMap[StationKey(p)]]
      ensures dirtyStations == old(dirtyStations) + {StationKey(p)}
    {
      var key := StationKey(p);
      var entry := UpdatedEntry(stationMap, stationLogs, p);
      dirtyStations := dirtyStations + {key};
      stationMap := stationMap[key := entry];
      stationLogs := stationLogs[key := LogOf(stationLogs, key) + [p]];
    }

    /** The packet arm: both tables take the packet and their keys turn dirty. */
    method OnPacket(p: Heard, ghost store: Store)
      requires Valid()
      modifies this`stationMap, this`dirtyStations, this`stationLogs, this`freqCounts, this`dirtyFreqs, this`freqLogs
      ensures Valid()
      ensures stationLogs == old(stationLogs)[StationKey(p) := LogOf(old(stationLogs), StationKey(p)) + [p]]
      ensures freqLogs == old(freqLogs)[FreqKey(p) := LogOf(old(freqLogs), FreqKey(p)) + [p]]
      ensures StationKey(p) in stationMap && FreqKey(p) in freqCounts
      ensures StationRows(store) == Touch(old(StationRows(store)), StationKey(p), stationMap[StationKey(p)])
      ensures FreqRows(store) == Touch(old(FreqRows(store)), FreqKey(p), freqCounts[FreqKey(p)])
    {
      CountFreq(p);
      TrackStation(p);
    }

    /** Removes the evicted rows, then writes the dirty ones that are still there. */
    method FlushStations(store: Store, evicted: set<string>, calls: Calls<string>)
      requires forall k :: k in stationMap ==> stationMap[k].callsign == k
      modifies this`dirtyStations, store`stations
      ensures dirtyStations == {}
      ensures store.stations == Written(Deleted(old(store.stations), evicted, calls),
                                        old(dirtyStations) - evicted, stationMap, calls)
    {
      ghost var before, dirty := store.stations, dirtyStations;
      var todo := evicted;
      while todo != {}
        invariant todo <= evicted
        invariant dirtyStations == dirty - (evicted - todo)
        invariant store.stations == Deleted(before, evicted - todo, calls)
        decreases todo
      {
        var k :| k in todo;
        DeletedStep(before, evicted, todo, k, calls);
        todo := todo - {k};
        dirtyStations := dirtyStations - {k};
        store.DeleteStation(k, calls.delete(k));
      }
      assert evicted - todo == evicted;
      ghost var deleted, keys := store.stations, dirtyStations;
      todo := dirtyStations;
      while todo != {}
        invariant todo <= keys
        invariant store.stations == Written(deleted, keys - todo, stationMap, calls)
        decreases todo
      {
        var k :| k in todo;
        WrittenStep(deleted, keys, todo, k, stationMap, calls);
        todo := todo - {k};
        if k in stationMap {
          store.UpsertStation(stationMap[k], calls.upsert(k));
        }
      }
      assert keys - todo == keys;
      dirtyStations := {};
    }

    method FlushFreqs(store: Store, evicted: set<nat>, calls: Calls<nat>)
      modifies this`dirtyFreqs, store`freqs
      ensures dirtyFreqs == {}
      ensures store.freqs == Written(Deleted(old(store.freqs), evicted, calls),
                                     old(dirtyFreqs) - evicted, freqCounts, calls)
    {
      ghost var before, dirty := store.freqs, dirtyFreqs;
      var todo := evicted;
      while todo != {}
        invariant todo <= evicted
        invariant dirtyFreqs == dirty - (evicted - todo)
        invariant store.freqs == Deleted(before, evicted - todo, calls)
        decreases todo
      {
        var k :| k in todo;
        DeletedStep(before, evicted, todo, k, calls);
        todo := todo - {k};
        dirtyFreqs := dirtyFreqs - {k};
        store.DeleteFreq(k, calls.delete(k));
      }
      assert evicted - todo == evicted;
      ghost var deleted, keys := store.freqs, dirtyFreqs;
      todo := dirtyFreqs;
      while todo != {}
        invariant todo <= keys
        invariant store.freqs == Written(deleted, keys - todo, freqCounts, calls)
        decreases todo
      {
        var k :| k in todo;
        WrittenStep(deleted, keys, todo, k, freqCounts, calls);
        todo := todo - {k};
        if k in freqCounts {
          store.UpsertFreq(k, freqCounts[k], calls.upsert(k));
        }
      }
      assert keys - todo == keys;
      dirtyFreqs := {};
    }

    /** Flushes both tables, and keeps account of what the stored rows summarise. */
    method FlushBoth(store: Store, evictedStations: set<string>, evictedFreqs: set<nat>,
                     stationCalls: Calls<string>, freqCalls: Calls<nat>)
      requires Valid() && Stored(store)
      modifies this`dirtyStations, this`dirtyFreqs, this`storedStations, this`storedFreqs
      modifies store`stations, store`freqs
      ensures Valid() && Stored(store)
      ensures dirtyStations == {} && dirtyFreqs == {}
      ensures store.stations == Written(Deleted(old(store.stations), evictedStations, stationCalls),
                                        old(dirtyStations) - evictedStations, stationMap, stationCalls)
      ensures store.freqs == Written(Deleted(old(store.freqs), evictedFreqs, freqCalls),
                                     old(dirtyFreqs) - evictedFreqs, freqCounts, freqCalls)
    {
      ghost var keys, freqKeys := dirtyStations - evictedStations, dirtyFreqs - evictedFreqs;
      FiledUnderCallsign(stationMap, stationLogs);
      WrittenStationsMatch(store.stations, storedStations, evictedStations, keys, stationMap, stationLogs,
                           stationCalls);
      WrittenFreqsMatch(store.freqs, storedFreqs, evictedFreqs, freqKeys, freqCounts, freqLogs, freqCalls);
      FlushStations(store, evictedStations, stationCalls);
      FlushFreqs(store, evictedFreqs, freqCalls);
      storedStations := Written(Deleted(storedStations, evictedStations, stationCalls), keys, stationLogs,
                                stationCalls);
      storedFreqs := Written(Deleted(storedFreqs, evictedFreqs, freqCalls), freqKeys, freqLogs, freqCalls);
    }

    /** Puts what was kept in place and persists it: both tables flush as the dirty-set protocol says. */
    method Persist(store: Store, stations: map<string, StationEntry>, evictedStations: set<string>,
                   freqs: map<nat, FreqRow>, evictedFreqs: set<nat>,
                   stationCalls: Calls<string>, freqCalls: Calls<nat>)
      requires Valid() && Stored(store)
      requires stations == stationMap - evictedStations && freqs == freqCounts - evictedFreqs
      modifies this, store`stations, store`freqs
      ensures Valid() && Stored(store)
      ensures stationMap == stations && freqCounts == freqs
      ensures StationRows(store) == Flush(old(StationRows(store)), evictedStations, stationCalls)
      ensures FreqRows(store) == Flush(old(FreqRows(store)), evictedFreqs, freqCalls)
      ensures stationLogs == old(stationLogs) - evictedStations && freqLogs == old(freqLogs) - evictedFreqs
    {
      KeptMatch(stationMap, stationLogs, evictedStations);
      KeptFreqsMatch(freqCounts, freqLogs, evictedFreqs);
      stationMap, stationLogs := stations, stationLogs - evictedStations;
      freqCounts, freqLogs := freqs, freqLogs - evictedFreqs;
      FlushBoth(store, evictedStations, evictedFreqs, stationCalls, freqCalls);
    }

    /** The tick: forget the stations whose last packet is 36 hours old and the frequencies whose last packet is
        24 hours old, then persist. */
    method OnTick(store: Store, now: int, stationCalls: Calls<string>, freqCalls: Calls<nat>)
      returns (evictedStations: set<string>, evictedFreqs: set<nat>)
      requires Valid() && Stored(store)
      modifies this, store`stations, store`freqs
      ensures Valid() && Stored(store)
      ensures KeepsRecent(old(stationMap), old(stationLogs), stationMap, 129_600, now)
      ensures KeepsRecent(old(freqCounts), old(freqLogs), freqCounts, 86_400, now)
      ensures evictedStations == old(stationMap).Keys - stationMap.Keys
      ensures evictedFreqs == old(freqCounts).Keys - freqCounts.Keys
      ensures StationRows(store) == Flush(old(StationRows(store)), evictedStations, stationCalls)
      ensures FreqRows(store) == Flush(old(FreqRows(store)), evictedFreqs, freqCalls)
      ensures stationLogs == old(stationLogs) - evictedStations && freqLogs == old(freqLogs) - evictedFreqs
    {
      var stations, freqs;
      stations, evictedStations := Retain(stationMap, StationTime, now, STATION_SECS);
      freqs, evictedFreqs := Retain(freqCounts, FreqTime, now, FREQ_SECS);
      StationsAreRecent(stationMap, stationLogs, stations, now);
      FreqsAreRecent(freqCounts, freqLogs, freqs, now);
      Persist(store, stations, evictedStations, freqs, evictedFreqs, stationCalls, freqCalls);
    }

    /** The final flush on shutdown writes the dirty rows and evicts nothing. */
    method OnShutdown(store: Store, stationCalls: Calls<string>, freqCalls: Calls<nat>)
      requires Valid() && Stored(store)
      modifies this`dirtyStations, this`dirtyFreqs, this`storedStations, this`storedFreqs
      modifies store`stations, store`freqs
      ensures Valid() && Stored(store)
      ensures StationRows(store) == Flush(old(StationRows(store)), {}, stationCalls)
      ensures FreqRows(store) == Flush(old(FreqRows(store)), {}, freqCalls)
    {
      FlushBoth(store, {}, {}, stationCalls, freqCalls);
      assert stationMap - {} == stationMap && freqCounts - {} == freqCounts;
    }
  }
}

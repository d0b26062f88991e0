/** The persistent statistics store, as keyed tables (src/store.rs). A call that fails leaves the
    tables as they were: every call is one transaction. Whether it succeeds is a parameter. */
module StoreTables {
  import opened Types
  import opened KeyLists
  import opened History

  predicate Distinct(list: seq<string>) {
    forall i, j :: 0 <= i < j < |list| ==> list[i] != list[j]
  }

  ghost predicate InOrder(list: seq<string>, rows: map<string, int>)
    requires forall s :: s in list ==> s in rows
  {
    forall i, j :: 0 <= i < j < |list| ==> rows[list[i]] <= rows[list[j]]
  }

  ghost predicate Restores(list: seq<string>, rows: map<string, int>) {
    Distinct(list) && (forall s :: s in rows <==> s in list) && InOrder(list, rows)
  }

  lemma {:induction false} EarliestExists(keys: set<string>, rows: map<string, int>)
    requires keys != {} && keys <= rows.Keys
    ensures exists s :: s in keys && forall t :: t in keys ==> rows[s] <= rows[t]
  {
    var s :| s in keys;
    if keys != {s} {
      EarliestExists(keys - {s}, rows);
      var e :| e in keys - {s} && forall t :: t in keys - {s} ==> rows[e] <= rows[t];
      var best := if rows[s] <= rows[e] then s else e;
      assert forall t :: t in keys ==> t == s || t in keys - {s};
      assert forall t :: t in keys ==> rows[best] <= rows[t];
    }
  }

  class Store {
    var buckets: Buckets
    var packetLifetime: PacketLifetime
    var aprsisLifetime: AprsisLifetime
    var stations: map<string, StationEntry>
    var freqs: map<nat, FreqRow>
    var slicer: Option<SavedSlicer>
    var satPackets: map<int, SatPacket>
    var watched: map<string, int>

    constructor ()
      ensures buckets == map[] && packetLifetime == NO_PACKETS && aprsisLifetime == NO_LIFETIME
      ensures stations == map[] && freqs == map[] && slicer == None && satPackets == map[] && watched == map[]
    {
      buckets := map[];
      packetLifetime, aprsisLifetime := NO_PACKETS, NO_LIFETIME;
      stations, freqs, slicer, satPackets, watched := map[], map[], None, map[], map[];
    }

    method InsertSatPacket(p: SatPacket, ok: bool)
      modifies this`satPackets
      ensures satPackets == if ok then old(satPackets)[p.time := p] else old(satPackets)
    {
      if ok {
        satPackets := satPackets[p.time := p];
      }
    }

    method DeleteSatPackets(keys: seq<int>, ok: bool)
      modifies this`satPackets
      ensures satPackets == if ok then old(satPackets) - (set k | k in keys) else old(satPackets)
    {
      if ok {
        var table := satPackets;
        for i := 0 to |keys|
          invariant table == satPackets - (set k | k in keys[..i])
        {
          table := table - {keys[i]};
        }
        assert keys[..|keys|] == keys;
        satPackets := table;
      }
    }

    method SaveSlicer(v: SavedSlicer, ok: bool)
      modifies this`slicer
      ensures slicer == if ok then Some(v) else old(slicer)
    {
      if ok {
        slicer := Some(v);
      }
    }

    method UpsertStation(e: StationEntry, ok: bool)
      modifies this`stations
      ensures stations == if ok then old(stations)[e.callsign := e] else old(stations)
    {
      if ok {
        stations := stations[e.callsign := e];
      }
    }

    method DeleteStation(callsign: string, ok: bool)
      modifies this`stations
      ensures stations == if ok then old(stations) - {callsign} else old(stations)
    {
      if ok {
        stations := stations - {callsign};
      }
    }

    method UpsertFreq(frequency: nat, row: FreqRow, ok: bool)
      modifies this`freqs
      ensures freqs == if ok then old(freqs)[frequency := row] else old(freqs)
    {
      if ok {
        freqs := freqs[frequency := row];
      }
    }

    method DeleteFreq(frequency: nat, ok: bool)
      modifies this`freqs
      ensures freqs == if ok then old(freqs) - {frequency} else old(freqs)
    {
      if ok {
        freqs := freqs - {frequency};
      }
    }

    method AddWatchedStation(callsign: string, added: int, ok: bool)
      modifies this`watched
      ensures watched == if ok then old(watched)[callsign := added] else old(watched)
    {
      if ok {
        watched := watched[callsign := added];
      }
    }

    method RemoveWatchedStation(callsign: string, ok: bool)
      modifies this`watched
      ensures watched == if ok then old(watched) - {callsign} else old(watched)
    {
      if ok {
        watched := watched - {callsign};
      }
    }

    /** Every callsign once, in the order of the times they were added. */
    method LoadWatchedStations() returns (list: seq<string>)
      ensures Restores(list, watched)
    {
      list := [];
      var rest := watched.Keys;
      while rest != {}
        invariant rest <= watched.Keys && Distinct(list)
        invariant forall s :: s in watched <==> s in list || s in rest
        invariant forall s :: s in list ==> s !in rest
        invariant InOrder(list, watched)
        invariant forall s, t :: s in list && t in rest ==> watched[s] <= watched[t]
        decreases rest
      {
        EarliestExists(rest, watched);
        var s :| s in rest && forall t :: t in rest ==> watched[s] <= watched[t];
        list := list + [s];
        rest := rest - {s};
      }
    }

    method SavePacketLifetime(v: PacketLifetime, ok: bool)
      modifies this`packetLifetime
      ensures packetLifetime == if ok then v else old(packetLifetime)
    {
      if ok {
        packetLifetime := v;
      }
    }

    method SaveAprsisLifetime(v: AprsisLifetime, ok: bool)
      modifies this`aprsisLifetime
      ensures aprsisLifetime == if ok then v else old(aprsisLifetime)
    {
      if ok {
        aprsisLifetime := v;
      }
    }

    method UpsertBuckets(rows: seq<StatBucket>, ok: bool)
      modifies this`buckets
      ensures buckets == if ok then old(buckets) + Collect(rows) else old(buckets)
    {
      if ok {
        var table := buckets;
        for i := 0 to |rows|
          invariant table == buckets + Collect(rows[..i])
        {
          assert rows[..i + 1][..i] == rows[..i];
          table := table[rows[i].ts := rows[i]];
        }
        assert rows[..|rows|] == rows;
        buckets := table;
      }
    }

    method DeleteBuckets(keys: seq<int>, ok: bool)
      modifies this`buckets
      ensures buckets == if ok then old(buckets) - (set k | k in keys) else old(buckets)
    {
      if ok {
        var table := buckets;
        for i := 0 to |keys|
          invariant table == buckets - (set k | k in keys[..i])
        {
          table := table - {keys[i]};
        }
        assert keys[..|keys|] == keys;
        buckets := table;
      }
    }

    /** Every row, in key order. */
    function LoadBuckets(): seq<StatBucket>
      reads this`buckets
    {
      Rows(buckets)
    }
  }
}

/** The listener's packet counters and their series (rtp_listener in src/stream.rs). */
module PacketStats {
  import opened Types
  import opened Healing
  import opened StoreTables

  class PacketCounters {
    var totalPackets: nat
    var heardDirect: nat
    var digipeated: nat
    var decodeErrors: nat        // the producer only publishes decoded frames: stays 0
    var lifetimeTotal: nat
    var lifetimeDirect: nat
    var lifetimeDigipeated: nat
    var packetsSeries: Series
    var heardDirectSeries: Series
    var digipeatedSeries: Series
    var decodeErrorsSeries: Series
    ghost var hist: seq<Tick>    // every tick of this process

    ghost function Sent(): Quad
      reads this
    {
      Quad(packetsSeries, heardDirectSeries, digipeatedSeries, decodeErrorsSeries)
    }

    /** Direct and digipeated add up: in the open interval, in every past tick, and for life. */
    ghost predicate Valid()
      reads this
    {
      var sent := Sent() == QuadOf(WindowOf(hist, |hist|));
      && sent
      && totalPackets == heardDirect + digipeated
      && lifetimeTotal == lifetimeDirect + lifetimeDigipeated
      && forall i :: 0 <= i < |hist| ==> GoodTick(Packet, hist[i])
    }

    function Lifetime(): PacketLifetime
      reads this
    {
      PacketLifetime(lifetimeTotal, lifetimeDirect, lifetimeDigipeated)
    }

    /** Startup: the lifetime counters continue from the store, or from zero if it cannot be read. */
    constructor (store: Store, loadOk: bool)
      requires store.packetLifetime.total == store.packetLifetime.heardDirect + store.packetLifetime.digipeated
      ensures Valid() && hist == [] && totalPackets == heardDirect == digipeated == decodeErrors == 0
      ensures Lifetime() == if loadOk then store.packetLifetime else PacketLifetime(0, 0, 0)
    {
      var loaded := if loadOk then store.packetLifetime else NO_PACKETS;
      totalPackets, heardDirect, digipeated, decodeErrors := 0, 0, 0, 0;
      lifetimeTotal, lifetimeDirect, lifetimeDigipeated := loaded.total, loaded.heardDirect, loaded.digipeated;
      packetsSeries, heardDirectSeries, digipeatedSeries, decodeErrorsSeries := [], [], [], [];
      hist := [];
    }

    method OnPacket(direct: bool)
      requires Valid()
      modifies this`totalPackets, this`heardDirect, this`digipeated,
               this`lifetimeTotal, this`lifetimeDirect, this`lifetimeDigipeated
      ensures Valid()
      ensures totalPackets == old(totalPackets) + 1 && lifetimeTotal == old(lifetimeTotal) + 1
      ensures heardDirect == old(heardDirect) + (if direct then 1 else 0)
      ensures lifetimeDirect == old(lifetimeDirect) + (if direct then 1 else 0)
    {
      if direct {
        heardDirect, lifetimeDirect := heardDirect + 1, lifetimeDirect + 1;
      } else {
        digipeated, lifetimeDigipeated := digipeated + 1, lifetimeDigipeated + 1;
      }
      totalPackets, lifetimeTotal := totalPackets + 1, lifetimeTotal + 1;
    }

    /** Pushes one point to each series and trims them. */
    method PushSeries(now: int) returns (t: Quad)
      requires Sent() == QuadOf(WindowOf(hist, |hist|))
      modifies this`hist, this`packetsSeries, this`heardDirectSeries, this`digipeatedSeries, this`decodeErrorsSeries
      ensures hist == old(hist) + [Tick(now, totalPackets, heardDirect, digipeated, decodeErrors)]
      ensures t == Sent() == QuadOf(WindowOf(hist, |hist|))
    {
      ghost var tick := Tick(now, totalPackets, heardDirect, digipeated, decodeErrors);
      PushQuad(hist, tick);
      packetsSeries := PushTrim(packetsSeries, DataPoint(now, totalPackets));
      heardDirectSeries := PushTrim(heardDirectSeries, DataPoint(now, heardDirect));
      digipeatedSeries := PushTrim(digipeatedSeries, DataPoint(now, digipeated));
      decodeErrorsSeries := PushTrim(decodeErrorsSeries, DataPoint(now, decodeErrors));
      t := Quad(packetsSeries, heardDirectSeries, digipeatedSeries, decodeErrorsSeries);
      hist := hist + [tick];
    }

    method OnTick(store: Store, now: int, saveOk: bool) returns (t: Quad)
      requires Valid()
      modifies this`totalPackets, this`heardDirect, this`digipeated, this`decodeErrors, this`hist,
               this`packetsSeries, this`heardDirectSeries, this`digipeatedSeries, this`decodeErrorsSeries,
               store`packetLifetime
      ensures Valid()
      ensures hist == old(hist) + [Tick(now, old(totalPackets), old(heardDirect), old(digipeated), old(decodeErrors))]
      ensures t == QuadOf(WindowOf(hist, |hist|))
      ensures totalPackets == heardDirect == digipeated == decodeErrors == 0
      ensures store.packetLifetime == if saveOk then Lifetime() else old(store.packetLifetime)
      ensures saveOk ==> var l := store.packetLifetime; l.total == l.heardDirect + l.digipeated
    {
      t := PushSeries(now);
      totalPackets, heardDirect, digipeated, decodeErrors := 0, 0, 0, 0;
      store.SavePacketLifetime(Lifetime(), saveOk);
    }

    /** The final flush on shutdown. */
    method OnShutdown(store: Store, saveOk: bool)
      requires Valid()
      modifies store`packetLifetime
      ensures store.packetLifetime == if saveOk then Lifetime() else old(store.packetLifetime)
      ensures saveOk ==> var l := store.packetLifetime; l.total == l.heardDirect + l.digipeated
    {
      store.SavePacketLifetime(Lifetime(), saveOk);
    }
  }
}

/** The records that the tasks of the igate exchange (src/config.rs, src/history.rs). */
module Types {

  const TOCALL := "APZJD1"

  datatype Option<+T> = None | Some(value: T)

  function Or<T>(o: Option<T>, other: Option<T>): Option<T> {
    if o.Some? then o else other
  }

  datatype Result<+T, +E> = Success(value: T) | Failure(error: E)

  /** One point of a telemetry series. The timestamp is in whole epoch seconds. */
  datatype DataPoint = DataPoint(timestamp: int, value: nat)

  type Series = seq<DataPoint>

  /** The four series a telemetry event carries, in the order the history merges them. */
  datatype Quad = Quad(s0: Series, s1: Series, s2: Series, s3: Series)

  /** The two telemetry streams. Each owns four fields of a bucket. */
  datatype Kind = Packet | Aprsis

  datatype Field = Total | Direct | Digipeated | Errors | Igated | Dropped | RfReceived | Reconnects

  /** One 15-second bucket of merged statistics. */
  datatype StatBucket = StatBucket(ts: int, total: nat, direct: nat, digipeated: nat, errors: nat,
                                   igated: nat, dropped: nat, rfReceived: nat, reconnects: nat)
  {
    function Set(f: Field, v: nat): StatBucket {
      match f
      case Total => this.(total := v)
      case Direct => this.(direct := v)
      case Digipeated => this.(digipeated := v)
      case Errors => this.(errors := v)
      case Igated => this.(igated := v)
      case Dropped => this.(dropped := v)
      case RfReceived => this.(rfReceived := v)
      case Reconnects => this.(reconnects := v)
    }
  }

  /** The per-reason breakdown of dropped packets. */
  datatype Drops = Drops(stale: nat, rfOnly: nat, query: nat, thirdParty: nat, satellite: nat,
                         duplicate: nat, malformed: nat)
  {
    function Sum(): nat {
      stale + rfOnly + query + thirdParty + satellite + duplicate + malformed
    }
  }

  /** Lifetime packet counters, the row the listener persists on every tick. */
  datatype PacketLifetime = PacketLifetime(total: nat, heardDirect: nat, digipeated: nat)

  const NO_PACKETS := PacketLifetime(0, 0, 0)

  /** Lifetime gating counters, the row the APRS-IS task persists on every telemetry tick. */
  datatype AprsisLifetime = AprsisLifetime(rfReceived: nat, packetsIgated: nat, packetsDropped: nat,
                                           reconnects: nat, drops: Drops, lagged: nat)

  const NO_LIFETIME := AprsisLifetime(0, 0, 0, 0, Drops(0, 0, 0, 0, 0, 0, 0), 0)

  /** A digipeater path, filtered to real callsigns, and its length. */
  datatype Via = Via(path: seq<string>, hops: nat)

  /** What the station table takes from a received packet. */
  datatype Heard = Heard(time: int, frequencyHz: nat, source: string, objectName: Option<string>,
                         direct: bool, via: Via, latitude: Option<real>, longitude: Option<real>,
                         altitude: Option<real>, symbolTable: Option<char>, symbolCode: Option<char>)

  datatype StationEntry = StationEntry(callsign: string, transmittedBy: Option<string>, lastHeard: int,
                                       frequencyHz: nat, latitude: Option<real>, longitude: Option<real>,
                                       altitude: Option<real>, heardDirect: bool, positionVia: Via,
                                       altitudeVia: Via, symbolTable: Option<char>,
                                       symbolCode: Option<char>, count: nat, countDirect: nat,
                                       countDigipeated: nat)

  datatype FreqRow = FreqRow(count: nat, lastHeard: int)

  /** The persisted slicer accumulators: lifetime hits and the visible waterfall rows. */
  datatype SavedSlicer = SavedSlicer(lifetimeHits: seq<nat>, history: seq<seq<nat>>)

  /** A packet of the satellite log: its receive time in microseconds, its key, and the rest. */
  datatype SatPacket = SatPacket(time: int, raw: string)

  function EmptyBucket(ts: int): StatBucket {
    StatBucket(ts, 0, 0, 0, 0, 0, 0, 0, 0)
  }
}

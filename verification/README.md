# rtpigate: a verified model

rtpigate is a receive-only APRS igate. This project models its stateful parts in Dafny 4.11 and proves
what they keep over whole runs: the rolling statistics and their replicas, the gating engine, the
fixed-precision encoders together with their parsers, and two protocols that share state between
concurrent steps. `dafny verify dfyconfig.toml` checks everything.

The code that changes things in place is modelled by classes and loops: `HistoryStore`, `Browser`,
`AprsisTask`, `PacketCounters`, `StationTables`, `SlicerBank`, `SatelliteLog`, `GpsdTask`, `WatchList` and
the tables of `Store`. Each method is proved against a specification function or a step of a state
machine, and the theorems are about those, over all runs. Store calls, socket writes, clocks and channel
delivery are parameters: a call succeeds or fails, a window arrives or is lost, a step happens at a time
that is given.

| module | what it covers |
|---|---|
| `History`, `Healing` | 15-second buckets; merging sliding 100-point windows against merging the whole history |
| `Mirror`, `StoreTables` | the bucket table after every step, with failing calls, crashes and restarts |
| `Replica`, `Chart` | the browser's copy of the history and the points it draws |
| `Pipeline` | the chain from the counters of both tasks to buckets and drawn percentages |
| `PacketStats`, `Aprsis` | the counters of the two streams, and the APRS-IS task as a state machine |
| `Frames`, `Gate`, `Dedup` | the path and flags of a frame, drop policy, igate line, duplicate suppression |
| `DirtyTable`, `Stations` | incremental persistence of the station and frequency tables, and what an entry means |
| `Slicers`, `SatLog` | the slicer waterfall across restarts; the satellite log and its table |
| `Numerals`, `Position`, `Quadratic` | position beacons and telemetry coefficients, printed and read back |
| `Gps`, `Watch` | the GPS cell shared by two tasks; the two-step watch-list handlers |

## Main results

- **Sliding windows lose nothing** (`Healing.SelfHealing`, `Healing.BucketHoldsNewest`): under a forward
  clock, if at most 99 consecutive ticks of a stream are missed, the store equals the merge of both
  streams' unbounded histories. The bound is tight (`Healing.HundredMissedLosesATick`).
- **The browser catches up** (`Replica.ReplicaConverges`): after any live events, any snapshot and one later
  window of each kind that reaches back to it, both sides hold the same buckets, in presence and in value,
  at every key that both clocks retain.
- **The table mirrors the memory** (`Mirror.TableMirrorsMemory`); with failing writes, deletes and loads it
  differs only at named keys (`Mirror.FailuresStayLocal`, `Mirror.CrashRecovers`). Writing only dirty rows
  equals taking a snapshot at each flush (`DirtyTable.CrashRecoversLastFlush`), exactly when no useful call
  failed (`DirtyTable.FlushSyncsIff`), and otherwise everywhere but at the keys in doubt
  (`DirtyTable.CrashRecoversOutsideDoubt`).
- **Counts stay consistent end to end** (`Pipeline.CountersMakeGoodBuckets`, `Pipeline.BrowserIsGood`,
  `Pipeline.NodeStaysGood`): whatever windows of the two tasks arrive, every bucket of server, table and
  browser keeps total = direct + digipeated and igated + dropped <= received.
- **Gating**: the purged cache decides as the full log would (`Dedup.RunRefinesLog`); a packet is gated
  exactly when it should be, stated on its bytes (`Gate.PassesIffFit`, `Aprsis.GatedIff`), every other one gets
  the outcome it should (`Aprsis.VerdictIff`), and every counter is the number of packets it stands for
  (`Aprsis.CountersTally`); totals are conserved (`Aprsis.LifetimeIsConserved`); a written line is one line and
  determines the packet (`Gate.LineRoundTrip`), and the bytes of a connection determine its lines, gated ones and
  the igate's own (`Gate.StreamIsInjective`). A crash recovers the totals of the last successful save
  (`Aprsis.CrashRecoversLastSave`).
- **Encoders**: a beacon parses to within a hundredth of a minute, or a thousandth or a 9100th with the DAO
  token (`Position.BeaconRoundTrip`, `Position.DaoTightens`), and its sender, destination, time, symbol, altitude
  and name read back (`Position.BeaconIsAddressed`, `Position.FixedFields`, `Position.CommentReads`); a telemetry
  value is recovered exactly when it is above -1 or below -255 (`Quadratic.InvertsIff`).
- **Tables**: a station stays exactly while its last packet is younger than 36 hours, a frequency 24 hours
  (`Stations.StationTables.OnTick`), and its entry is the summary of its packets (`Stations.ObserveSummarises`).
- **Shared state**: a GPS beacon comes from one usable report, in every interleaving
  (`Gps.BeaconIsLatestPublishedTpv`); the watch list stays legal in every interleaving and agrees with its
  table when requests for one station do not overlap (`Watch.ListStaysLegal`, `Watch.MembershipAgrees`), and
  for overlaps exactly when `Watch.AlwaysAgreesIff` says.

## Where the code does less than its comments say

- src/sse.rs:131-133 says that the next tick retries a failed store call. The next tick retries only what it
  names again: a failed write goes out with a later window that covers its bucket, or with the full write of a
  graceful stop (`Mirror.StopRecovers`); a failed delete goes out with a later tick that names the expired key
  (`Mirror.OrphanGoesIff`), or at a restart that can load and delete. Left alone, the row stays
  (`Mirror.FailedDeleteIsNotRetried`). When one tick's failures matter at all is `Mirror.MergeMirrorsIff`.
- src/stream.rs:569-571 says that the next tick retries. The dirty sets are drained regardless, so a failed
  row is not written again until its key is heard again (`DirtyTable.FailedWriteIsNotRetried`).
- A startup load that fails starts its part empty beside a full table (src/main.rs:224-262,
  src/stream.rs:343-374, src/aprs_is.rs:292-308). For buckets, stations and frequencies nothing is lost until
  a key is written again (`Mirror.FailedLoadIsNotFatal`, `DirtyTable.FailedLoadIsNotFatal`); the lifetime
  totals are replaced for good by the next save (`Aprsis.FailedLoadErasesTotals`).
- src/main.rs:219-222 says that the satellite log is pruned when it is seeded; it is pruned by the first
  listener tick only. `SatLog.SatelliteLog.constructor` follows the code.
- src/aprs_is.rs:628-632 calls the check at the write boundary redundant. It is not: a trailing CR or LF in
  an address field passes the policy (`Gate.PolicyAloneIsNotEnough`).
- src/igate.rs:446 says that reports are padded to five items; the loop pads to four (`Quadratic.ToAprs`).
  The one caller always has five items (`Aprsis.AprsisTask.OnReportTick`).
- The last base-128 digit of a large fractional value can round up to 128 (`Quadratic.LastDigitCanOverflow`,
  `Quadratic.LastDigitFitsIff`). The large values that are reported are counts, which never do
  (`Aprsis.ReportRecovers`).
- Values from -255 to -1 lose their sign to `as u32` (`Quadratic.InvertsIff`). The code never encodes one.
- The epsilon in src/igate.rs:164-165 prints 60.00 minutes within 1e-8 minute of the next degree, and only
  there (`Position.MinutesOverflowIff`).
- JavaScript's remainder floors a negative epoch to another bucket than the server does
  (`Replica.FloorsAgree`).
- Removing a watched station does not trim its name, adding one does (`Watch.DeleteUndoesPostIff`), and a
  restart does not apply the cap of twenty (`Watch.RestartCanExceedCap`).

## Model

| member | source | states |
|---|---|---|
| `History.BucketKey` | src/history.rs:65-67 | the multiple of 15 at or below an epoch second, negative seconds included |
| `History.HistoryStore.FromBuckets` | src/history.rs:58-62 | the collected buckets; of two with one key the later |
| `History.HistoryStore.MergeSeries` | src/history.rs:73-86 | last write wins: each named key's field holds the last point flooring to it, all else is kept, and every point's key is returned |
| `History.HistoryStore.UpdateFromPacket` | src/history.rs:90-99 | the four stream-side series merged into their own fields; the touched keys sorted, each once |
| `History.HistoryStore.UpdateFromAprsis` | src/history.rs:103-112 | the four APRS-IS-side series merged into their own fields; the touched keys sorted, each once |
| `History.RowsFor` | src/history.rs:115-119 | exactly the buckets of those keys that are present |
| `History.HistoryStore.Prune` | src/history.rs:123-131 | keeps exactly the buckets from the 15-second boundary 86400 s before the current one on, and returns the keys of the others in order |
| `History.CollectRows` | src/history.rs:58-62 | listing a well-keyed store oldest first and rebuilding from the list gives it back |
| `History.MergeQuadKeepsKeying` | src/history.rs:73-112 | every bucket stays filed under its own ts, a multiple of 15 |
| `Healing.PushQuad` | src/stream.rs:440-451 | pushing a point to each of four series and trimming to 100 slides the window of ticks by one |
| `Healing.QuadMergesTicks` | src/history.rs:90-112 | merging four equally stamped series field by field stamps whole ticks, newest last |
| `Healing.Absorb` | src/history.rs:69-86 | two overlapping windows merge to what their union merges to |
| `Healing.Commute` | src/history.rs:7-11 | the two streams' merges commute |
| `Healing.PruneThrough` | src/sse.rs:59-85 | pruning before a merge makes no difference after a later prune |
| `Healing.SelfHealing` | src/history.rs:69-112 | with at most 99 ticks missed in a row, every run's store is the merge of the seed and both whole histories, pruned at the last clock |
| `Healing.BucketHoldsNewest` | src/history.rs:69-112 | bucket by bucket: which keys are retained, and that each field is the newest point of its stream's whole history at that key |
| `Healing.MissedTicksDoNotMatter` | src/history.rs:69-72 | any two such deliveries, one of which may be of every tick, end in the same store |
| `Healing.HundredMissedLosesATick` | src/stream.rs:446-451 | missing 100 ticks loses a bucket |
| `Healing.CrossFieldInvariant` | src/history.rs:90-112 | if every tick sent has total = direct + digipeated and igated + dropped <= received, so has every bucket of every reachable store |
| `PacketStats.PacketCounters.OnPacket` | src/stream.rs:712-720 | counts one packet as direct or digipeated; interval and lifetime totals stay their sums |
| `PacketStats.PacketCounters.OnTick` | src/stream.rs:440-472 | sends the window of the last 100 ticks, each balanced, and resets the interval |
| `PacketStats.PacketCounters.constructor` | src/stream.rs:343-350 | the lifetime counters continue from the store, or from zero if it cannot be read; the interval starts at zero |
| `PacketStats.PacketCounters.OnShutdown` | src/stream.rs:845-851 | stores lifetime counters that the next process can start from |
| `StoreTables.Store.UpsertBuckets` | src/store.rs:983-990 | every row replaces or adds its key in one transaction, or none does |
| `StoreTables.Store.DeleteBuckets` | src/store.rs:993-1005 | exactly those keys go, or none does |
| `StoreTables.Store.DeleteSatPackets` | src/store.rs:1024-1036 | exactly those keys go, or none does |
| `StoreTables.Store.LoadWatchedStations` | src/store.rs:1042-1048 | every watched callsign once, in the order of adding |
| `Mirror.PersistHistory` | src/sse.rs:134-141 | touched buckets are written first, then pruned keys removed; each call may fail alone |
| `Mirror.PruneAndPersist` | src/sse.rs:61-67 | after the prune, the table gains the touched buckets still present and loses the pruned keys |
| `Mirror.OnPacketStatus` | src/sse.rs:56-67 | merges, prunes and persists as one step of the node |
| `Mirror.OnAprsisStatus` | src/sse.rs:74-85 | the same for the APRS-IS window |
| `Mirror.Startup` | src/main.rs:235-246 | memory := unexpired rows of the table, whose expired rows are deleted; empty beside an untouched table if the load fails |
| `Mirror.OnStop` | src/main.rs:496-508 | a graceful stop writes the whole memory over the table, or nothing |
| `Mirror.StopRecovers` | src/main.rs:496-508 | after a stop whose write succeeds, a restart that can load has the memory's buckets over the table's, unexpired, whatever failed before |
| `Mirror.MergeMirrorsIff` | src/sse.rs:134-141 | one tick keeps the mirror exactly when its write succeeded or had nothing new to store, and its delete succeeded or had nothing to remove |
| `Mirror.TableMirrorsMemory` | src/sse.rs:56-91 | with working calls the table equals the memory after every run, is well keyed, and holds no expired key, also when a stale window re-creates expired buckets |
| `Mirror.FailuresStayLocal` | src/sse.rs:134-141 | with failing calls memory and table agree on every unexpired key but those of a failed write, or after a failed load those of the table, until a write or a stop covers them or a load succeeds |
| `Mirror.CrashRecovers` | src/main.rs:235-246 | a crash, if the load then succeeds, recovers every unexpired bucket outside those keys exactly |
| `Mirror.FailedDeleteIsNotRetried` | src/sse.rs:131-141 | a row whose delete failed survives any run of later ticks that leave its key alone, and goes at a successful restart |
| `Mirror.OrphanStays` | src/sse.rs:59-67 | no tick changes a row whose key it does not touch and the memory does not have |
| `Mirror.OrphanGoesIff` | src/sse.rs:134-141 | while its key stays expired, a row the memory does not have goes exactly when a tick names the key and its delete succeeds |
| `Mirror.FailedLoadIsNotFatal` | src/main.rs:235-246 | after a failed load and any ticks, the next successful load brings back every unexpired row whose key they left alone |
| `Replica.FloorsAgree` | frontend/assets/app.js:1059-1061 | browser and server name the same bucket exactly for epochs from 1970 on or on a boundary |
| `Replica.FloorIsTowardZero` | frontend/assets/app.js:1059-1061 | the browser's floor is the multiple at or below an epoch second from 1970 on, and the next one towards zero before |
| `Replica.Browser.MergeSeriesIntoBuckets` | frontend/assets/app.js:1066-1078 | last write wins, in the written field only |
| `Replica.Browser.PruneActivityBuckets` | frontend/assets/app.js:1081-1088 | keeps exactly the buckets from the cutoff on |
| `Replica.Browser.SeedActivityHistory` | frontend/assets/app.js:1092-1108 | the snapshot overwrites its buckets and keeps all others |
| `Replica.Browser.OnPacketStatistics` | frontend/assets/app.js:2245-2250 | merges the four stream-side series, then prunes |
| `Replica.Browser.OnAprsisStatistics` | frontend/assets/app.js:2266-2271 | merges the four APRS-IS-side series, then prunes |
| `Replica.BrowserStepIsServerStep` | frontend/assets/app.js:1063-1088 | from 1970 on, a browser event does what the server's step does |
| `Replica.LiveEventsKeepZero` | frontend/assets/app.js:1066-1078 | live events alone, lost or repeated, never invent counts |
| `Replica.BrowserRunIsRun` | frontend/assets/app.js:1059-1088 | over whole runs from 1970 on, the browser's own floor, merge and prune do what the server's do |
| `Replica.ValuesConverge` | frontend/assets/app.js:1090-1108 | a bucket that both sides hold, at the end of a browser run that reached back to its snapshot, is the same |
| `Replica.PresenceConverges` | frontend/assets/app.js:1081-1108 | at a key both clocks retain, one side has a bucket exactly when the other has |
| `Replica.ReplicaConverges` | frontend/assets/app.js:1090-1108 | so from the later of both cutoffs on, the browser's buckets are the server's |
| `Replica.SomeSession` | frontend/assets/app.js:1090-1108 | such a session exists: the snapshot is taken before, and applied before, one tick of each stream |
| `Chart.AccumulateSlots` | frontend/assets/app.js:1130-1143 | each slot from the start on holds the sums of its own interval |
| `Chart.BuildDisplaySeries` | frontend/assets/app.js:1123-1161 | 60 points of a minute or 24 of an hour, the last being the current one; each shows the direct and total packets of its interval, and to a twentieth the percentage gated of what was received, none exactly where nothing was |
| `Chart.PointsPartition` | frontend/assets/app.js:1130-1159 | any prefix of the points adds up to the raw buckets of the time it covers |
| `Chart.ChartConserves` | frontend/assets/app.js:1123-1161 | the whole chart adds up to the raw buckets from its start through the end of the current point |
| `Chart.PercentIsOne` | frontend/assets/app.js:1153 | a percentage is drawn exactly where something was received; it lies in 0..100, within a twentieth of igated / received |
| `Gate.TrimEnd` | src/igate.rs:62-69 | the longest prefix not ending in CR or LF |
| `Gate.EmbeddedIff` | src/igate.rs:54-71 | the trimmed field holds a CR or LF exactly when the field holds one with something else behind it |
| `Gate.PassesIffFit` | src/igate.rs:53-117 | a packet passes exactly when no field holds a CR or LF before its trailing ones, it is at most 30 s old, not RF-only, no query, no third-party text that names TCPIP or TCPXX in any letter case behind its first character, and not heard straight from a satellite unless its source is one of six, byte for byte |
| `Gate.ReasonIsFirstBroken` | src/igate.rs:53-117 | a dropped packet gets the reason of the first of those rules that it breaks, in the order of the source |
| `Gate.AgingOnlyMakesStale` | src/igate.rs:53-117 | a packet that passes at some age passed at every earlier one, and later fails as stale only |
| `Gate.ForRxigateBytes` | src/stream.rs:234-246 | source, >, destination, a comma and the path if there is one, `,qAO,`, callsign, colon, then the original bytes |
| `Gate.WireIsOneLine` | src/aprs_is.rs:626-655 | what is written is the line, CR and LF: content free of CR and LF, then a run of them |
| `Gate.WireRefusedIff` | src/aprs_is.rs:633-646 | refused exactly when an address field holds a CR or LF, or the payload holds one before its trailing ones |
| `Gate.PolicyAloneIsNotEnough` | src/aprs_is.rs:628-632 | a packet that the policy passes and the boundary refuses |
| `Gate.LineRoundTrip` | src/stream.rs:234-246 | for delimiter-free addresses the line reads back to source, destination, path and payload |
| `Gate.WireIsInjective` | src/aprs_is.rs:626-655 | packets with the same bytes on the wire agree on those four |
| `Gate.OwnLineReads` | src/aprs_is.rs:758-762 | a line of the igate's own comes from its callsign and goes to APZJD1,TCPIP* |
| `Gate.GatedIsNotOwn` | src/aprs_is.rs:758-762 | no beacon or report line of the igate's own reads like a gated one |
| `Gate.StreamIsInjective` | src/aprs_is.rs:626-655 | the bytes of all lines of a connection, gated and own in any order, determine each line: kind, and source, destination, path and payload or own text, however the payloads end |
| `Gate.DedupKeyIsFaithful` | src/aprs_is.rs:608 | for colon-free sources two keys are equal exactly when source and info are |
| `Dedup.CacheDecides` | src/aprs_is.rs:611-620 | the cache suppresses a key exactly when the full log holds it less than 30 s earlier |
| `Dedup.PurgeKeeps` | src/aprs_is.rs:478-481 | purging keeps that refinement, and keeps exactly the keys gated less than 30 s ago |
| `Dedup.GateKeeps` | src/aprs_is.rs:667-668 | so does recording a packet, and packets with one key stay 30 s apart |
| `Dedup.RunRefinesLog` | src/aprs_is.rs:606-620 | over every run of ticks, packets and failed writes under a forward clock |
| `Dedup.BackwardClockForgets` | src/aprs_is.rs:480-481 | a purge before a clock step back lets a duplicate through |
| `Aprsis.AprsisTask.constructor` | src/aprs_is.rs:281-308 | a process starts from given totals with every other counter at zero, an empty cache and balanced books |
| `Aprsis.AprsisTask.Judge` | src/aprs_is.rs:587-672 | policy, duplicate check, boundary and write decide as the full log calls for; only a successful write is remembered |
| `Aprsis.GatedIff` | src/aprs_is.rs:587-672 | gated exactly when gating is on, the packet is fit, the log holds no equal one under 30 s old, its line is one line and the write succeeds |
| `Aprsis.VerdictIff` | src/aprs_is.rs:587-672 | every other outcome, stated on the packet's fields, the log and the write: one of six reasons, duplicate, refused, lost, or gating off |
| `Aprsis.AprsisTask.OnPacket` | src/aprs_is.rs:574-675 | that decision, and every counter moved as it says |
| `Aprsis.AprsisTask.OnTelemetryTick` | src/aprs_is.rs:474-547 | the cache then holds exactly the keys gated less than 30 s ago; sends the 100-point window, resets the interval, persists the totals |
| `Aprsis.AprsisTask.OnConnected` | src/aprs_is.rs:402-412 | every connection but the process's first counts as a reconnect |
| `Aprsis.AprsisTask.OnLagged` | src/aprs_is.rs:678-681 | lagged messages are counted, change nothing else, and keep the books balanced |
| `Aprsis.AprsisTask.OnReportTick` | src/aprs_is.rs:687-795 | a receiver computes packets received, satellite packets and packets off 144.39 MHz exactly, and 100 dropped / received and 100 direct / received within half a millionth, in this order; counters and sequence move on only if every write succeeded |
| `Aprsis.AprsisTask.OnShutdown` | src/aprs_is.rs:827-846 | stores totals that the next process can start from |
| `Aprsis.AttributedOnce` | src/aprs_is.rs:126-134 | each drop adds one to the sum of the seven reasons, nothing else does |
| `Aprsis.CountersTally` | src/aprs_is.rs:577-672 | over every run with ticks, reports, reconnects, crashes and restarts: each of the seven reasons and each lifetime total is what the process started from plus the packets judged so since; the open interval counts since the last tick, the open report since the last one sent |
| `Aprsis.PacketBalances` | src/aprs_is.rs:577-671 | drops = sum of reasons; received = igated + dropped + lost; totals = start + past ticks + open interval: kept by a packet |
| `Aprsis.TickBalances` | src/aprs_is.rs:484-529 | kept by a tick, which moves the open interval into the history |
| `Aprsis.LifetimeIsConserved` | src/aprs_is.rs:483-546 | each lifetime total = starting value + points trimmed + visible series + open interval |
| `Aprsis.AprsisTask.Start` | src/aprs_is.rs:290-308 | a start or restart takes the stored totals, or zero if they cannot be read |
| `Aprsis.CrashRecoversLastSave` | src/aprs_is.rs:531-546 | over every run with lags, stops, crashes and failing saves and loads the books balance and the stored totals are those of the last successful save |
| `Aprsis.CrashLosesUnsaved` | src/aprs_is.rs:531-546 | a crash loses exactly the packets received since the last successful save or restart |
| `Aprsis.FailedLoadErasesTotals` | src/aprs_is.rs:290-308 | a restart that cannot read the totals replaces them for good at its next save |
| `Pipeline.CountersMakeGoodStreams` | src/stream.rs:712-720 | the invariants of both tasks' counters make every tick they send satisfy the two relations |
| `Pipeline.CountersMakeGoodBuckets` | src/history.rs:90-112 | so every bucket does, whichever of their windows arrive |
| `Pipeline.BrowserIsGood` | frontend/assets/app.js:1063-1108 | so has every bucket of the browser, whenever its snapshot was taken and whatever it missed |
| `Pipeline.DrawnPercentagesHold` | frontend/assets/app.js:1153 | and every percentage drawn from the browser's buckets is in 0..100 |
| `Pipeline.NodeStaysGood` | src/main.rs:235-246 | memory and table keep the two relations over restarts, stops and failing calls, so every process starts from a good seed |
| `Aprsis.PercentageInRange` | src/aprs_is.rs:717-730 | the two percentages stay in 0..100, so the clamps at zero never act |
| `Aprsis.ReportRecovers` | src/aprs_is.rs:717-739 | those five values, from any balanced books; the percentages take the a = 0, b = 1 form, and every item has one of the two coefficient shapes |
| `Frames.PathContainsIff` | src/stream.rs:948-953 | a comma-free word is in the joined path exactly when it is in one of the callsigns |
| `Frames.PathJoins` | src/stream.rs:948-953 | the path text is the callsigns in order with commas between them |
| `Frames.RfOnlyIffPathNames` | src/stream.rs:973-977 | the RF-only flag is set exactly when a callsign holds TCPIP, TCPXX, RFONLY or NOGATE, and exactly when the path text does |
| `Frames.MarkedPathIsNeverGated` | src/igate.rs:80-83 | so a packet whose path names one is never gated |
| `Frames.PathIsInjective` | src/stream.rs:948-953 | the path text determines the callsigns in order |
| `Frames.WireDeterminesCalls` | src/stream.rs:234-246 | equal bytes on the wire come from equal via callsigns |
| `Frames.DigipeaterPathSelects` | src/stream.rs:954-961 | the digipeater path lists exactly the callsigns that hold none of WIDE, TCPIP, NOGATE, RFONLY and SGATE, in order |
| `DirtyTable.TouchKeepsSync` | src/stream.rs:733-740 | marking a key dirty keeps memory and table equal outside the dirty set |
| `DirtyTable.FlushSyncsIff` | src/stream.rs:592-617 | a flush leaves them equal exactly when no useful call failed |
| `DirtyTable.FlushIsSnapshot` | src/stream.rs:590-617 | if all calls succeed the table is a snapshot, also for keys both dirty and evicted |
| `DirtyTable.FailedWriteIsNotRetried` | src/stream.rs:604-617 | memory and the failed row stay as they were, and different, through any run of later flushes that leave the key alone |
| `DirtyTable.LeftAlone` | src/stream.rs:590-617 | a clean key that is left alone keeps its entry and its row through any run |
| `DirtyTable.CrashRecoversLastFlush` | src/stream.rs:592-617 | over every run, a crash recovers exactly the last flush |
| `DirtyTable.FailuresStayLocal` | src/stream.rs:590-617 | over every run with failing calls, memory and table agree on every key but the dirty ones and those whose last useful call failed or whose load did |
| `DirtyTable.CrashRecoversOutsideDoubt` | src/stream.rs:590-617 | a crash recovers the row of the last flush or restart at every key not in doubt |
| `DirtyTable.FailedLoadIsNotFatal` | src/stream.rs:351-367 | a row whose key is left alone after a failed load comes back with the next load that succeeds |
| `Stations.SummaryIsComplete` | src/stream.rs:743-792 | the declarative summary determines the whole entry |
| `Stations.ObserveSummarises` | src/stream.rs:762-792 | one more packet keeps an entry the summary of its packets: last fix, earliest packet of maximum altitude, counts, latest symbol and transmitter |
| `Stations.FirstSummarises` | src/stream.rs:743-792 | a new entry summarises its first packet |
| `Stations.Retain` | src/stream.rs:502-511 | a key stays exactly when it was last heard less than the threshold ago; the others are returned |
| `Stations.StationTables.constructor` | src/stream.rs:351-367 | each table starts as its stored rows, or empty if they do not load, nothing dirty |
| `Stations.StationTables.CountFreq` | src/stream.rs:732-736 | the row of the nearest kilohertz counts its packets since creation |
| `Stations.StationTables.TrackStation` | src/stream.rs:738-792 | the entry of the object name, or else the source, summarises its packets since creation |
| `Stations.StationTables.OnPacket` | src/stream.rs:731-792 | both tables take the packet and mark its keys dirty |
| `Stations.StationTables.FlushStations` | src/stream.rs:592-610 | evicted rows deleted, then dirty rows that are still there written |
| `Stations.StationTables.FlushFreqs` | src/stream.rs:598-617 | the same for frequencies |
| `Stations.StationTables.FlushBoth` | src/stream.rs:590-617 | whichever calls fail, every stored row still summarises some packets of its key |
| `Stations.StationTables.OnTick` | src/stream.rs:500-617 | a station stays, unchanged, exactly when its last packet came less than 129600 s ago, a frequency when it came less than 86400 s ago; then both tables flush |
| `Stations.StationTables.OnShutdown` | src/stream.rs:862-875 | a last flush that evicts nothing |
| `Slicers.RolledFits` | src/stream.rs:479-484 | rolling keeps at most ten rows of the bank's width, covered by the lifetime hits |
| `Slicers.RolledShowsLast` | src/stream.rs:479-484 | the visible rows are the last ten of those taken over and the windows since |
| `Slicers.ClosedWindowAccounts` | src/stream.rs:479-484 | closing a window moves its hits from open to completed |
| `Slicers.SlicerBank.constructor` | src/stream.rs:368-374 | saved accumulators, if they load, are held aside until the bank is known |
| `Slicers.SlicerBank.Learn` | src/stream.rs:641-672 | saved accumulators of the bank's width are taken over, others discarded; in both cases lifetime hits cover the rows |
| `Slicers.SlicerBank.Tally` | src/stream.rs:724-729 | each slicer in the mask gets one hit in the open window and for life, no other does |
| `Slicers.SlicerBank.OnTick` | src/stream.rs:479-484 | appends the window, drops the oldest row beyond ten, zeroes the open window, saves once the bank is known; lifetime = value at learning + windows since + open |
| `Slicers.SlicerBank.OnShutdown` | src/stream.rs:852-861 | what is saved fits a restart and includes the open window's hits |
| `SatLog.Popped` | src/stream.rs:518-526 | the prune stops at the first packet that is not expired |
| `SatLog.PruneIsExactIff` | src/stream.rs:515-527 | it removes every expired packet exactly when they all stand in front |
| `SatLog.PruneMirrorsIff` | src/stream.rs:618-620 | deleting the popped keys leaves the kept packets' table exactly when no kept packet shares a popped time |
| `SatLog.PruneMirrors` | src/stream.rs:513-527 | so it does whenever expired packets stand in front, also with shared timestamps |
| `SatLog.DisorderLosesARow` | src/stream.rs:515-527 | out of order, a packet stays in the log and loses its row |
| `SatLog.PruneSorted` | src/stream.rs:515-527 | after a prune of a sorted log exactly the packets not older than 86400000000 microseconds remain |
| `SatLog.RestartKeepsTable` | src/store.rs:1009-1015 | a restart queues a sorted log that stands for the same table |
| `SatLog.SatelliteLog.constructor` | src/main.rs:223-229 | the log is seeded from the table and mirrors it, or is empty beside it if the load fails |
| `SatLog.SatelliteLog.OnPacket` | src/stream.rs:797-807 | queues and stores the packet; the table maps each time to the last packet queued with it, and rows that the log never loaded stay |
| `SatLog.SatelliteLog.PopExpired` | src/stream.rs:515-527 | pops the expired prefix and returns its keys |
| `SatLog.SatelliteLog.OnTick` | src/stream.rs:513-527 | exactly the packets older than 24 h go, and the table still mirrors the log; rows that the log never loaded stay |
| `SatLog.FailuresStayLocal` | src/stream.rs:513-527 | over every run with failing inserts, deletes and loads, log and table agree on every time whose last call did not fail |
| `SatLog.CrashRecovers` | src/main.rs:223-229 | a crash, if the load then succeeds, brings back what the log held at every such time |
| `Numerals.PadReads` | src/igate.rs:172-185 | a zero-padded number reads as itself |
| `Numerals.ParsesIff` | frontend/assets/app.js:781-783 | parseFloat yields a number exactly when a digit comes first, or a point and then a digit |
| `Numerals.ParseHundredths` | frontend/assets/app.js:781-782 | parseFloat on digits, a point and digits |
| `Position.SplitBounds` | src/igate.rs:155-168 | the printed minutes lie in (m - 0.01, m + 1e-8] and the remainder in [0, 0.01) |
| `Position.MinutesOverflowIff` | src/igate.rs:164-165 | 60.00 is printed exactly within 1e-8 minute of the next degree |
| `Position.ClampsNeverEngage` | src/igate.rs:195-196 | the DAO digit is 0..9 and the base-91 value 0..90 without their clamps |
| `Position.DaoBounds` | src/igate.rs:17-21 | with the DAO part the bound tightens to 0.001 or 0.01/91 minute |
| `Position.AxisText` | frontend/assets/app.js:775-787 | degrees, minutes and hemisphere of a printed axis are read back |
| `Position.ParsesDdmmIff` | frontend/assets/app.js:775-787 | an axis is read exactly if three characters or more stand before its first point, a digit first and a digit two places before the point |
| `Position.FieldsAreFound` | frontend/assets/app.js:809-859 | latitude and longitude are taken from their places behind a type character, a timestamp, or an object's name, marker and timestamp |
| `Position.CompressedReads` | frontend/assets/app.js:790-846 | a compressed position is read as two base-91 numerals of four characters, and refused exactly when it is short or one of them is below `!` |
| `Position.SentIff` | src/igate.rs:130-252 | a beacon exists exactly for a complete location with a positive altitude and nonzero coordinates; which of the two errors otherwise |
| `Position.BeaconIsAddressed` | src/igate.rs:230-233 | its text up to the first > is the callsign, and from there to the first colon APZJD1,TCPIP* |
| `Position.BeaconRoundTrip` | src/igate.rs:122-247 | every beacon for an in-range position parses to the same hemispheres and magnitudes in (m - 0.01, m + 1e-8] minutes |
| `Position.FixedFields` | src/igate.rs:208-244 | time of day, the overlay asked for or else the symbol's first character, and its second character stand at their places |
| `Position.SymbolReads` | frontend/assets/app.js:876-946 | the browser shows those two, table characters without an overlay |
| `Position.SymbolPlaces` | frontend/assets/app.js:884-914 | where table and code stand behind each data type, and that a text too short for them shows no symbol |
| `Position.ObjectSymbolPlaces` | frontend/assets/app.js:915-938 | the same for an object report, from its live marker on, or its dead one if it has no live one |
| `Position.CommentReads` | src/igate.rs:228-244 | the altitude digits are the nearest foot, ties to even; the name follows them, then the five characters of the DAO token and nothing else |
| `Position.DaoReads` | src/igate.rs:192-206 | the token at the end gives the minutes it encodes, in both forms |
| `Position.DaoTightens` | src/igate.rs:187-206 | parsed minutes plus DAO minutes are short by less than 0.001 (human) or 0.01/91 (base 91) |
| `Quadratic.SmallValues` | src/igate.rs:314-331 | a = 0, b = 1, x the whole part from 0 to 255, or 0 for a negative value; recovered exactly when above -1 |
| `Quadratic.LargeValues` | src/igate.rs:333-368 | x = 128, b a digit below 128 in magnitude, c at most 128 and for integers below; always recovered |
| `Quadratic.LastDigitFitsIff` | src/igate.rs:333-368 | c is below 128 in magnitude exactly when the value's magnitude is less than 127.9999995 beyond a multiple of 128 |
| `Quadratic.LastDigitCanOverflow` | src/igate.rs:362-367 | 383.9999999 is encoded with c = 128 |
| `Quadratic.InvertsIff` | src/igate.rs:312-369 | recovered within half a millionth exactly when above -1 or below -255, and then exactly for integers |
| `Quadratic.ToAprs` | src/igate.rs:389-462 | the first five items in order, zeros up to four; an error exactly for no items |
| `Gps.GpsdTask.constructor` | src/gpsd.rs:48-59 | starts with no fix in the fields and in the cell |
| `Gps.GpsdTask.OnTpv` | src/gpsd.rs:200-214 | all position fields and the receive time are replaced together |
| `Gps.GpsdTask.OnSky` | src/gpsd.rs:215-232 | HDOP, and satellites seen and used, counted or from the summary, as 32-bit values; nothing else changes |
| `Gps.GpsdTask.Publish` | src/gpsd.rs:283-286 | the cell takes the fields as they are |
| `Gps.FieldsCarryLatest` | src/gpsd.rs:199-238 | after any events the position fields are those of the latest TPV report, the altitude in feet from above mean sea level if it has that one, else from the generic one |
| `Gps.SharedCarriesPublished` | src/gpsd.rs:240-286 | the cell holds those of the latest TPV report before its last write |
| `Gps.BeaconIsLatestPublishedTpv` | src/aprs_is.rs:78-94 | in every interleaving a GPS location exists exactly when that report has at least a 2D fix, both coordinates and is under 30 s old, and it is that report's |
| `Gps.SkyNeverRefreshes` | src/gpsd.rs:48-50 | with no TPV report under 30 s old there is no location, whatever else arrived |
| `Gps.UnpublishedIsUnseen` | src/gpsd.rs:283-286 | a parsed report that is not published yet does not move the beacon |
| `Watch.WatchList.constructor` | src/main.rs:255-265 | the list is loaded from the table, or empty if that fails |
| `Watch.SpacesListed` | src/main.rs:575 | white space is the 25 characters that Unicode gives that property |
| `Watch.TrimKeepsMiddle` | src/main.rs:575 | trimming keeps what lies between the first and the last character that is no white space |
| `Watch.ReplyIff` | src/main.rs:575-592 | bad request exactly for a blank name, conflict exactly for a new one when 20 are listed; otherwise the list, with a new name at its end |
| `Watch.WatchList.PostMemory` | src/main.rs:575-592 | blank: bad request; present: listed; full: conflict; otherwise appended |
| `Watch.WatchList.PostStore` | src/main.rs:594-596 | the station's row is written, or nothing is |
| `Watch.WatchList.DeleteMemory` | src/main.rs:608-614 | every occurrence is removed, the rest stays in order |
| `Watch.WithoutSplits` | src/main.rs:608-613 | removal works part by part, so it takes out the name wherever it stands and keeps the others in place |
| `Watch.WithoutOne` | src/main.rs:608-613 | from a list of one name, that name goes exactly if it is the one asked for |
| `Watch.WatchList.DeleteStore` | src/main.rs:616-618 | the station's row is removed, or nothing is |
| `Watch.PostIsIdempotent` | src/main.rs:566-569 | adding a listed station again changes nothing and is no conflict, also when the list is full |
| `Watch.DeleteUndoesPostIff` | src/main.rs:575-612 | deleting by the name that was posted restores the list exactly when it was sent trimmed |
| `Watch.ListStaysLegal` | src/main.rs:53 | over every interleaving the list stays duplicate-free, trimmed and at most 20 long |
| `Watch.MembershipAgrees` | src/main.rs:570-621 | if requests for one station do not overlap and calls succeed, table and list agree on every station with nothing in flight, across restarts |
| `Watch.AlwaysAgreesIff` | src/main.rs:594-618 | with overlaps, every completion order leaves them agreeing exactly when all pending requests of the station are of the kind the list shows |
| `Watch.OverlapLeavesRow` | src/main.rs:570-621 | the shortest overlap that leaves a row for an unwatched station |
| `Watch.RestartStaysLegal` | src/main.rs:259-265 | a restart with nothing in flight restores the same members |
| `Watch.RestartWithinCapIff` | src/store.rs:1042-1048 | the loaded list is within the cap exactly when the table is |
| `Watch.RestartCanExceedCap` | src/main.rs:259-265 | a full list that drops one station, takes another and restarts in between comes back with 21 |

## Left out

- Sockets, DNS, login, timeouts, backoff, HTTP routing, logging and packaging: plumbing around the modelled steps.
- The internals of the embedded database, the broadcast channel and the interval timers: tables are maps, a store call is one transaction that succeeds or fails, delivery is lossy, time is an input.
- Floating point: positions, percentages and coefficients are exact arithmetic, with the code's own epsilons; not-a-number does not occur.
- Counter widths: counters are unbounded. The `u32` truncation of the stored reconnect count and its saturation elsewhere are not modelled.
- The rolling per-packet history log (`insert_packet`, `prune_packets`), record migrations and field-by-field conversions in src/store.rs.
- The symbol table's image names, distances, colours, tooltips and chart drawing in the browser; labels of the chart points.
- The rest of `map_frame`: the payload offset, the lossy text rendering, and the projections of the decoded position, which come from libraries that are not part of this model.
- Reports in compressed form are only read (`Position.CompressedReads`): nothing here prints them, so no round trip is stated.
- Movement-triggered beacons and the throttled GPS telemetry: only the location a beacon would use is modelled.
- A browser session that outlives a server restart: `Replica.Session` takes one server process.
- `Replica.BrowserStepIsServerStep`: from 1970 on only, since the two floors differ before (`Replica.FloorsAgree`); `Replica.BrowserRunIsRun` and the convergence lemmas inherit this for ticks and browser clocks.
- `Chart.BuildDisplaySeries`: from 1970 on only, for the same reason; an unknown range name, which falls back to the hourly one, is not modelled.
- `Gate.StreamIsInjective`: the lines of one connection after its login line; a write that fails half-way ends its connection. The igate's own texts, which come from the configuration, are taken to hold no CR or LF.
- `Healing.SelfHealing`: assumes that the clock of successive prunes does not run back; `Healing.CrossFieldInvariant` and `Mirror.TableMirrorsMemory` do not.
- `Dedup.RunRefinesLog`: assumes a forward wall clock, as the code does; `Dedup.BackwardClockForgets` shows that it must.
- `Gate.LineRoundTrip`: the lossy `info` text and the original bytes are independent inputs; decoding one from the other happens in a library that is not part of this model.
- `Gate.ForRxigateBytes`: text fields are the bytes of the source's strings.
- `Aprsis.AprsisTask.OnReportTick`: models the reports' values and coefficients, not their text, and not the separate row that stores the sequence number.
- `Stations.StationTables.OnTick`: receive times are whole seconds.
- `Stations.StationTables.CountFreq`: the frequency is in hertz and its key in kilohertz, the three decimals of the printed megahertz.
- `Slicers.SlicerBank.Learn`: needs a bank of at most 16 slicers, because the mask has 16 bits and the code shifts by the slicer's index.
- `Slicers.SlicerBank.OnTick`: row timestamps and gains are not modelled.
- `Numerals.ParseHundredths`: parseFloat is modelled on unsigned decimals without exponent, the only ones a printed axis can hold.
- `Position.BeaconRoundTrip`: for a one-character overlay, which the report format requires, and a callsign without a colon.
- `Position.BeaconIsAddressed`: for a callsign without the characters > and colon, which separate the fields.
- `Position.FixedFields`: for a one-character overlay; `Position.CommentReads` and `Position.SymbolReads` inherit this.
- `Watch.WatchList.PostMemory`: a poisoned lock, which the handlers answer with an internal error, does not occur.
- `Watch.WatchList.constructor`: among stations added in the same microsecond the order is left open.

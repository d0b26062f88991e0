/** The 24-hour satellite packet log and its table (rtp_listener in src/stream.rs, the satellite
    packet methods of src/store.rs, and the seed in src/main.rs). */
module SatLog {
  import opened Types
  import opened KeyLists
  import opened StoreTables

  const SAT_LOG_MICROS := 24 * 3600 * 1_000_000

  type Log = seq<SatPacket>

  predicate Expired(p: SatPacket, now: int) {
    now - p.time > SAT_LOG_MICROS
  }

  /** How many packets the front-to-back prune pops: it stops at the first fresh one. */
  function Popped(log: Log, now: int): (n: nat)
    ensures n <= |log|
    ensures forall i :: 0 <= i < n ==> Expired(log[i], now)
    ensures n < |log| ==> !Expired(log[n], now)
  {
    if log != [] && Expired(log[0], now) then 1 + Popped(log[1..], now) else 0
  }

  function TimesOf(log: Log): (keys: seq<int>)
    ensures |keys| == |log|
  {
    seq(|log|, i requires 0 <= i < |log| => log[i].time)
  }

  /** The table a log stands for: each receive time maps to the last packet queued with it. */
  ghost function TableOf(log: Log): map<int, SatPacket> {
    map k | k in TimesOf(log) :: Newest(log, k)
  }

  ghost function Newest(log: Log, k: int): SatPacket
    requires k in TimesOf(log)
  {
    log[LastIndex(TimesOf(log), k)]
  }

  ghost predicate Sorted(log: Log) {
    forall i, j :: 0 <= i < j < |log| ==> log[i].time <= log[j].time
  }

  /** Every expired packet stands before every fresh one. */
  ghost predicate ExpiredFirst(log: Log, now: int) {
    forall i, j :: 0 <= i < j < |log| && Expired(log[j], now) ==> Expired(log[i], now)
  }

  lemma SortedMeansExpiredFirst(log: Log, now: int)
    requires Sorted(log)
    ensures ExpiredFirst(log, now)
  {
  }

  /** Pruning removes exactly the expired packets if and only if they all stand in front. */
  lemma PruneIsExactIff(log: Log, now: int)
    ensures (forall i :: Popped(log, now) <= i < |log| ==> !Expired(log[i], now)) <==> ExpiredFirst(log, now)
  {
  }

  lemma TableSnoc(log: Log, p: SatPacket)
    ensures TableOf(log + [p]) == TableOf(log)[p.time := p]
  {
    var log' := log + [p];
    assert TimesOf(log') == TimesOf(log) + [p.time];
    forall k
      ensures LastIndex(TimesOf(log'), k) == if k == p.time then |log| else LastIndex(TimesOf(log), k)
    {
      LastIndexSnoc(TimesOf(log), p.time, k);
    }
    assert forall k :: k in TimesOf(log') <==> k in TimesOf(log) || k == p.time;
    assert forall k :: k in TimesOf(log) <==> LastIndex(TimesOf(log), k) >= 0;
  }

  lemma LastAfterDrop(log: Log, n: nat, k: int)
    requires n <= |log|
    ensures k in TimesOf(log[n..]) ==>
              0 <= LastIndex(TimesOf(log[n..]), k) && LastIndex(TimesOf(log), k) == n + LastIndex(TimesOf(log[n..]), k)
    ensures k in TimesOf(log) && k !in TimesOf(log[n..]) ==> k in TimesOf(log[..n])
    ensures k in TimesOf(log[n..]) ==> k in TimesOf(log)
  {
    var keys := TimesOf(log);
    assert TimesOf(log[n..]) == keys[n..] && TimesOf(log[..n]) == keys[..n];
    assert keys == keys[..n] + keys[n..];
    if k in keys[n..] {
      var late := LastIndex(keys[n..], k);
      assert late >= 0;
      assert forall j :: n <= j < |keys| ==> keys[j] == keys[n..][j - n];
      LastIndexIsUnique(keys, k, n + late);
    }
  }

  lemma KeptRow(log: Log, n: nat, k: int)
    requires n <= |log|
    ensures k in TimesOf(log[n..]) ==> k in TimesOf(log) && Newest(log, k) == Newest(log[n..], k)
    ensures k in TimesOf(log) && k !in TimesOf(log[n..]) ==> k in TimesOf(log[..n])
  {
    LastAfterDrop(log, n, k);
  }

  /** Deleting the popped keys leaves the table of the kept packets if and only if no kept packet
      shares its receive time with a popped one. */
  lemma PruneMirrorsIff(log: Log, n: nat)
    requires n <= |log|
    ensures TableOf(log) - (set k | k in TimesOf(log[..n])) == TableOf(log[n..])
       <==> forall k :: k in TimesOf(log[n..]) ==> k !in TimesOf(log[..n])
  {
    var popped := set k | k in TimesOf(log[..n]);
    var left, right := TableOf(log) - popped, TableOf(log[n..]);
    if k :| k in TimesOf(log[n..]) && k in TimesOf(log[..n]) {
      assert k in right && k !in left;
    } else {
      forall k
        ensures k in left <==> k in right
        ensures k in left ==> left[k] == right[k]
      {
        KeptRow(log, n, k);
      }
    }
  }

  /** With the expired packets in front, also when several packets share a timestamp. */
  lemma PruneMirrors(log: Log, now: int)
    requires ExpiredFirst(log, now)
    ensures var n := Popped(log, now);
            TableOf(log) - (set k | k in TimesOf(log[..n])) == TableOf(log[n..])
  {
    var n := Popped(log, now);
    PruneIsExactIff(log, now);
    forall k | k in TimesOf(log[n..])
      ensures k !in TimesOf(log[..n])
    {
      var i :| 0 <= i < |log[n..]| && TimesOf(log[n..])[i] == k;
      assert !Expired(log[n + i], now);
      forall j | 0 <= j < n
        ensures TimesOf(log[..n])[j] != k
      {
        assert Expired(log[j], now);
      }
    }
    PruneMirrorsIff(log, n);
  }

  /** Without that order it can go wrong: a packet is lost from the table while the log keeps it. */
  lemma DisorderLosesARow(p: SatPacket, q: SatPacket, now: int)
    requires Expired(p, now) && !Expired(q, now)
    ensures var log := [p, q, p];
            && Popped(log, now) == 1
            && p.time !in TableOf(log) - (set k | k in TimesOf(log[..1]))
            && p.time in TableOf(log[1..])
  {
    var log := [p, q, p];
    assert log[1..][1] == p;
    assert TimesOf(log[..1])[0] == p.time && TimesOf(log[1..])[1] == p.time;
  }

  /** The rows in key order: what startup queues. */
  function LoadRows(table: map<int, SatPacket>): Log {
    var keys := Ascending(table.Keys);
    assert forall i :: 0 <= i < |keys| ==> keys[i] in table.Keys;
    seq(|keys|, i requires 0 <= i < |keys| => table[keys[i]])
  }

  /** A restart queues a sorted log that stands for the same table. */
  lemma RestartKeepsTable(table: map<int, SatPacket>)
    requires forall k :: k in table ==> table[k].time == k
    ensures Sorted(LoadRows(table)) && TableOf(LoadRows(table)) == table
  {
    LoadedInOrder(table);
    var loaded := TableOf(LoadRows(table));
    forall k
      ensures (k in loaded <==> k in table) && (k in loaded ==> loaded[k] == table[k])
    {
      LoadedRow(table, k);
    }
    SameMap(loaded, table);
  }

  lemma LoadedInOrder(table: map<int, SatPacket>)
    requires forall k :: k in table ==> table[k].time == k
    ensures TimesOf(LoadRows(table)) == Ascending(table.Keys) && Sorted(LoadRows(table))
  {
    var keys, log := Ascending(table.Keys), LoadRows(table);
    assert forall i :: 0 <= i < |keys| ==> keys[i] in table.Keys;
    assert forall i :: 0 <= i < |keys| ==> log[i].time == keys[i];
  }

  lemma LoadedRow(table: map<int, SatPacket>, k: int)
    requires forall x :: x in table ==> table[x].time == x
    ensures k in TimesOf(LoadRows(table)) <==> k in table
    ensures k in table ==> Newest(LoadRows(table), k) == table[k]
  {
    var keys := Ascending(table.Keys);
    LoadedInOrder(table);
    assert k in keys <==> k in table.Keys;
    if k in table {
      assert LastIndex(keys, k) >= 0;
    }
  }

  /** After a prune of a sorted log exactly the fresh packets remain, still sorted. */
  lemma PruneSorted(log: Log, now: int)
    requires Sorted(log)
    ensures var kept := log[Popped(log, now)..];
            Sorted(kept) && forall p :: p in kept <==> p in log && now - p.time <= 86_400_000_000
  {
  }

  lemma PoppedAreQueued(log: Log, n: nat)
    requires n <= |log|
    ensures forall k :: k in TimesOf(log[..n]) ==> k in TimesOf(log)
  {
    assert TimesOf(log[..n]) == TimesOf(log)[..n];
  }

  //--------- whole runs, with failing calls --------

  datatype Node = Node(log: Log, table: map<int, SatPacket>)

  datatype Action = Received(p: SatPacket, ok: bool) | Ticked(now: int, ok: bool) | Restarted(loadOk: bool)

  function PoppedKeys(log: Log, now: int): set<int> {
    set k | k in TimesOf(log[..Popped(log, now)])
  }

  function StepNode(n: Node, a: Action): Node {
    match a
    case Received(p, ok) => Node(n.log + [p], if ok then n.table[p.time := p] else n.table)
    case Ticked(now, ok) =>
      Node(n.log[Popped(n.log, now)..], if ok then n.table - PoppedKeys(n.log, now) else n.table)
    case Restarted(loadOk) => Node(if loadOk then LoadRows(n.table) else [], n.table)
  }

  function RunNode(n: Node, acts: seq<Action>): Node {
    if acts == [] then n else StepNode(RunNode(n, acts[..|acts| - 1]), acts[|acts| - 1])
  }

  /** Packets are received in the order of their times. */
  ghost predicate InOrder(n: Node, a: Action) {
    a.Received? ==> n.log == [] || n.log[|n.log| - 1].time <= a.p.time
  }

  ghost predicate AllInOrder(n: Node, acts: seq<Action>) {
    forall i {:trigger acts[i]} :: 0 <= i < |acts| ==> InOrder(RunNode(n, acts[..i]), acts[i])
  }

  ghost function NextDoubt(n: Node, doubt: set<int>, a: Action): set<int> {
    match a
    case Received(p, ok) => if ok then doubt - {p.time} else doubt + {p.time}
    case Ticked(now, ok) => if ok then doubt - PoppedKeys(n.log, now) else doubt + PoppedKeys(n.log, now)
    case Restarted(loadOk) => if loadOk then {} else n.table.Keys
  }

  /** The times in doubt: those whose last insert or delete failed, and after a failed load every time of
      the table, until a later call on the same time or a later load succeeds. */
  ghost function InDoubt(n: Node, acts: seq<Action>): set<int> {
    if acts == [] then {}
    else
      var last := |acts| - 1;
      NextDoubt(RunNode(n, acts[..last]), InDoubt(n, acts[..last]), acts[last])
  }

  ghost predicate SameAt(m: map<int, SatPacket>, m': map<int, SatPacket>, k: int) {
    (k in m <==> k in m') && (k in m ==> m[k] == m'[k])
  }

  ghost predicate AgreesOutside(n: Node, doubt: set<int>) {
    && Sorted(n.log)
    && (forall k :: k in n.table ==> n.table[k].time == k)
    && forall k :: k !in doubt ==> SameAt(TableOf(n.log), n.table, k)
  }

  lemma ReceivedAgrees(n: Node, doubt: set<int>, p: SatPacket, ok: bool, n': Node, doubt': set<int>)
    requires AgreesOutside(n, doubt) && InOrder(n, Received(p, ok))
    requires n' == StepNode(n, Received(p, ok)) && doubt' == NextDoubt(n, doubt, Received(p, ok))
    ensures AgreesOutside(n', doubt')
  {
    TableSnoc(n.log, p);
    forall k | k !in doubt'
      ensures SameAt(TableOf(n'.log), n'.table, k)
    {
      assert k !in doubt ==> SameAt(TableOf(n.log), n.table, k);
    }
  }

  lemma TickedAgrees(n: Node, doubt: set<int>, now: int, ok: bool, n': Node, doubt': set<int>)
    requires AgreesOutside(n, doubt)
    requires n' == StepNode(n, Ticked(now, ok)) && doubt' == NextDoubt(n, doubt, Ticked(now, ok))
    ensures AgreesOutside(n', doubt')
  {
    SortedMeansExpiredFirst(n.log, now);
    PruneSorted(n.log, now);
    PruneMirrors(n.log, now);
    var keys := PoppedKeys(n.log, now);
    assert TableOf(n'.log) == TableOf(n.log) - keys;
    forall k | k !in doubt'
      ensures SameAt(TableOf(n'.log), n'.table, k)
    {
      assert k !in doubt ==> SameAt(TableOf(n.log), n.table, k);
    }
  }

  lemma LoadedAgrees(table: map<int, SatPacket>)
    requires forall k :: k in table ==> table[k].time == k
    ensures AgreesOutside(Node(LoadRows(table), table), {})
  {
    RestartKeepsTable(table);
  }

  lemma UnloadedAgrees(table: map<int, SatPacket>)
    requires forall k :: k in table ==> table[k].time == k
    ensures AgreesOutside(Node([], table), table.Keys)
  {
    assert TableOf([]) == map[];
  }

  lemma StepAgrees(n: Node, doubt: set<int>, a: Action, n': Node, doubt': set<int>)
    requires AgreesOutside(n, doubt) && InOrder(n, a)
    requires n' == StepNode(n, a) && doubt' == NextDoubt(n, doubt, a)
    ensures AgreesOutside(n', doubt')
  {
    match a
    case Received(p, ok) => ReceivedAgrees(n, doubt, p, ok, n', doubt');
    case Ticked(now, ok) => TickedAgrees(n, doubt, now, ok, n', doubt');
    case Restarted(true) => LoadedAgrees(n.table);
    case Restarted(false) => UnloadedAgrees(n.table);
  }

  lemma InOrderPrefix(n: Node, acts: seq<Action>)
    requires acts != [] && AllInOrder(n, acts)
    ensures AllInOrder(n, acts[..|acts| - 1]) && InOrder(RunNode(n, acts[..|acts| - 1]), acts[|acts| - 1])
  {
    var last := |acts| - 1;
    assert forall i {:trigger acts[i]} :: 0 <= i < last ==>
      acts[..last][i] == acts[i] && acts[..last][..i] == acts[..i];
  }

  /** With failing calls, log and table agree on every time that is not in doubt. */
  lemma {:induction false} FailuresStayLocal(n: Node, acts: seq<Action>)
    requires AgreesOutside(n, {}) && AllInOrder(n, acts)
    ensures AgreesOutside(RunNode(n, acts), InDoubt(n, acts))
  {
    if acts == [] {
    } else {
      var last := |acts| - 1;
      InOrderPrefix(n, acts);
      FailuresStayLocal(n, acts[..last]);
      StepAgrees(RunNode(n, acts[..last]), InDoubt(n, acts[..last]), acts[last], RunNode(n, acts), InDoubt(n, acts));
    }
  }

  /** A crash at any point, if the load then succeeds, brings back what the log held at every time that is
      not in doubt. */
  lemma CrashRecovers(n: Node, acts: seq<Action>, k: int)
    requires AgreesOutside(n, {}) && AllInOrder(n, acts) && k !in InDoubt(n, acts)
    ensures var before := RunNode(n, acts);
            SameAt(TableOf(StepNode(before, Restarted(true)).log), TableOf(before.log), k)
  {
    FailuresStayLocal(n, acts);
    RestartKeepsTable(RunNode(n, acts).table);
  }

  ghost predicate ContainedIn(log: Log, table: map<int, SatPacket>) {
    forall k :: k in TableOf(log) ==> k in table && table[k] == TableOf(log)[k]
  }

  lemma StartIsContained(table: map<int, SatPacket>, loadOk: bool)
    requires forall k :: k in table ==> table[k].time == k
    ensures var log := if loadOk then LoadRows(table) else [];
            Sorted(log) && ContainedIn(log, table) && (loadOk ==> TableOf(log) == table)
  {
    if loadOk {
      RestartKeepsTable(table);
    }
  }

  class SatelliteLog {
    var log: Log

    ghost predicate Mirrored(store: Store)
      reads this, store
    {
      store.satPackets == TableOf(log)
    }

    /** Every packet of the log has its row; the table may hold more. */
    ghost predicate Contained(store: Store)
      reads this, store
    {
      ContainedIn(log, store.satPackets)
    }

    /** Startup: the log is the table's rows, or empty beside them if the load fails. */
    constructor (store: Store, loadOk: bool)
      requires forall k :: k in store.satPackets ==> store.satPackets[k].time == k
      ensures Sorted(log) && Contained(store)
      ensures Node(log, store.satPackets) == StepNode(Node([], store.satPackets), Restarted(loadOk))
      ensures if loadOk then Mirrored(store) else log == []
    {
      StartIsContained(store.satPackets, loadOk);
      log := if loadOk then LoadRows(store.satPackets) else [];
    }

    method OnPacket(store: Store, p: SatPacket, ok: bool)
      modifies this, store`satPackets
      ensures Node(log, store.satPackets) == StepNode(old(Node(log, store.satPackets)), Received(p, ok))
      ensures ok && old(Mirrored(store)) ==> Mirrored(store)
      ensures ok && old(Contained(store)) ==> Contained(store)
      ensures forall k :: k in old(store.satPackets) && k != p.time ==>
                k in store.satPackets && store.satPackets[k] == old(store.satPackets)[k]
      ensures old(Sorted(log)) && (old(log) == [] || old(log)[|old(log)| - 1].time <= p.time) ==> Sorted(log)
    {
      TableSnoc(log, p);
      log := log + [p];
      store.InsertSatPacket(p, ok);
    }

    /** Pops expired packets off the front and collects their keys. */
    method PopExpired(now: int) returns (keys: seq<int>)
      modifies this
      ensures log == old(log)[Popped(old(log), now)..]
      ensures keys == TimesOf(old(log)[..Popped(old(log), now)])
    {
      ghost var before := log;
      keys := [];
      while log != [] && Expired(log[0], now)
        invariant |keys| <= Popped(before, now) && log == before[|keys|..]
        invariant keys == TimesOf(before[..|keys|])
        decreases |log|
      {
        assert before[..|keys| + 1] == before[..|keys|] + [log[0]];
        keys := keys + [log[0].time];
        log := log[1..];
      }
    }

    method OnTick(store: Store, now: int, ok: bool)
      modifies this, store`satPackets
      ensures Node(log, store.satPackets) == StepNode(old(Node(log, store.satPackets)), Ticked(now, ok))
      ensures old(Sorted(log)) ==>
                Sorted(log) && forall p :: p in log <==> p in old(log) && now - p.time <= 86_400_000_000
      ensures ok && old(Sorted(log)) && old(Mirrored(store)) ==> Mirrored(store)
      ensures old(Sorted(log)) && old(Contained(store)) ==> Contained(store)
      ensures forall k :: k in old(store.satPackets) && k !in TimesOf(old(log)) ==>
                k in store.satPackets && store.satPackets[k] == old(store.satPackets)[k]
    {
      ghost var before := log;
      PoppedAreQueued(log, Popped(log, now));
      var keys := PopExpired(now);
      store.DeleteSatPackets(keys, ok);
      if Sorted(before) {
        SortedMeansExpiredFirst(before, now);
        PruneSorted(before, now);
        PruneMirrors(before, now);
      }
    }
  }
}

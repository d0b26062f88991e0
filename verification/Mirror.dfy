/** The history is mirrored to its table bucket by bucket (src/sse.rs, and src/main.rs at startup). */
module Mirror {
  import opened Types
  import opened KeyLists
  import opened History
  import opened StoreTables

  /** The table after one persisted step: the touched buckets that are still there are written,
      the pruned keys are removed. */
  ghost function Persisted(table: Buckets, memory: Buckets, touched: set<int>, pruned: set<int>,
                     upsertOk: bool, deleteOk: bool): Buckets {
    var written := if upsertOk then table + Restrict(memory, touched) else table;
    if deleteOk then written - pruned else written
  }

  ghost function Restrict(m: Buckets, keys: set<int>): Buckets {
    map k | k in keys && k in m :: m[k]
  }

  /** Collecting keeps some row of each key, and nothing else. */
  lemma {:induction false} CollectedFrom(rows: seq<StatBucket>)
    ensures forall k :: k in Collect(rows) ==> Collect(rows)[k] in rows && Collect(rows)[k].ts == k
    ensures forall b :: b in rows ==> b.ts in Collect(rows)
  {
    if rows == [] {
    } else {
      var n := |rows| - 1;
      CollectedFrom(rows[..n]);
      assert forall b :: b in rows <==> b in rows[..n] || b == rows[n];
    }
  }

  lemma CollectRowsFor(m: Buckets, keys: seq<int>)
    requires WellKeyed(m)
    ensures Collect(RowsFor(m, keys)) == Restrict(m, set k | k in keys)
  {
    var rows := RowsFor(m, keys);
    CollectedFrom(rows);
    forall b | b in rows
      ensures b.ts in keys && b.ts in m && m[b.ts] == b
    {
      var k :| k in keys && k in m && m[k] == b;
    }
    var collected := Collect(rows);
    forall k
      ensures k in collected <==> k in keys && k in m
      ensures k in collected ==> collected[k] == m[k]
    {
      if k in keys && k in m {
        assert m[k] in rows && m[k].ts == k;
      }
      if k in collected {
        assert collected[k] in rows && collected[k].ts == k;
      }
    }
  }

  method PersistHistory(store: Store, touched: seq<StatBucket>, pruned: seq<int>, upsertOk: bool, deleteOk: bool)
    modifies store`buckets
    ensures store.buckets ==
            var written := if upsertOk then old(store.buckets) + Collect(touched) else old(store.buckets);
            if deleteOk then written - (set k | k in pruned) else written
  {
    store.UpsertBuckets(touched, upsertOk);
    store.DeleteBuckets(pruned, deleteOk);
  }

  /** What both telemetry arms do once the history is merged: prune, then persist. */
  method PruneAndPersist(history: HistoryStore, store: Store, touched: seq<int>, now: int,
                         upsertOk: bool, deleteOk: bool)
    requires WellKeyed(history.buckets)
    modifies history, store`buckets
    ensures history.buckets == Retain(old(history.buckets), Cutoff(now))
    ensures store.buckets == Persisted(old(store.buckets), history.buckets, (set k | k in touched),
                                       Expired(old(history.buckets), Cutoff(now)), upsertOk, deleteOk)
  {
    var pruned := history.Prune(now);
    var rows := history.BucketsFor(touched);
    CollectRowsFor(history.buckets, touched);
    PersistHistory(store, rows, pruned, upsertOk, deleteOk);
    assert (set k | k in pruned) == Expired(old(history.buckets), Cutoff(now));
  }

  method OnPacketStatus(history: HistoryStore, store: Store, t: Quad, now: int, upsertOk: bool, deleteOk: bool)
    requires WellKeyed(history.buckets)
    modifies history, store`buckets
    ensures WellKeyed(history.buckets)
    ensures Node(history.buckets, store.buckets, now)
         == StepNode(Node(old(history.buckets), old(store.buckets), now), Merged(Packet, t, now, upsertOk, deleteOk))
  {
    var touched := history.UpdateFromPacket(t);
    MergeQuadKeepsKeying(old(history.buckets), Packet, t);
    PruneAndPersist(history, store, touched, now, upsertOk, deleteOk);
    assert (set k | k in touched) == TouchedBy(t);
  }

  method OnAprsisStatus(history: HistoryStore, store: Store, t: Quad, now: int, upsertOk: bool, deleteOk: bool)
    requires WellKeyed(history.buckets)
    modifies history, store`buckets
    ensures WellKeyed(history.buckets)
    ensures Node(history.buckets, store.buckets, now)
         == StepNode(Node(old(history.buckets), old(store.buckets), now), Merged(Aprsis, t, now, upsertOk, deleteOk))
  {
    var touched := history.UpdateFromAprsis(t);
    MergeQuadKeepsKeying(old(history.buckets), Aprsis, t);
    PruneAndPersist(history, store, touched, now, upsertOk, deleteOk);
    assert (set k | k in touched) == TouchedBy(t);
  }

  /** Loads every row, or none if that fails. */
  method Load(store: Store, loadOk: bool) returns (history: HistoryStore)
    requires WellKeyed(store.buckets)
    ensures fresh(history) && history.buckets == if loadOk then store.buckets else map[]
  {
    CollectRows(store.buckets);
    if loadOk {
      history := new HistoryStore.FromBuckets(store.LoadBuckets());
    } else {
      history := new HistoryStore.FromBuckets([]);
    }
  }

  /** Startup: load, prune what expired meanwhile, mirror the deletions. */
  method Startup(store: Store, now: int, loadOk: bool, deleteOk: bool) returns (history: HistoryStore)
    requires WellKeyed(store.buckets)
    modifies store`buckets
    ensures fresh(history) && WellKeyed(history.buckets)
    ensures Node(history.buckets, store.buckets, now)
         == StepNode(Node(map[], old(store.buckets), now), Restarted(now, loadOk, deleteOk))
  {
    history := Load(store, loadOk);
    ghost var restored := history.buckets;
    var pruned := history.Prune(now);
    store.DeleteBuckets(pruned, deleteOk);
    assert (set k | k in pruned) == Expired(restored, Cutoff(now));
  }

  /** The last thing a graceful stop does: write the whole history once more. */
  method OnStop(history: HistoryStore, store: Store, clock: int, upsertOk: bool)
    requires WellKeyed(history.buckets)
    modifies store`buckets
    ensures Node(history.buckets, store.buckets, clock)
         == StepNode(Node(history.buckets, old(store.buckets), clock), Stopped(upsertOk))
  {
    CollectRows(history.buckets);
    store.UpsertBuckets(history.Snapshot(), upsertOk);
  }

  //--------- whole runs, with crashes and failing store calls --------

  datatype Node = Node(memory: Buckets, table: Buckets, clock: int)

  datatype Action =
    | Merged(kind: Kind, t: Quad, now: int, upsertOk: bool, deleteOk: bool)
    | Restarted(now: int, loadOk: bool, deleteOk: bool)
    | Stopped(upsertOk: bool)

  ghost function StepNode(n: Node, a: Action): Node {
    match a
    case Merged(kind, t, now, upsertOk, deleteOk) =>
      var merged := MergeQuad(n.memory, kind, t);
      var memory := Retain(merged, Cutoff(now));
      Node(memory, Persisted(n.table, memory, TouchedBy(t), Expired(merged, Cutoff(now)), upsertOk, deleteOk), now)
    case Restarted(now, loadOk, deleteOk) =>
      var restored := if loadOk then n.table else map[];
      var expired := Expired(restored, Cutoff(now));
      Node(Retain(restored, Cutoff(now)), if deleteOk then n.table - expired else n.table, now)
    case Stopped(upsertOk) => n.(table := if upsertOk then n.table + n.memory else n.table)
  }

  ghost function RunNode(n: Node, acts: seq<Action>): Node {
    if acts == [] then n else StepNode(RunNode(n, acts[..|acts| - 1]), acts[|acts| - 1])
  }

  ghost predicate AllOk(acts: seq<Action>) {
    forall i :: 0 <= i < |acts| ==>
      match acts[i]
      case Merged(_, _, _, upsertOk, deleteOk) => upsertOk && deleteOk
      case Restarted(_, loadOk, deleteOk) => loadOk && deleteOk
      case Stopped(upsertOk) => upsertOk
  }

  ghost predicate Mirrored(n: Node) {
    && n.table == n.memory
    && WellKeyed(n.memory)
    && forall k :: k in n.memory ==> Cutoff(n.clock) <= k
  }

  /** One merged event, at one key. */
  lemma MergedAt(n: Node, a: Action, k: int)
    requires a.Merged?
    ensures var n' := StepNode(n, a);
            && (k in n'.memory ==> Cutoff(a.now) <= k)
            && (k !in TouchedBy(a.t) && Cutoff(a.now) <= k ==>
                  && (k in n'.memory <==> k in n.memory)
                  && (k in n'.memory ==> n'.memory[k] == n.memory[k])
                  && (k in n'.table <==> k in n.table)
                  && (k in n'.table ==> n'.table[k] == n.table[k]))
            && (k in TouchedBy(a.t) && Cutoff(a.now) <= k ==>
                  && k in n'.memory
                  && (a.upsertOk ==> k in n'.table && n'.table[k] == n'.memory[k]))
            && (k < Cutoff(a.now) ==> (k in n'.table <==>
                  k in n.table && !(a.deleteOk && (k in n.memory || k in TouchedBy(a.t)))))
  {
  }

  lemma StepKeepsKeying(n: Node, a: Action)
    requires WellKeyed(n.memory) && WellKeyed(n.table)
    ensures WellKeyed(StepNode(n, a).memory) && WellKeyed(StepNode(n, a).table)
  {
    if a.Merged? {
      MergeQuadKeepsKeying(n.memory, a.kind, a.t);
    }
  }

  lemma MergedKeepsMirror(n: Node, kind: Kind, t: Quad, now: int)
    requires Mirrored(n)
    ensures Mirrored(StepNode(n, Merged(kind, t, now, true, true)))
  {
    var a := Merged(kind, t, now, true, true);
    var n' := StepNode(n, a);
    StepKeepsKeying(n, a);
    forall k
      ensures (k in n'.table <==> k in n'.memory) && (k in n'.table ==> n'.table[k] == n'.memory[k])
      ensures k in n'.memory ==> Cutoff(now) <= k
    {
      MergedAt(n, a, k);
    }
    SameMap(n'.table, n'.memory);
  }

  /** With working store calls the table equals the memory after every step of every run, across
      restarts, whatever the clock does and even when a stale window re-creates expired buckets. */
  lemma {:induction false} TableMirrorsMemory(n: Node, acts: seq<Action>)
    requires Mirrored(n) && AllOk(acts)
    ensures Mirrored(RunNode(n, acts))
  {
    if acts == [] {
    } else {
      var last := |acts| - 1;
      TableMirrorsMemory(n, acts[..last]);
      match acts[last]
      case Merged(kind, t, now, _, _) => MergedKeepsMirror(RunNode(n, acts[..last]), kind, t, now);
      case Restarted(_, _, _) =>
      case Stopped(_) =>
    }
  }

  /** The keys in doubt: those whose last write failed, and after a failed load every key of the table,
      until a later write covers them, a stop writes them, or a later load succeeds. */
  ghost function Stale(n: Node, acts: seq<Action>): set<int> {
    if acts == [] then {}
    else
      var earlier := Stale(n, acts[..|acts| - 1]);
      match acts[|acts| - 1]
      case Merged(_, t, _, upsertOk, _) => if upsertOk then earlier - TouchedBy(t) else earlier + TouchedBy(t)
      case Restarted(_, loadOk, _) => if loadOk then {} else RunNode(n, acts[..|acts| - 1]).table.Keys
      case Stopped(upsertOk) => if upsertOk then earlier - RunNode(n, acts[..|acts| - 1]).memory.Keys else earlier
  }

  /** The clock of the last merge or restart. */
  function ClockAfter(clock: int, acts: seq<Action>): int {
    if acts == [] then clock
    else if acts[|acts| - 1].Stopped? then ClockAfter(clock, acts[..|acts| - 1])
    else acts[|acts| - 1].now
  }

  ghost predicate Forward(clock: int, acts: seq<Action>) {
    forall i {:trigger acts[i]} :: 0 <= i < |acts| && !acts[i].Stopped? ==> ClockAfter(clock, acts[..i]) <= acts[i].now
  }

  ghost predicate AgreeAt(n: Node, k: int) {
    (k in n.memory <==> k in n.table) && (k in n.memory ==> n.memory[k] == n.table[k])
  }

  /** Memory and table agree on every unexpired key outside `stale`. */
  ghost predicate AgreesOutside(n: Node, stale: set<int>) {
    && WellKeyed(n.memory)
    && (forall k :: k in n.memory ==> Cutoff(n.clock) <= k)
    && forall k :: Cutoff(n.clock) <= k && k !in stale ==> AgreeAt(n, k)
  }

  lemma MergedKeepsAgreement(n: Node, stale: set<int>, a: Action)
    requires a.Merged? && AgreesOutside(n, stale) && n.clock <= a.now
    ensures AgreesOutside(StepNode(n, a), if a.upsertOk then stale - TouchedBy(a.t) else stale + TouchedBy(a.t))
  {
    var n' := StepNode(n, a);
    MergeQuadKeepsKeying(n.memory, a.kind, a.t);
    assert Cutoff(n.clock) <= Cutoff(a.now);
    forall k
      ensures k in n'.memory ==> Cutoff(a.now) <= k
      ensures Cutoff(a.now) <= k && k !in (if a.upsertOk then stale - TouchedBy(a.t) else stale + TouchedBy(a.t)) ==>
                AgreeAt(n', k)
    {
      MergedAt(n, a, k);
      if Cutoff(a.now) <= k && k !in stale {
        assert AgreeAt(n, k);
      }
    }
  }

  lemma ForwardPrefix(clock: int, acts: seq<Action>, n: nat)
    requires n <= |acts| && Forward(clock, acts)
    ensures Forward(clock, acts[..n])
  {
    assert forall i {:trigger acts[i]} :: 0 <= i < n ==> acts[..n][i] == acts[i] && acts[..n][..i] == acts[..i];
  }

  lemma RestartedAgrees(n: Node, a: Action)
    requires a.Restarted? && WellKeyed(n.table)
    ensures AgreesOutside(StepNode(n, a), if a.loadOk then {} else n.table.Keys)
  {
  }

  lemma StoppedAgrees(n: Node, stale: set<int>, upsertOk: bool)
    requires AgreesOutside(n, stale)
    ensures AgreesOutside(StepNode(n, Stopped(upsertOk)), if upsertOk then stale - n.memory.Keys else stale)
  {
    forall k | Cutoff(n.clock) <= k && k !in (if upsertOk then stale - n.memory.Keys else stale)
      ensures AgreeAt(StepNode(n, Stopped(upsertOk)), k)
    {
      assert k !in stale ==> AgreeAt(n, k);
    }
  }

  /** With failing store calls: a failed write leaves exactly the keys it touched in doubt, until a
      later window covers them; a failed load leaves the table's keys in doubt; a failed delete never
      leaves a live key wrong. */
  lemma {:induction false} FailuresStayLocal(n: Node, acts: seq<Action>)
    requires Mirrored(n) && Forward(n.clock, acts)
    ensures RunNode(n, acts).clock == ClockAfter(n.clock, acts)
    ensures WellKeyed(RunNode(n, acts).table)
    ensures AgreesOutside(RunNode(n, acts), Stale(n, acts))
  {
    if acts == [] {
    } else {
      var last := |acts| - 1;
      ForwardPrefix(n.clock, acts, last);
      FailuresStayLocal(n, acts[..last]);
      var n' := RunNode(n, acts[..last]);
      StepKeepsKeying(n', acts[last]);
      match acts[last]
      case Merged(_, _, _, _, _) => MergedKeepsAgreement(n', Stale(n, acts[..last]), acts[last]);
      case Restarted(_, _, _) => RestartedAgrees(n', acts[last]);
      case Stopped(upsertOk) => StoppedAgrees(n', Stale(n, acts[..last]), upsertOk);
    }
  }

  lemma RestartRecovers(n: Node, stale: set<int>, now: int, deleteOk: bool, k: int)
    requires AgreesOutside(n, stale) && n.clock <= now && k !in stale
    ensures var after := StepNode(n, Restarted(now, true, deleteOk));
            && (k in after.memory <==> k in n.memory && Cutoff(now) <= k)
            && (k in after.memory ==> after.memory[k] == n.memory[k])
  {
  }

  /** A crash at any point, if the load then succeeds, recovers every unexpired bucket outside the keys in
      doubt exactly, and drops the rows that failed deletes left behind. */
  lemma CrashRecovers(n: Node, acts: seq<Action>, now: int, deleteOk: bool, k: int)
    requires Mirrored(n) && Forward(n.clock, acts) && ClockAfter(n.clock, acts) <= now
    requires k !in Stale(n, acts)
    ensures var before, after := RunNode(n, acts), StepNode(RunNode(n, acts), Restarted(now, true, deleteOk));
            && (k in after.memory <==> k in before.memory && Cutoff(now) <= k)
            && (k in after.memory ==> after.memory[k] == before.memory[k])
  {
    FailuresStayLocal(n, acts);
    RestartRecovers(RunNode(n, acts), Stale(n, acts), now, deleteOk, k);
  }

  /** A stop whose write succeeds makes good whatever failed before it: a restart that can load finds the
      unexpired rows of the table, with the memory's in place of all that it has. */
  lemma StopRecovers(n: Node, now: int, deleteOk: bool)
    ensures StepNode(StepNode(n, Stopped(true)), Restarted(now, true, deleteOk)).memory
         == Retain(n.table + n.memory, Cutoff(now))
  {
  }

  /** One merge from a mirrored state keeps the mirror exactly when the write succeeded or had nothing new
      to store, and the delete succeeded or had nothing to remove. */
  lemma MergeMirrorsIff(n: Node, a: Action)
    requires Mirrored(n) && a.Merged?
    ensures var n' := StepNode(n, a);
            n'.table == n'.memory <==>
            && (a.upsertOk || forall k :: k in TouchedBy(a.t) && Cutoff(a.now) <= k ==>
                  k in n.table && n.table[k] == n'.memory[k])
            && (a.deleteOk || forall k :: k in n.table ==> Cutoff(a.now) <= k)
  {
    var n' := StepNode(n, a);
    forall k
      ensures Settled(n, a, k) <==> AgreeAt(n', k)
    {
      SettledIff(n, a, k);
    }
    if forall k :: Settled(n, a, k) {
      forall k
        ensures !a.upsertOk && k in TouchedBy(a.t) && Cutoff(a.now) <= k ==> k in n.table && n.table[k] == n'.memory[k]
        ensures !a.deleteOk && k in n.table ==> Cutoff(a.now) <= k
      {
        assert Settled(n, a, k);
      }
      forall k
        ensures (k in n'.table <==> k in n'.memory) && (k in n'.table ==> n'.table[k] == n'.memory[k])
      {
        assert AgreeAt(n', k);
      }
      SameMap(n'.table, n'.memory);
    } else {
      var k :| !Settled(n, a, k);
      assert !AgreeAt(n', k);
    }
  }

  /** At one key: nothing useful failed. */
  ghost predicate Settled(n: Node, a: Action, k: int)
    requires a.Merged?
  {
    && (!a.upsertOk && k in TouchedBy(a.t) && Cutoff(a.now) <= k ==>
          k in n.table && n.table[k] == StepNode(n, a).memory[k])
    && (!a.deleteOk && k in n.table ==> Cutoff(a.now) <= k)
  }

  lemma SettledIff(n: Node, a: Action, k: int)
    requires Mirrored(n) && a.Merged?
    ensures Settled(n, a, k) <==> AgreeAt(StepNode(n, a), k)
  {
    MergedAt(n, a, k);
  }

  //--------- rows without a bucket --------

  /** A row that the memory does not have: left by a failed delete or unseen by a failed load. */
  ghost predicate Orphan(n: Node, k: int, row: StatBucket) {
    k in n.table && n.table[k] == row && k !in n.memory
  }

  ghost predicate OnlyMergesElsewhere(acts: seq<Action>, k: int) {
    forall i :: 0 <= i < |acts| ==> acts[i].Merged? && k !in TouchedBy(acts[i].t)
  }

  /** Ticks that do not touch its key leave such a row as it is. */
  lemma {:induction false} OrphanStays(n: Node, acts: seq<Action>, k: int, row: StatBucket)
    requires Orphan(n, k, row) && OnlyMergesElsewhere(acts, k)
    ensures Orphan(RunNode(n, acts), k, row)
  {
    if acts == [] {
    } else {
      var last := |acts| - 1;
      OrphanStays(n, acts[..last], k, row);
      OrphanStep(RunNode(n, acts[..last]), acts[last], k, row);
    }
  }

  lemma OrphanStep(n: Node, a: Action, k: int, row: StatBucket)
    requires Orphan(n, k, row) && a.Merged? && k !in TouchedBy(a.t)
    ensures Orphan(StepNode(n, a), k, row)
  {
    MergedElsewhere(n.memory, a.kind, a.t, k);
  }

  lemma MergedElsewhere(m: Buckets, kind: Kind, t: Quad, k: int)
    requires k !in TouchedBy(t)
    ensures k in MergeQuad(m, kind, t) <==> k in m
  {
  }

  /** As long as its key stays expired, such a row goes exactly when a tick names the key and its delete
      succeeds. */
  lemma {:induction false} OrphanGoesIff(n: Node, acts: seq<Action>, k: int, row: StatBucket)
    requires Orphan(n, k, row)
    requires forall i :: 0 <= i < |acts| ==> acts[i].Merged? && k < Cutoff(acts[i].now)
    ensures var after := RunNode(n, acts);
            && k !in after.memory
            && (k in after.table <==> forall i :: 0 <= i < |acts| ==> !(k in TouchedBy(acts[i].t) && acts[i].deleteOk))
            && (k in after.table ==> after.table[k] == row)
  {
    if acts == [] {
    } else {
      var last := |acts| - 1;
      OrphanGoesIff(n, acts[..last], k, row);
      ExpiredStep(RunNode(n, acts[..last]), acts[last], k);
      assert forall i :: 0 <= i < last ==> acts[..last][i] == acts[i];
    }
  }

  lemma ExpiredStep(n: Node, a: Action, k: int)
    requires a.Merged? && k < Cutoff(a.now) && k !in n.memory
    ensures var n' := StepNode(n, a);
            && k !in n'.memory
            && (k in n'.table <==> k in n.table && !(k in TouchedBy(a.t) && a.deleteOk))
            && (k in n'.table ==> n'.table[k] == n.table[k])
  {
    MergedAt(n, a, k);
  }

  /** A delete that fails is not retried by any later ticks that leave the key alone: the row stays, until
      a restart whose load and delete succeed. */
  lemma FailedDeleteIsNotRetried(n: Node, a: Action, acts: seq<Action>, k: int, now: int)
    requires a.Merged? && !a.deleteOk && k in n.memory && k in n.table
    requires k < Cutoff(a.now) && k < Cutoff(now)
    requires k !in TouchedBy(a.t) && OnlyMergesElsewhere(acts, k)
    ensures var after := RunNode(StepNode(n, a), acts);
            && Orphan(after, k, n.table[k])
            && k !in StepNode(after, Restarted(now, true, true)).table
  {
    MergedElsewhere(n.memory, a.kind, a.t, k);
    OrphanStays(StepNode(n, a), acts, k, n.table[k]);
  }

  /** A load that fails loses nothing by itself: whatever ticks follow, the next load that succeeds brings
      back every unexpired row whose key they left alone. A row whose key they wrote is the new one. */
  lemma FailedLoadIsNotFatal(n: Node, start: int, deleteOk: bool, acts: seq<Action>, k: int, now: int, deleteOk': bool)
    requires k in n.table && OnlyMergesElsewhere(acts, k)
    ensures var failed := StepNode(n, Restarted(start, false, deleteOk));
            var after := StepNode(RunNode(failed, acts), Restarted(now, true, deleteOk'));
            && failed.memory == map[] && failed.table == n.table
            && (k in after.memory <==> Cutoff(now) <= k)
            && (k in after.memory ==> after.memory[k] == n.table[k])
  {
    var failed := StepNode(n, Restarted(start, false, deleteOk));
    OrphanStays(failed, acts, k, n.table[k]);
  }
}

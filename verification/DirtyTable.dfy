/** Incremental persistence through a dirty set (the station and frequency tables of rtp_listener in
    src/stream.rs): only changed rows are written, only evicted rows are deleted. */
module DirtyTable {

  /** A table in memory, its rows in the store, and the keys changed since the last flush. */
  datatype Table<K, V> = Table(mem: map<K, V>, db: map<K, V>, dirty: set<K>)

  /** Which store calls of one flush succeed, key by key. */
  datatype Calls<!K> = Calls(upsert: K -> bool, delete: K -> bool)

  ghost predicate SameAt<K, V>(m: map<K, V>, m': map<K, V>, k: K) {
    (k in m <==> k in m') && (k in m ==> m[k] == m'[k])
  }

  ghost predicate AgreeAt<K, V>(t: Table<K, V>, k: K) {
    SameAt(t.mem, t.db, k)
  }

  /** Dirty keys are present, and every other key has the same row in memory and store. */
  ghost predicate InSync<K(!new), V(!new)>(t: Table<K, V>) {
    t.dirty <= t.mem.Keys && forall k :: k !in t.dirty ==> AgreeAt(t, k)
  }

  function Touch<K, V>(t: Table<K, V>, k: K, v: V): Table<K, V> {
    Table(t.mem[k := v], t.db, t.dirty + {k})
  }

  /** The row of k after a flush that evicts: deleted, rewritten, or as it was. */
  ghost function Flush<K, V>(t: Table<K, V>, evicted: set<K>, calls: Calls<K>): Table<K, V> {
    var mem := t.mem - evicted;
    Table(mem, Written(Deleted(t.db, evicted, calls), t.dirty - evicted, mem, calls), {})
  }

  ghost function Deleted<K, V>(db: map<K, V>, keys: set<K>, calls: Calls<K>): map<K, V> {
    db - (set k | k in keys && calls.delete(k))
  }

  ghost function Written<K, V>(db: map<K, V>, keys: set<K>, mem: map<K, V>, calls: Calls<K>): map<K, V> {
    db + (map k | k in keys && k in mem && calls.upsert(k) :: mem[k])
  }

  lemma DeletedStep<K, V>(db: map<K, V>, keys: set<K>, todo: set<K>, k: K, calls: Calls<K>)
    requires k in todo && todo <= keys
    ensures var db' := Deleted(db, keys - todo, calls);
            Deleted(db, keys - (todo - {k}), calls) == if calls.delete(k) then db' - {k} else db'
  {
  }

  lemma WrittenStep<K, V>(db: map<K, V>, keys: set<K>, todo: set<K>, k: K, mem: map<K, V>, calls: Calls<K>)
    requires k in todo && todo <= keys
    ensures var db' := Written(db, keys - todo, mem, calls);
            Written(db, keys - (todo - {k}), mem, calls)
            == if k in mem && calls.upsert(k) then db'[k := mem[k]] else db'
  {
  }

  /** A restart loads the rows, or starts empty if that fails. */
  function Restart<K, V>(t: Table<K, V>, loadOk: bool): Table<K, V> {
    Table(if loadOk then t.db else map[], t.db, {})
  }

  ghost predicate AllSucceed<K(!new)>(calls: Calls<K>) {
    forall k :: calls.upsert(k) && calls.delete(k)
  }

  lemma TouchKeepsSync<K(!new), V(!new)>(t: Table<K, V>, k: K, v: V)
    requires InSync(t)
    ensures InSync(Touch(t, k, v))
  {
  }

  lemma FlushAt<K, V>(t: Table<K, V>, evicted: set<K>, calls: Calls<K>, k: K)
    ensures var t', write := Flush(t, evicted, calls),
                             k in t.dirty && k !in evicted && k in t.mem && calls.upsert(k);
            && (k in t'.mem <==> k in t.mem && k !in evicted)
            && (k in t'.mem ==> t'.mem[k] == t.mem[k])
            && (k in t'.db <==> write || (k in t.db && !(k in evicted && calls.delete(k))))
            && (k in t'.db ==> t'.db[k] == if write then t.mem[k] else t.db[k])
  {
  }

  /** Did every call of the flush that had something to do succeed: the deletion of an evicted row
      that exists, the write of a dirty row that is kept and differs from the stored one? */
  ghost predicate NoUsefulCallFailed<K(!new), V(!new)>(t: Table<K, V>, evicted: set<K>, calls: Calls<K>) {
    && (forall k :: k in evicted && k in t.db ==> calls.delete(k))
    && (forall k :: k in t.dirty && k !in evicted && !AgreeAt(t, k) ==> calls.upsert(k))
  }

  /** A flush leaves store and memory equal exactly when no useful call failed. */
  lemma FlushSyncsIff<K(!new), V(!new)>(t: Table<K, V>, evicted: set<K>, calls: Calls<K>)
    requires InSync(t) && evicted <= t.mem.Keys
    ensures var t' := Flush(t, evicted, calls);
            t'.db == t'.mem <==> NoUsefulCallFailed(t, evicted, calls)
  {
    var t' := Flush(t, evicted, calls);
    if NoUsefulCallFailed(t, evicted, calls) {
      forall k
        ensures AgreeAt(t', k)
      {
        FlushAt(t, evicted, calls, k);
        assert k !in t.dirty ==> AgreeAt(t, k);
      }
      forall k
        ensures k in t'.db <==> k in t'.mem
      {
        assert AgreeAt(t', k);
      }
      assert forall k :: k in t'.db ==> AgreeAt(t', k);
    } else if k :| k in evicted && k in t.db && !calls.delete(k) {
      FlushAt(t, evicted, calls, k);
    } else {
      var k :| k in t.dirty && k !in evicted && !AgreeAt(t, k) && !calls.upsert(k);
      FlushAt(t, evicted, calls, k);
    }
  }

  /** In particular a flush whose calls all succeed makes the rows a snapshot of the memory, also
      for keys that were both dirty and evicted. */
  lemma FlushIsSnapshot<K(!new), V(!new)>(t: Table<K, V>, evicted: set<K>, calls: Calls<K>)
    requires InSync(t) && AllSucceed(calls)
    ensures var t' := Flush(t, evicted, calls);
            t'.db == t'.mem == t.mem - evicted && InSync(t')
  {
  }

  //--------- whole runs --------

  datatype Action<!K, V> = Touched(k: K, v: V) | Flushed(evicted: set<K>, calls: Calls<K>) | Restarted(loadOk: bool)

  ghost function Step<K, V>(t: Table<K, V>, a: Action<K, V>): Table<K, V> {
    match a
    case Touched(k, v) => Touch(t, k, v)
    case Flushed(evicted, calls) => Flush(t, evicted, calls)
    case Restarted(loadOk) => Restart(t, loadOk)
  }

  ghost function Run<K, V>(t: Table<K, V>, acts: seq<Action<K, V>>): Table<K, V> {
    if acts == [] then t else Step(Run(t, acts[..|acts| - 1]), acts[|acts| - 1])
  }

  /** The memory at the last flush; touches and restarts since then do not count. */
  ghost function LastFlushed<K, V>(t: Table<K, V>, acts: seq<Action<K, V>>): map<K, V> {
    if acts == [] then t.mem
    else if acts[|acts| - 1].Flushed? then Run(t, acts).mem
    else LastFlushed(t, acts[..|acts| - 1])
  }

  ghost predicate Succeeds<K(!new), V>(a: Action<K, V>) {
    match a
    case Touched(_, _) => true
    case Flushed(_, calls) => AllSucceed(calls)
    case Restarted(loadOk) => loadOk
  }

  /** Over every run of successful calls: writing only dirty rows keeps the store equal to a snapshot of
      the memory at the last flush, so a crash at any point recovers exactly that flush. */
  lemma {:induction false} CrashRecoversLastFlush<K(!new), V(!new)>(t: Table<K, V>, acts: seq<Action<K, V>>)
    requires t.mem == t.db && t.dirty == {} && forall i :: 0 <= i < |acts| ==> Succeeds(acts[i])
    ensures InSync(Run(t, acts))
    ensures Run(t, acts).db == LastFlushed(t, acts)
    ensures Restart(Run(t, acts), true).mem == LastFlushed(t, acts)
  {
    if acts == [] {
      assert forall k :: AgreeAt(t, k);
    } else {
      var n := |acts| - 1;
      CrashRecoversLastFlush(t, acts[..n]);
      var s := Run(t, acts[..n]);
      assert Succeeds(acts[n]);
      match acts[n]
      case Touched(k, v) => TouchKeepsSync(s, k, v);
      case Flushed(evicted, calls) => FlushIsSnapshot(s, evicted, calls);
      case Restarted(_) => assert forall k :: AgreeAt(Restart(s, true), k);
    }
  }

  //--------- runs with failing calls --------

  /** The keys that a flush brings up to date, and those it fails to. */
  ghost function Saved<K, V>(t: Table<K, V>, evicted: set<K>, calls: Calls<K>): set<K> {
    set k | k in evicted + t.dirty && if k in evicted then calls.delete(k) else calls.upsert(k)
  }

  ghost function Missed<K, V>(t: Table<K, V>, evicted: set<K>, calls: Calls<K>): set<K> {
    set k | k in evicted + t.dirty &&
            if k in evicted then k in t.db && !calls.delete(k) else !AgreeAt(t, k) && !calls.upsert(k)
  }

  /** The keys whose last useful call failed, and after a failed load every key of the store, until a
      later flush saves them or a later load succeeds. */
  ghost function InDoubt<K, V>(t: Table<K, V>, acts: seq<Action<K, V>>): set<K> {
    if acts == [] then {}
    else
      var n := |acts| - 1;
      var s, earlier := Run(t, acts[..n]), InDoubt(t, acts[..n]);
      match acts[n]
      case Touched(_, _) => earlier
      case Flushed(evicted, calls) => earlier - Saved(s, evicted, calls) + Missed(s, evicted, calls)
      case Restarted(loadOk) => if loadOk then {} else s.db.Keys
  }

  ghost predicate AgreesOutside<K(!new), V(!new)>(t: Table<K, V>, doubt: set<K>) {
    t.dirty <= t.mem.Keys && forall k :: k !in t.dirty && k !in doubt ==> AgreeAt(t, k)
  }

  lemma TouchedAgrees<K(!new), V(!new)>(t: Table<K, V>, doubt: set<K>, k: K, v: V)
    requires AgreesOutside(t, doubt)
    ensures AgreesOutside(Touch(t, k, v), doubt)
  {
    forall x | x !in Touch(t, k, v).dirty && x !in doubt
      ensures AgreeAt(Touch(t, k, v), x)
    {
      assert AgreeAt(t, x);
    }
  }

  lemma FlushedAgrees<K(!new), V(!new)>(t: Table<K, V>, doubt: set<K>, evicted: set<K>, calls: Calls<K>)
    requires AgreesOutside(t, doubt)
    ensures AgreesOutside(Flush(t, evicted, calls), doubt - Saved(t, evicted, calls) + Missed(t, evicted, calls))
  {
    var doubt' := doubt - Saved(t, evicted, calls) + Missed(t, evicted, calls);
    forall k | k !in doubt'
      ensures AgreeAt(Flush(t, evicted, calls), k)
    {
      FlushAt(t, evicted, calls, k);
      if k !in t.dirty && k !in evicted {
        assert AgreeAt(t, k);
      }
    }
  }

  /** With failing calls memory and store still agree on every key but the dirty ones and those in doubt. */
  lemma {:induction false} FailuresStayLocal<K(!new), V(!new)>(t: Table<K, V>, acts: seq<Action<K, V>>)
    requires InSync(t)
    ensures AgreesOutside(Run(t, acts), InDoubt(t, acts))
  {
    if acts == [] {
    } else {
      var n := |acts| - 1;
      FailuresStayLocal(t, acts[..n]);
      var s, doubt := Run(t, acts[..n]), InDoubt(t, acts[..n]);
      match acts[n]
      case Touched(k, v) => TouchedAgrees(s, doubt, k, v);
      case Flushed(evicted, calls) => FlushedAgrees(s, doubt, evicted, calls);
      case Restarted(loadOk) => RestartedAgrees(s, loadOk);
    }
  }

  lemma RestartedAgrees<K(!new), V(!new)>(t: Table<K, V>, loadOk: bool)
    ensures AgreesOutside(Restart(t, loadOk), if loadOk then {} else t.db.Keys)
  {
    assert forall k :: (loadOk || k !in t.db) ==> AgreeAt(Restart(t, loadOk), k);
  }

  /** The memory at the last flush or restart. */
  ghost function LastSettled<K, V>(t: Table<K, V>, acts: seq<Action<K, V>>): map<K, V> {
    if acts == [] then t.mem
    else if acts[|acts| - 1].Touched? then LastSettled(t, acts[..|acts| - 1])
    else Run(t, acts).mem
  }

  /** A crash at any point, if the load then succeeds, recovers the row of the last flush or restart at
      every key that is not in doubt. */
  lemma {:induction false} CrashRecoversOutsideDoubt<K(!new), V(!new)>(t: Table<K, V>, acts: seq<Action<K, V>>, k: K)
    requires t.mem == t.db && t.dirty == {} && k !in InDoubt(t, acts)
    ensures SameAt(Restart(Run(t, acts), true).mem, LastSettled(t, acts), k)
  {
    if acts == [] {
    } else {
      var n := |acts| - 1;
      if acts[n].Touched? {
        CrashRecoversOutsideDoubt(t, acts[..n], k);
      } else {
        assert InSync(t) by {
          assert forall x :: AgreeAt(t, x);
        }
        FailuresStayLocal(t, acts);
        assert AgreeAt(Run(t, acts), k);
      }
    }
  }

  /** Does an action leave this key alone, and the process running? */
  ghost predicate Elsewhere<K, V>(a: Action<K, V>, k: K) {
    match a
    case Touched(x, _) => x != k
    case Flushed(evicted, _) => k !in evicted
    case Restarted(_) => false
  }

  /** A clean key that is left alone keeps its entry and its row through any run. */
  lemma {:induction false} LeftAlone<K, V>(t: Table<K, V>, acts: seq<Action<K, V>>, k: K)
    requires k !in t.dirty && forall i :: 0 <= i < |acts| ==> Elsewhere(acts[i], k)
    ensures k !in Run(t, acts).dirty && SameAt(Run(t, acts).mem, t.mem, k) && SameAt(Run(t, acts).db, t.db, k)
  {
    if acts == [] {
    } else {
      var n := |acts| - 1;
      LeftAlone(t, acts[..n], k);
      assert Elsewhere(acts[n], k);
    }
  }

  /** A write that failed is not retried: the dirty set was drained, so memory and row stay as they were
      through any later flushes, until the key is touched again. */
  lemma FailedWriteIsNotRetried<K, V>(t: Table<K, V>, evicted: set<K>, calls: Calls<K>, acts: seq<Action<K, V>>, k: K)
    requires k in t.dirty && k in t.mem && k !in evicted && !calls.upsert(k) && !AgreeAt(t, k)
    requires forall i :: 0 <= i < |acts| ==> Elsewhere(acts[i], k)
    ensures var after := Run(Flush(t, evicted, calls), acts);
            && SameAt(after.mem, t.mem, k) && SameAt(after.db, t.db, k)
            && !AgreeAt(after, k) && k !in after.dirty
  {
    FlushAt(t, evicted, calls, k);
    LeftAlone(Flush(t, evicted, calls), acts, k);
  }

  /** A load that fails loses no row by itself: one whose key is left alone stays in the store, and the next
      load that succeeds brings it back. Once its key is heard, a row counted from nothing replaces it. */
  lemma FailedLoadIsNotFatal<K, V>(t: Table<K, V>, acts: seq<Action<K, V>>, k: K)
    requires k in t.db && forall i :: 0 <= i < |acts| ==> Elsewhere(acts[i], k)
    ensures var s := Run(Restart(t, false), acts);
            k !in s.mem && SameAt(Restart(s, true).mem, t.db, k)
  {
    LeftAlone(Restart(t, false), acts, k);
  }
}

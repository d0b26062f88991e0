/** The purged one-timestamp-per-key cache against the full log of igated packets
    (src/aprs_is.rs, duplicate suppression). */
module Dedup {
  import opened Gate

  const DEDUP_TTL_SECS := 30

  datatype Entry = Entry(key: Bytes, at: int)

  type Cache = map<Bytes, int>

  /** What suppression means: the log holds the same key less than 30 seconds before now. */
  ghost predicate RecentlyGated(log: seq<Entry>, key: Bytes, now: int) {
    exists i :: 0 <= i < |log| && log[i].key == key && now - log[i].at < 30
  }

  /** No two packets with one key were gated less than 30 seconds apart. */
  ghost predicate Spaced(log: seq<Entry>) {
    forall i, j :: 0 <= i < j < |log| && log[i].key == log[j].key ==> log[j].at - log[i].at >= 30
  }

  predicate Suppresses(cache: Cache, key: Bytes, now: int) {
    key in cache && now - cache[key] < DEDUP_TTL_SECS
  }

  function Purge(cache: Cache, now: int): Cache {
    map k | k in cache && now - cache[k] < DEDUP_TTL_SECS :: cache[k]
  }

  /** The cache holds logged times only, and of every key gated in the last 30 seconds the latest. */
  ghost predicate CacheRefines(cache: Cache, log: seq<Entry>, clock: int) {
    && (forall k :: k in cache ==> Entry(k, cache[k]) in log)
    && (forall i :: 0 <= i < |log| ==> log[i].at <= clock)
    && (forall i :: 0 <= i < |log| && clock - log[i].at < DEDUP_TTL_SECS ==>
          log[i].key in cache && log[i].at <= cache[log[i].key])
  }

  /** The cache decides as the full log would. */
  lemma CacheDecides(cache: Cache, log: seq<Entry>, clock: int, key: Bytes, now: int)
    requires CacheRefines(cache, log, clock) && clock <= now
    ensures Suppresses(cache, key, now) <==> RecentlyGated(log, key, now)
  {
  }

  lemma PurgeKeeps(cache: Cache, log: seq<Entry>, clock: int, now: int)
    requires CacheRefines(cache, log, clock) && clock <= now
    ensures CacheRefines(Purge(cache, now), log, now)
    ensures forall k :: k in Purge(cache, now) <==> RecentlyGated(log, k, now)
  {
  }

  lemma TimePasses(cache: Cache, log: seq<Entry>, clock: int, now: int)
    requires CacheRefines(cache, log, clock) && clock <= now
    ensures CacheRefines(cache, log, now)
  {
  }

  lemma GateKeeps(cache: Cache, log: seq<Entry>, clock: int, key: Bytes, now: int)
    requires CacheRefines(cache, log, clock) && clock <= now && Spaced(log)
    requires !Suppresses(cache, key, now)
    ensures CacheRefines(cache[key := now], log + [Entry(key, now)], now)
    ensures Spaced(log + [Entry(key, now)])
  {
  }

  /** What happens to the cache: a packet that passed the policy, whose write succeeds or not; a
      telemetry tick. Reconnects and failed writes do nothing else to it. */
  datatype Action = Arrived(key: Bytes, now: int, written: bool) | Ticked(now: int)

  datatype State = State(cache: Cache, log: seq<Entry>, clock: int)

  function Step(s: State, a: Action): State {
    match a
    case Ticked(now) => State(Purge(s.cache, now), s.log, now)
    case Arrived(key, now, written) =>
      if Suppresses(s.cache, key, now) || !written then State(s.cache, s.log, now)
      else State(s.cache[key := now], s.log + [Entry(key, now)], now)
  }

  function Run(s: State, acts: seq<Action>): State {
    if acts == [] then s else Step(Run(s, acts[..|acts| - 1]), acts[|acts| - 1])
  }

  ghost predicate Forward(s: State, acts: seq<Action>) {
    forall i {:trigger acts[i]} :: 0 <= i < |acts| ==> Run(s, acts[..i]).clock <= acts[i].now
  }

  /** Over every run with a forward clock: the cache refines the log, the log stays spaced, and the
      next packet is suppressed exactly when the log says so. */
  lemma {:induction false} RunRefinesLog(start: int, acts: seq<Action>, key: Bytes, now: int)
    requires Forward(State(map[], [], start), acts)
    ensures var s := Run(State(map[], [], start), acts);
            && CacheRefines(s.cache, s.log, s.clock)
            && Spaced(s.log)
            && (s.clock <= now ==> (Suppresses(s.cache, key, now) <==> RecentlyGated(s.log, key, now)))
  {
    var s0 := State(map[], [], start);
    var s := Run(s0, acts);
    if acts == [] {
    } else {
      var n := |acts| - 1;
      assert forall i {:trigger acts[i]} :: 0 <= i < n ==> acts[..n][i] == acts[i] && acts[..n][..i] == acts[..i];
      RunRefinesLog(start, acts[..n], key, now);
      var t, a := Run(s0, acts[..n]), acts[n];
      assert t.clock <= a.now;
      TimePasses(t.cache, t.log, t.clock, a.now);
      match a
      case Ticked(_) => PurgeKeeps(t.cache, t.log, t.clock, a.now);
      case Arrived(k, _, _) =>
        if !Suppresses(t.cache, k, a.now) {
          GateKeeps(t.cache, t.log, t.clock, k, a.now);
        }
    }
    if s.clock <= now {
      CacheDecides(s.cache, s.log, s.clock, key, now);
    }
  }

  /** Clock going backwards breaks the refinement: a purge at a later time forgets a key that an
      earlier clock would still have to suppress. */
  lemma BackwardClockForgets(key: Bytes)
    ensures var log, cache := [Entry(key, 0)], map[key := 0];
            && CacheRefines(cache, log, 0)
            && RecentlyGated(log, key, 29)
            && !Suppresses(Purge(cache, 30), key, 29)
  {
    var log := [Entry(key, 0)];
    assert log[0].key == key && 29 - log[0].at < DEDUP_TTL_SECS;
  }
}

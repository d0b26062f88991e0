/** The watched-station list (the watched handlers in src/main.rs). Each handler first changes the
    shared list under its lock and then, as a separate step, changes the store, so the steps of
    different requests interleave. */
module Watch {
  import opened Types
  import opened StoreTables

  /** Maximum number of simultaneously watched stations. */
  const MAX_WATCHED := 20

  //--------- trimming --------

  /** The White_Space property of Unicode. */
  predicate IsSpace(c: char) {
    var n := c as int;
    || 9 <= n <= 13 || n == 0x20 || n == 0x85 || n == 0xA0 || n == 0x1680
    || 0x2000 <= n <= 0x200A || n == 0x2028 || n == 0x2029 || n == 0x202F || n == 0x205F || n == 0x3000
  }

  /** The same characters, listed. */
  lemma SpacesListed(c: char)
    ensures IsSpace(c) <==> c as int in {9, 10, 11, 12, 13, 32, 133, 160, 5760, 8192, 8193, 8194, 8195, 8196, 8197,
                                         8198, 8199, 8200, 8201, 8202, 8232, 8233, 8239, 8287, 12288}
  {
  }

  function TrimStart(s: string): (t: string)
    ensures t == "" || !IsSpace(t[0])
    ensures s != "" && !IsSpace(s[0]) ==> t == s
    ensures s != "" && !IsSpace(s[|s| - 1]) ==> t != "" && t[|t| - 1] == s[|s| - 1]
  {
    if s != "" && IsSpace(s[0]) then TrimStart(s[1..]) else s
  }

  function TrimEnd(s: string): (t: string)
    ensures t <= s
    ensures t == "" || !IsSpace(t[|t| - 1])
    ensures s != "" && !IsSpace(s[|s| - 1]) ==> t == s
  {
    if s != "" && IsSpace(s[|s| - 1]) then TrimEnd(s[..|s| - 1]) else s
  }

  function Trim(s: string): string {
    TrimEnd(TrimStart(s))
  }

  /** What is between the first and the last character that is no space; everything outside is. */
  lemma TrimKeepsMiddle(s: string) returns (i: nat, j: nat)
    ensures i <= j <= |s| && Trim(s) == s[i..j]
    ensures forall k :: 0 <= k < |s| && !(i <= k < j) ==> IsSpace(s[k])
    ensures i < j ==> !IsSpace(s[i]) && !IsSpace(s[j - 1])
  {
    i := TrimStartDrops(s);
    var n := TrimEndDrops(s[i..]);
    j := i + n;
    assert Trim(s) == s[i..][..n] == s[i..j];
    forall k | 0 <= k < |s| && !(i <= k < j)
      ensures IsSpace(s[k])
    {
      assert k >= j ==> s[i..][k - i] == s[k];
    }
  }

  lemma {:induction false} TrimStartDrops(s: string) returns (i: nat)
    ensures i <= |s| && TrimStart(s) == s[i..] && forall k :: 0 <= k < i ==> IsSpace(s[k])
  {
    i := 0;
    if s != "" && IsSpace(s[0]) {
      var n := TrimStartDrops(s[1..]);
      i := n + 1;
      assert forall k :: 0 < k < i ==> s[k] == s[1..][k - 1];
    }
  }

  lemma {:induction false} TrimEndDrops(s: string) returns (n: nat)
    ensures n <= |s| && TrimEnd(s) == s[..n] && forall k :: n <= k < |s| ==> IsSpace(s[k])
  {
    n := |s|;
    if s != "" && IsSpace(s[|s| - 1]) {
      n := TrimEndDrops(s[..|s| - 1]);
    }
  }

  lemma TrimIsIdempotent(s: string)
    ensures Trim(Trim(s)) == Trim(s)
  {
  }

  //--------- the handlers' memory steps --------

  datatype Reply = BadRequest | Conflict | Listed(list: seq<string>, newlyAdded: bool)

  /** The list after an add request, and its reply. */
  function Added(list: seq<string>, body: string): seq<string> {
    if PostReply(list, body) == Listed(list + [Trim(body)], true) then list + [Trim(body)] else list
  }

  function PostReply(list: seq<string>, body: string): Reply {
    var station := Trim(body);
    if station == "" then BadRequest
    else if station in list then Listed(list, false)
    else if |list| >= MAX_WATCHED then Conflict
    else Listed(list + [station], true)
  }

  /** The reply on the request's own terms. A blank name is refused first, and a station that is there already is
      listed even when the list is full. */
  lemma ReplyIff(list: seq<string>, body: string)
    ensures var reply, station := PostReply(list, body), Trim(body);
            var blank := forall k :: 0 <= k < |body| ==> IsSpace(body[k]);
            && (reply == BadRequest <==> blank)
            && (reply == Conflict <==> !blank && station !in list && |list| >= 20)
            && (reply == Listed(list, false) <==> !blank && station in list)
            && (reply == Listed(list + [station], true) <==> !blank && station !in list && |list| < 20)
            && Added(list, body) == if reply.Listed? then reply.list else list
  {
    var i, j := TrimKeepsMiddle(body);
  }

  function Without(list: seq<string>, station: string): seq<string> {
    if list == [] then []
    else
      var n := |list| - 1;
      Without(list[..n], station) + if list[n] == station then [] else [list[n]]
  }

  ghost predicate Legal(list: seq<string>) {
    Distinct(list) && |list| <= 20 && forall s :: s in list ==> s != "" && Trim(s) == s
  }

  ghost predicate KeepsOthers(list: seq<string>, station: string, r: seq<string>) {
    && |r| <= |list|
    && (forall s :: s in r <==> s in list && s != station)
    && (Distinct(list) ==> Distinct(r))
    && (station !in list ==> r == list)
  }

  lemma OneMoreKept(list: seq<string>, name: string, station: string, r: seq<string>, r': seq<string>)
    requires KeepsOthers(list, station, r) && r' == r + if name == station then [] else [name]
    ensures KeepsOthers(list + [name], station, r')
  {
    var longer := list + [name];
    assert forall s :: s in longer <==> s in list || s == name;
    if Distinct(longer) {
      assert longer[|list|] == name && forall i :: 0 <= i < |list| ==> longer[i] == list[i];
      assert Distinct(list) && forall i :: 0 <= i < |list| ==> list[i] != name;
      assert name !in list && name !in r;
    }
  }

  lemma {:induction false} WithoutKeepsOthers(list: seq<string>, station: string)
    ensures KeepsOthers(list, station, Without(list, station))
  {
    if list == [] {
    } else {
      var n := |list| - 1;
      WithoutKeepsOthers(list[..n], station);
      OneMoreKept(list[..n], list[n], station, Without(list[..n], station), Without(list, station));
      assert list == list[..n] + [list[n]];
    }
  }

  /** Deleting leaves the others where they are. */
  lemma {:induction false} WithoutSplits(a: seq<string>, b: seq<string>, station: string)
    ensures Without(a + b, station) == Without(a, station) + Without(b, station)
  {
    if b == [] {
      assert a + b == a;
    } else {
      var n := |b| - 1;
      WithoutSplits(a, b[..n], station);
      assert (a + b)[..|a + b| - 1] == a + b[..n];
    }
  }

  lemma WithoutOne(name: string, station: string)
    ensures Without([name], station) == if name == station then [] else [name]
  {
    assert [name][..0] == [];
  }

  lemma OneMoreIsLegal(list: seq<string>, station: string, longer: seq<string>)
    requires Legal(list) && |list| < 20 && station !in list && station != "" && Trim(station) == station
    requires longer == list + [station]
    ensures Legal(longer)
  {
    assert longer[|list|] == station && forall i :: 0 <= i < |list| ==> longer[i] == list[i];
  }

  lemma AddedStaysLegal(list: seq<string>, body: string)
    requires Legal(list)
    ensures Legal(Added(list, body))
  {
    if PostReply(list, body) == Listed(list + [Trim(body)], true) {
      TrimIsIdempotent(body);
      OneMoreIsLegal(list, Trim(body), Added(list, body));
    }
  }

  lemma WithoutStaysLegal(list: seq<string>, station: string)
    requires Legal(list)
    ensures Legal(Without(list, station))
  {
    WithoutKeepsOthers(list, station);
  }

  /** Adding a station that was just added, or was there already, changes nothing and is no conflict,
      also when the list is full. */
  lemma PostIsIdempotent(list: seq<string>, body: string)
    requires PostReply(list, body).Listed?
    ensures Added(Added(list, body), body) == Added(list, body)
    ensures PostReply(Added(list, body), body) == Listed(Added(list, body), false)
  {
    if Trim(body) !in list {
      var after := list + [Trim(body)];
      assert after[|list|] == Trim(body);
    }
  }

  /** Deleting what was just added restores the list exactly when the name was sent trimmed: the add
      handler trims it and the delete handler does not. */
  lemma DeleteUndoesPostIff(list: seq<string>, body: string)
    requires Legal(list) && PostReply(list, body) == Listed(list + [Trim(body)], true)
    ensures Without(Added(list, body), body) == list <==> Trim(body) == body
  {
    var after := Added(list, body);
    assert after == list + [Trim(body)] && after[..|list|] == list;
    WithoutKeepsOthers(list, body);
    WithoutKeepsOthers(after, body);
    TrimIsIdempotent(body);
  }

  class WatchList {
    var list: seq<string>
    const store: Store

    constructor (store: Store, loadOk: bool)
      ensures this.store == store
      ensures if loadOk then Restores(list, store.watched) else list == []
    {
      this.store := store;
      list := [];
      new;
      if loadOk {
        list := store.LoadWatchedStations();
      }
    }

    method PostMemory(body: string) returns (reply: Reply)
      modifies this
      ensures reply == PostReply(old(list), body)
      ensures list == Added(old(list), body)
    {
      var station := Trim(body);
      if station == "" {
        return BadRequest;
      }
      if station in list {
        reply := Listed(list, false);
      } else if |list| >= MAX_WATCHED {
        return Conflict;
      } else {
        list := list + [station];
        reply := Listed(list, true);
      }
    }

    method PostStore(body: string, now: int, ok: bool)
      modifies store`watched
      ensures store.watched == if ok then old(store.watched)[Trim(body) := now] else old(store.watched)
    {
      store.AddWatchedStation(Trim(body), now, ok);
    }

    method DeleteMemory(station: string) returns (updated: seq<string>)
      modifies this
      ensures updated == list == Without(old(list), station)
    {
      var kept := [];
      for i := 0 to |list|
        invariant list == old(list)
        invariant kept == Without(list[..i], station)
      {
        assert list[..i + 1][..i] == list[..i];
        if list[i] != station {
          kept := kept + [list[i]];
        }
      }
      assert list[..|list|] == list;
      list := kept;
      updated := list;
    }

    method DeleteStore(station: string, ok: bool)
      modifies store`watched
      ensures store.watched == if ok then old(store.watched) - {station} else old(store.watched)
    {
      store.RemoveWatchedStation(station, ok);
    }
  }

  //--------- interleavings --------

  /** A request whose memory step is done and whose store step is not. */
  datatype Request = Add(station: string) | Remove(station: string)

  function ApplyTo(rows: map<string, int>, r: Request, now: int): map<string, int> {
    match r
    case Add(s) => rows[s := now]
    case Remove(s) => rows - {s}
  }

  datatype State = State(list: seq<string>, rows: map<string, int>, pending: map<nat, Request>)

  /** Complete is a store step; a restart loads the list from the table, or fails to, and loses the
      requests in flight. */
  datatype Step = Post(id: nat, body: string) | Delete(id: nat, station: string)
                | Complete(id: nat, ok: bool, now: int) | Restart(loaded: Option<seq<string>>)

  ghost predicate Possible(st: State, step: Step) {
    match step
    case Post(id, _) => id !in st.pending
    case Delete(id, _) => id !in st.pending
    case Complete(id, _, _) => id in st.pending
    case Restart(loaded) => loaded.Some? ==> Restores(loaded.value, st.rows)
  }

  ghost function Next(st: State, step: Step): State
    requires Possible(st, step)
  {
    match step
    case Post(id, body) =>
      if PostReply(st.list, body) == Listed(st.list + [Trim(body)], true)
      then State(Added(st.list, body), st.rows, st.pending[id := Add(Trim(body))]) else st
    case Delete(id, station) => State(Without(st.list, station), st.rows, st.pending[id := Remove(station)])
    case Complete(id, ok, now) =>
      State(st.list, if ok then ApplyTo(st.rows, st.pending[id], now) else st.rows, st.pending - {id})
    case Restart(loaded) => State(if loaded.Some? then loaded.value else [], st.rows, map[])
  }

  ghost predicate AllPossible(st: State, steps: seq<Step>)
    decreases |steps|
  {
    steps != [] ==> Possible(st, steps[0]) && AllPossible(Next(st, steps[0]), steps[1..])
  }

  ghost function Run(st: State, steps: seq<Step>): State
    requires AllPossible(st, steps)
    decreases |steps|
  {
    if steps == [] then st else Run(Next(st, steps[0]), steps[1..])
  }

  /** However the requests' steps interleave, and whatever the store does, the list is duplicate-free,
      holds trimmed names only and never more than twenty. */
  lemma {:induction false} ListStaysLegal(st: State, steps: seq<Step>)
    requires Legal(st.list) && AllPossible(st, steps)
    requires forall i :: 0 <= i < |steps| ==> !steps[i].Restart?
    ensures Legal(Run(st, steps).list)
    decreases |steps|
  {
    if steps == [] {
    } else {
      match steps[0] {
        case Post(_, body) => AddedStaysLegal(st.list, body);
        case Delete(_, station) => WithoutStaysLegal(st.list, station);
        case _ =>
      }
      ListStaysLegal(Next(st, steps[0]), steps[1..]);
    }
  }

  //--------- agreement with the store --------

  ghost predicate InFlight(st: State, station: string) {
    exists id :: id in st.pending && st.pending[id].station == station
  }

  /** Membership agrees for every station with nothing in flight; a station has at most one request in
      flight, and the list already shows its outcome. */
  ghost predicate Settled(st: State) {
    && (forall s :: !InFlight(st, s) ==> (s in st.rows <==> s in st.list))
    && (forall i, j :: i in st.pending && j in st.pending && st.pending[i].station == st.pending[j].station ==> i == j)
    && (forall i :: i in st.pending ==> Shown(st.list, st.pending[i]))
  }

  ghost predicate Shown(list: seq<string>, r: Request) {
    r.Add? <==> r.station in list
  }

  /** Requests for one station do not overlap, and store calls succeed. */
  ghost predicate Serialised(st: State, step: Step) {
    match step
    case Post(_, body) => !InFlight(st, Trim(body))
    case Delete(_, station) => !InFlight(st, station)
    case Complete(_, ok, _) => ok
    case Restart(loaded) => loaded.Some?
  }

  ghost predicate AllSerialised(st: State, steps: seq<Step>)
    requires AllPossible(st, steps)
    decreases |steps|
  {
    steps != [] ==> Serialised(st, steps[0]) && AllSerialised(Next(st, steps[0]), steps[1..])
  }

  lemma StepSettles(st: State, step: Step)
    requires Settled(st) && Possible(st, step) && Serialised(st, step)
    ensures Settled(Next(st, step))
  {
    match step {
      case Post(id, body) => PostSettles(st, id, body);
      case Delete(id, station) => DeleteSettles(st, id, station);
      case Complete(id, ok, now) => CompleteSettles(st, id, now);
      case Restart(loaded) =>
        assert Next(st, step).pending == map[];
    }
  }

  /** Starting one more request for an idle station, whose membership alone changes to its outcome. */
  lemma BeginSettles(st: State, id: nat, r: Request, st': State)
    requires Settled(st) && id !in st.pending && !InFlight(st, r.station)
    requires st'.rows == st.rows && st'.pending == st.pending[id := r] && Shown(st'.list, r)
    requires forall s :: s != r.station ==> (s in st'.list <==> s in st.list)
    ensures Settled(st')
  {
    assert InFlight(st', r.station) by {
      assert st'.pending[id].station == r.station;
    }
    forall s | !InFlight(st', s) ensures s in st'.rows <==> s in st'.list {
      assert !InFlight(st, s) by {
        assert forall i :: i in st.pending ==> i in st'.pending && st'.pending[i] == st.pending[i];
      }
    }
    assert forall i :: i in st.pending ==> st.pending[i].station != r.station;
  }

  lemma PostSettles(st: State, id: nat, body: string)
    requires Settled(st) && id !in st.pending && !InFlight(st, Trim(body))
    ensures Settled(Next(st, Post(id, body)))
  {
    if PostReply(st.list, body) == Listed(st.list + [Trim(body)], true) {
      BeginSettles(st, id, Add(Trim(body)), Next(st, Post(id, body)));
    }
  }

  lemma DeleteSettles(st: State, id: nat, station: string)
    requires Settled(st) && id !in st.pending && !InFlight(st, station)
    ensures Settled(Next(st, Delete(id, station)))
  {
    WithoutKeepsOthers(st.list, station);
    BeginSettles(st, id, Remove(station), Next(st, Delete(id, station)));
  }

  lemma CompleteSettles(st: State, id: nat, now: int)
    requires Settled(st) && id in st.pending
    ensures Settled(Next(st, Complete(id, true, now)))
  {
    var st' := Next(st, Complete(id, true, now));
    var done := st.pending[id].station;
    forall s | s != done && InFlight(st, s) ensures InFlight(st', s) {
      var i :| i in st.pending && st.pending[i].station == s;
      assert i in st'.pending && st'.pending[i].station == s;
    }
    assert forall s :: s != done ==> (s in st'.rows <==> s in st.rows);
    assert done in st'.rows <==> done in st'.list;
  }

  /** If requests for one station never overlap and store calls succeed, then after every run, with
      restarts, the table and the list agree on every station with nothing in flight. */
  lemma {:induction false} MembershipAgrees(st: State, steps: seq<Step>)
    requires Settled(st) && AllPossible(st, steps) && AllSerialised(st, steps)
    ensures Settled(Run(st, steps))
    decreases |steps|
  {
    if steps == [] {
    } else {
      StepSettles(st, steps[0]);
      MembershipAgrees(Next(st, steps[0]), steps[1..]);
    }
  }

  //--------- overlapping requests --------

  /** The table after the given pending requests complete, in that order. */
  ghost function Finish(st: State, order: seq<nat>, now: int): map<string, int>
    requires forall i :: 0 <= i < |order| ==> order[i] in st.pending
  {
    if order == [] then st.rows
    else
      var n := |order| - 1;
      ApplyTo(Finish(st, order[..n], now), st.pending[order[n]], now)
  }

  ghost predicate Orders(st: State, order: seq<nat>) {
    && (forall i :: 0 <= i < |order| ==> order[i] in st.pending)
    && (forall id :: id in st.pending ==> id in order)
    && (forall i, j :: 0 <= i < j < |order| ==> order[i] != order[j])
  }

  /** Whether the table ends up agreeing on a station in every completion order. */
  ghost predicate AlwaysAgrees(st: State, s: string, now: int) {
    forall order :: Orders(st, order) ==> (s in Finish(st, order, now) <==> s in st.list)
  }

  /** Do all requests of the station that are in flight have the outcome the list shows? */
  ghost predicate AllShown(st: State, s: string) {
    forall i :: i in st.pending && st.pending[i].station == s ==> Shown(st.list, st.pending[i])
  }

  /** Any overlap: every completion order leaves the table agreeing with the list on a station exactly
      when all its requests in flight are of the kind the list shows, or it has none and they agree now. */
  lemma AlwaysAgreesIff(st: State, s: string, now: int)
    ensures AlwaysAgrees(st, s, now) <==>
            if InFlight(st, s) then AllShown(st, s)
            else s in st.rows <==> s in st.list
  {
    forall order | Orders(st, order)
      ensures !InFlight(st, s) ==> (s in Finish(st, order, now) <==> s in st.rows)
      ensures InFlight(st, s) && AllShown(st, s) ==> (s in Finish(st, order, now) <==> s in st.list)
    {
      LastOneDecides(st, s, order, now);
    }
    forall id | id in st.pending && st.pending[id].station == s && !Shown(st.list, st.pending[id])
      ensures !AlwaysAgrees(st, s, now)
    {
      var order := EndingWith(st, id);
      assert order[|order| - 1] == id;
      assert Orders(st, order);
    }
    if !InFlight(st, s) {
      var order := SomeOrder(st.pending.Keys);
      assert Orders(st, order);
    }
  }

  lemma {:induction false} LastOneDecides(st: State, s: string, order: seq<nat>, now: int)
    requires forall i :: 0 <= i < |order| ==> order[i] in st.pending
    ensures (forall i :: 0 <= i < |order| ==> st.pending[order[i]].station != s)
            ==> (s in Finish(st, order, now) <==> s in st.rows)
    ensures (exists i :: 0 <= i < |order| && st.pending[order[i]].station == s)
            && (forall i :: 0 <= i < |order| ==>
                  st.pending[order[i]].station == s ==> Shown(st.list, st.pending[order[i]]))
            ==> (s in Finish(st, order, now) <==> s in st.list)
  {
    if order == [] {
    } else {
      var n := |order| - 1;
      LastOneDecides(st, s, order[..n], now);
      assert forall i :: 0 <= i < n ==> order[..n][i] == order[i];
    }
  }

  lemma {:induction false} SomeOrder(ids: set<nat>) returns (order: seq<nat>)
    ensures forall id :: id in ids <==> id in order
    ensures forall i, j :: 0 <= i < j < |order| ==> order[i] != order[j]
  {
    if ids == {} {
      order := [];
    } else {
      var id :| id in ids;
      var rest := SomeOrder(ids - {id});
      order := rest + [id];
    }
  }

  lemma EndingWith(st: State, id: nat) returns (order: seq<nat>)
    requires id in st.pending
    ensures Orders(st, order) && order != [] && order[|order| - 1] == id
  {
    var rest := SomeOrder(st.pending.Keys - {id});
    order := rest + [id];
    assert forall i :: 0 <= i < |rest| ==> order[i] == rest[i] && rest[i] in rest;
    forall i | i in st.pending ensures i in order {
      assert i == id || i in rest;
      assert order[|rest|] == id;
    }
  }

  /** Four steps, one at a time. */
  lemma FourSteps(st: State, a: Step, b: Step, c: Step, d: Step, s1: State, s2: State, s3: State)
    requires Possible(st, a) && s1 == Next(st, a) && Possible(s1, b) && s2 == Next(s1, b)
    requires Possible(s2, c) && s3 == Next(s2, c) && Possible(s3, d)
    ensures AllPossible(st, [a, b, c, d]) && Run(st, [a, b, c, d]) == Next(s3, d)
    ensures AllSerialised(st, [a, b, c, d])
            <==> Serialised(st, a) && Serialised(s1, b) && Serialised(s2, c) && Serialised(s3, d)
  {
    assert [a, b, c, d][1..] == [b, c, d];
    assert [b, c, d][1..] == [c, d];
    assert [c, d][1..] == [d];
    assert [d][1..] == [];
    assert AllPossible(Next(s3, d), []) && Run(Next(s3, d), []) == Next(s3, d) && AllSerialised(Next(s3, d), []);
    assert AllPossible(s3, [d]) && Run(s3, [d]) == Next(s3, d);
    assert AllSerialised(s3, [d]) <==> Serialised(s3, d);
    assert AllPossible(s2, [c, d]) && Run(s2, [c, d]) == Next(s3, d);
    assert AllSerialised(s2, [c, d]) <==> Serialised(s2, c) && Serialised(s3, d);
    assert AllPossible(s1, [b, c, d]) && Run(s1, [b, c, d]) == Next(s3, d);
  }

  /** The shortest overlap that goes wrong: adding and deleting one new station, with the store steps
      the other way round, leaves a row for a station that is not watched. */
  lemma OverlapLeavesRow(station: string, now: int)
    requires station != "" && Trim(station) == station
    ensures var steps := [Post(0, station), Delete(1, station), Complete(1, true, now), Complete(0, true, now)];
            && AllPossible(State([], map[], map[]), steps)
            && Run(State([], map[], map[]), steps) == State([], map[station := now], map[])
  {
    var st0 := State([], map[], map[]);
    var st1 := Next(st0, Post(0, station));
    assert st1.list == [station];
    assert Without([station], station) == [] by {
      WithoutKeepsOthers([station], station);
    }
    var st2 := Next(st1, Delete(1, station));
    var st3 := Next(st2, Complete(1, true, now));
    assert st3.pending == map[0 := Add(station)] && st3.rows == map[];
    var st4 := Next(st3, Complete(0, true, now));
    assert st4.pending == map[];
    FourSteps(st0, Post(0, station), Delete(1, station), Complete(1, true, now), Complete(0, true, now), st1, st2, st3);
  }

  //--------- restarts --------

  ghost function Members(list: seq<string>): set<string> {
    set s | s in list
  }

  lemma {:induction false} DistinctCount(list: seq<string>)
    requires Distinct(list)
    ensures |Members(list)| == |list|
  {
    if list == [] {
    } else {
      var n := |list| - 1;
      DistinctCount(list[..n]);
      assert list == list[..n] + [list[n]];
      assert Members(list) == Members(list[..n]) + {list[n]};
    }
  }

  /** A restart does not apply the cap: the list it loads is within it exactly when the table is. */
  lemma RestartWithinCapIff(rows: map<string, int>, loaded: seq<string>)
    requires Restores(loaded, rows)
    ensures |loaded| <= 20 <==> |rows.Keys| <= 20
  {
    DistinctCount(loaded);
    assert Members(loaded) == rows.Keys;
  }

  /** It keeps a legal list legal when nothing is in flight. */
  lemma RestartStaysLegal(st: State, loaded: seq<string>)
    requires Settled(st) && Legal(st.list) && st.pending == map[] && Restores(loaded, st.rows)
    ensures Legal(loaded) && Members(loaded) == Members(st.list)
  {
    assert forall s :: !InFlight(st, s);
    DistinctCount(loaded);
    DistinctCount(st.list);
    assert Members(loaded) == Members(st.list);
    assert forall s :: s in loaded ==> s in Members(loaded);
  }

  /** With a delete still in flight it need not: a full list that drops a station, takes another and is
      restarted before the first one's store step comes back with twenty-one. */
  lemma RestartCanExceedCap(st: State, gone: string, newcomer: string, now: int, loaded: seq<string>)
    requires Settled(st) && Legal(st.list) && st.pending == map[] && |st.list| == 20
    requires gone in st.list && newcomer !in st.list && newcomer != "" && Trim(newcomer) == newcomer
    requires Restores(loaded, st.rows[newcomer := now])
    ensures var steps := [Delete(0, gone), Post(1, newcomer), Complete(1, true, now), Restart(Some(loaded))];
            && AllPossible(st, steps) && AllSerialised(st, steps)
            && |Run(st, steps).list| == 21
  {
    var st1 := Next(st, Delete(0, gone));
    RemovedIsShorter(st.list, gone);
    WithoutKeepsOthers(st.list, gone);
    assert forall s :: !InFlight(st, s);
    assert PostReply(st1.list, newcomer) == Listed(st1.list + [newcomer], true);
    var st2 := Next(st1, Post(1, newcomer));
    assert !InFlight(st1, newcomer);
    assert st2.pending[1] == Add(newcomer);
    var st3 := Next(st2, Complete(1, true, now));
    assert st3.rows == st.rows[newcomer := now];
    FourSteps(st, Delete(0, gone), Post(1, newcomer), Complete(1, true, now), Restart(Some(loaded)), st1, st2, st3);
    OneMore(st, newcomer, loaded, now);
  }

  lemma OneMore(st: State, newcomer: string, loaded: seq<string>, now: int)
    requires Settled(st) && Distinct(st.list) && st.pending == map[] && newcomer !in st.list
    requires Restores(loaded, st.rows[newcomer := now])
    ensures |loaded| == |st.list| + 1
  {
    assert forall s :: !InFlight(st, s);
    DistinctCount(loaded);
    DistinctCount(st.list);
    assert Members(loaded) == Members(st.list) + {newcomer};
  }

  lemma RemovedIsShorter(list: seq<string>, station: string)
    requires Distinct(list) && station in list
    ensures |Without(list, station)| == |list| - 1
  {
    WithoutKeepsOthers(list, station);
    DistinctCount(list);
    DistinctCount(Without(list, station));
    assert Members(Without(list, station)) == Members(list) - {station};
  }
}

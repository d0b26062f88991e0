/** What a received frame's via list becomes: the path text, the filtered digipeater path and the
    RF-only flag (map_frame in src/stream.rs). Callsigns are bytes, as in Gate. */
module Frames {
  import opened Types
  import opened Gate
  import opened Dedup
  import opened Aprsis

  datatype Hop = Hop(call: Bytes, heard: bool)

  const EXCLUDED_ADDRS: seq<string> := ["WIDE", "TCPIP", "NOGATE", "RFONLY", "SGATE"]
  const RFONLY_ADDRS: seq<string> := ["TCPIP", "TCPXX", "RFONLY", "NOGATE"]

  predicate NamesAny(call: Bytes, addrs: seq<string>) {
    exists i :: 0 <= i < |addrs| && IsAscii(addrs[i]) && Contains(call, Ascii(addrs[i]))
  }

  /** The callsigns joined with commas. */
  function Path(via: seq<Hop>): Bytes {
    if via == [] then []
    else if |via| == 1 then via[0].call
    else via[0].call + [COMMA] + Path(via[1..])
  }

  /** Of the first n calls, those that are kept. */
  function Filter(calls: seq<Bytes>, n: nat, keep: Bytes -> bool): seq<Bytes>
    requires n <= |calls|
  {
    if n == 0 then []
    else if keep(calls[n - 1]) then Filter(calls, n - 1, keep) + [calls[n - 1]]
    else Filter(calls, n - 1, keep)
  }

  function Calls(via: seq<Hop>): (calls: seq<Bytes>)
    ensures |calls| == |via|
  {
    seq(|via|, i requires 0 <= i < |via| => via[i].call)
  }

  function DigipeaterPath(via: seq<Hop>): seq<Bytes> {
    Filter(Calls(via), |via|, call => !NamesAny(call, EXCLUDED_ADDRS))
  }

  predicate RfOnly(via: seq<Hop>) {
    exists i :: 0 <= i < |via| && NamesAny(via[i].call, RFONLY_ADDRS)
  }

  //--------- the path text --------

  lemma CoveredIsInside(s: Bytes, i: nat, needle: Bytes, at: nat)
    requires i <= |s| && needle <= s[i..]
    ensures i <= at < i + |needle| ==> s[at] in needle
  {
    if i <= at < i + |needle| {
      assert s[i..][at - i] == needle[at - i];
    }
  }

  lemma ContainsSplits(a: Bytes, b: Bytes, needle: Bytes)
    requires needle != [] && COMMA !in needle
    ensures Contains(a + [COMMA] + b, needle) <==> Contains(a, needle) || Contains(b, needle)
  {
    var s := a + [COMMA] + b;
    if i :| 0 <= i <= |s| && needle <= s[i..] {
      CoveredIsInside(s, i, needle, |a|);
      assert s[|a|] == COMMA;
      if i <= |a| {
        assert needle <= a[i..];
      } else {
        assert s[i..] == b[i - |a| - 1..];
      }
    }
    if i :| 0 <= i <= |a| && needle <= a[i..] {
      assert needle <= s[i..];
    }
    if i :| 0 <= i <= |b| && needle <= b[i..] {
      assert s[|a| + 1 + i..] == b[i..];
    }
  }

  /** Joining hides nothing and invents nothing: a comma-free word is in the path text exactly when it is
      in one of the callsigns. */
  lemma {:induction false} PathContainsIff(via: seq<Hop>, needle: Bytes)
    requires needle != [] && COMMA !in needle
    ensures Contains(Path(via), needle) <==> exists i :: 0 <= i < |via| && Contains(via[i].call, needle)
  {
    if |via| <= 1 {
    } else {
      PathContainsIff(via[1..], needle);
      ContainsSplits(via[0].call, Path(via[1..]), needle);
      assert forall i :: 0 <= i < |via| - 1 ==> via[1..][i] == via[i + 1];
      if i :| 0 <= i < |via| && Contains(via[i].call, needle) {
        assert i > 0 ==> via[1..][i - 1] == via[i];
      }
    }
  }

  /** The word stands somewhere in these bytes. */
  ghost predicate Says(s: Bytes, word: string) {
    exists i :: SaysAt(s, i, word)
  }

  ghost predicate SaysAt(s: Bytes, i: int, word: string) {
    0 <= i <= |s| - |word| && forall j :: 0 <= j < |word| ==> s[i + j] == word[j] as int
  }

  ghost predicate NamesMarker(s: Bytes) {
    Says(s, "TCPIP") || Says(s, "TCPXX") || Says(s, "RFONLY") || Says(s, "NOGATE")
  }

  ghost predicate NamesExcluded(s: Bytes) {
    Says(s, "WIDE") || Says(s, "TCPIP") || Says(s, "NOGATE") || Says(s, "RFONLY") || Says(s, "SGATE")
  }

  lemma PrefixSays(s: Bytes, i: nat, word: string)
    requires IsAscii(word) && i <= |s|
    ensures Ascii(word) <= s[i..] <==> SaysAt(s, i, word)
  {
    if SaysAt(s, i, word) {
      assert s[i..][..|word|] == Ascii(word);
    }
    if Ascii(word) <= s[i..] {
      assert forall j :: 0 <= j < |word| ==> s[i..][j] == Ascii(word)[j];
    }
  }

  lemma ContainsSays(s: Bytes, word: string)
    requires IsAscii(word)
    ensures Contains(s, Ascii(word)) <==> Says(s, word)
  {
    forall i | 0 <= i <= |s|
      ensures Ascii(word) <= s[i..] <==> SaysAt(s, i, word)
    {
      PrefixSays(s, i, word);
    }
  }

  lemma NamesAnySays(s: Bytes, addrs: seq<string>)
    requires forall i :: 0 <= i < |addrs| ==> IsAscii(addrs[i])
    ensures NamesAny(s, addrs) <==> exists i :: 0 <= i < |addrs| && Says(s, addrs[i])
  {
    forall i | 0 <= i < |addrs|
      ensures Contains(s, Ascii(addrs[i])) <==> Says(s, addrs[i])
    {
      ContainsSays(s, addrs[i]);
    }
  }

  lemma MarkersNamed(s: Bytes)
    ensures NamesAny(s, RFONLY_ADDRS) <==> NamesMarker(s)
  {
    NamesAnySays(s, RFONLY_ADDRS);
    assert RFONLY_ADDRS[0] == "TCPIP" && RFONLY_ADDRS[1] == "TCPXX";
    assert RFONLY_ADDRS[2] == "RFONLY" && RFONLY_ADDRS[3] == "NOGATE";
  }

  lemma ExcludedNamed(s: Bytes)
    ensures NamesAny(s, EXCLUDED_ADDRS) <==> NamesExcluded(s)
  {
    NamesAnySays(s, EXCLUDED_ADDRS);
    assert EXCLUDED_ADDRS[0] == "WIDE" && EXCLUDED_ADDRS[1] == "TCPIP" && EXCLUDED_ADDRS[2] == "NOGATE";
    assert EXCLUDED_ADDRS[3] == "RFONLY" && EXCLUDED_ADDRS[4] == "SGATE";
  }

  ghost predicate SomeCallSays(via: seq<Hop>, word: string) {
    exists i :: 0 <= i < |via| && Says(via[i].call, word)
  }

  lemma SomeCallNamesMarker(via: seq<Hop>)
    ensures SomeCallSays(via, "TCPIP") || SomeCallSays(via, "TCPXX") || SomeCallSays(via, "RFONLY")
            || SomeCallSays(via, "NOGATE")
       <==> exists i :: 0 <= i < |via| && NamesMarker(via[i].call)
  {
  }

  lemma RfOnlySays(via: seq<Hop>)
    ensures RfOnly(via) <==> exists i :: 0 <= i < |via| && NamesMarker(via[i].call)
  {
    forall i | 0 <= i < |via|
      ensures NamesAny(via[i].call, RFONLY_ADDRS) <==> NamesMarker(via[i].call)
    {
      MarkersNamed(via[i].call);
    }
  }

  ghost predicate IsPathWord(word: string) {
    word != "" && forall j :: 0 <= j < |word| ==> word[j] < 128 as char && word[j] != ','
  }

  lemma MarkersArePathWords()
    ensures IsPathWord("TCPIP") && IsPathWord("TCPXX") && IsPathWord("RFONLY") && IsPathWord("NOGATE")
  {
  }

  lemma PathNamesMarker(via: seq<Hop>)
    ensures NamesMarker(Path(via)) <==>
            SomeCallSays(via, "TCPIP") || SomeCallSays(via, "TCPXX") || SomeCallSays(via, "RFONLY")
            || SomeCallSays(via, "NOGATE")
  {
    MarkersArePathWords();
    PathSays(via, "TCPIP");
    PathSays(via, "TCPXX");
    PathSays(via, "RFONLY");
    PathSays(via, "NOGATE");
  }

  lemma PathSays(via: seq<Hop>, word: string)
    requires IsPathWord(word)
    ensures Says(Path(via), word) <==> SomeCallSays(via, word)
  {
    assert COMMA !in Ascii(word);
    PathContainsIff(via, Ascii(word));
    ContainsSays(Path(via), word);
    forall i | 0 <= i < |via|
      ensures Contains(via[i].call, Ascii(word)) <==> Says(via[i].call, word)
    {
      ContainsSays(via[i].call, word);
    }
  }

  /** A frame is RF-only exactly when one of its callsigns names one of the four markers, and so exactly when
      its path text does. */
  lemma RfOnlyIffPathNames(via: seq<Hop>)
    ensures RfOnly(via) <==> exists i :: 0 <= i < |via| && NamesMarker(via[i].call)
    ensures RfOnly(via) <==> NamesMarker(Path(via))
  {
    RfOnlySays(via);
    SomeCallNamesMarker(via);
    PathNamesMarker(via);
  }

  /** So no packet whose path names one is ever gated, whatever else holds. */
  lemma MarkedPathIsNeverGated(via: seq<Hop>, log: seq<Entry>, gating: bool, p: RtpPacket, callsign: Bytes,
                               age: nat, now: int, writeOk: bool)
    requires p.path == Path(via) && p.rfOnly == RfOnly(via) && NamesMarker(p.path)
    ensures !Decide(log, gating, p, callsign, age, now, writeOk).Gated?
  {
    RfOnlyIffPathNames(via);
    GatedIff(log, gating, p, callsign, age, now, writeOk);
  }

  /** The path text is the callsigns in order, with commas between them. */
  lemma {:induction false} PathJoins(a: seq<Hop>, b: seq<Hop>)
    requires a != [] && b != []
    ensures Path(a + b) == Path(a) + [44] + Path(b)
    ensures |a| == 1 ==> Path(a) == a[0].call
  {
    assert (a + b)[1..] == a[1..] + b;
    if |a| == 1 {
      assert a[1..] + b == b;
    } else {
      PathJoins(a[1..], b);
    }
  }

  ghost predicate Callsigns(via: seq<Hop>) {
    forall i :: 0 <= i < |via| ==> via[i].call != [] && COMMA !in via[i].call
  }

  lemma FirstCall(via: seq<Hop>)
    requires via != [] && Callsigns(via)
    ensures IndexOf(Path(via), COMMA) == |via[0].call|
    ensures |via[0].call| <= |Path(via)| && Path(via)[..|via[0].call|] == via[0].call
    ensures |via| == 1 <==> IndexOf(Path(via), COMMA) == |Path(via)|
    ensures |via| > 1 ==> Path(via)[|via[0].call| + 1..] == Path(via[1..])
  {
    if |via| > 1 {
      IndexOfFirst(via[0].call, COMMA, Path(via[1..]));
    }
  }

  /** The path text determines the callsigns, in order. */
  lemma {:induction false} PathIsInjective(a: seq<Hop>, b: seq<Hop>)
    requires Callsigns(a) && Callsigns(b) && Path(a) == Path(b)
    ensures |a| == |b| && forall i :: 0 <= i < |a| ==> a[i].call == b[i].call
  {
    EmptyPathIff(a);
    EmptyPathIff(b);
    if a != [] && b != [] {
      FirstCall(a);
      FirstCall(b);
      if |a| > 1 {
        PathIsInjective(a[1..], b[1..]);
        assert forall i :: 0 < i < |a| ==> a[i] == a[1..][i - 1] && b[i] == b[1..][i - 1];
      }
    }
  }

  lemma EmptyPathIff(via: seq<Hop>)
    requires Callsigns(via)
    ensures Path(via) == [] <==> via == []
  {
    if via != [] {
      FirstCall(via);
    }
  }

  /** Through the igate line: equal bytes on the wire come from frames with equal via callsigns. */
  lemma WireDeterminesCalls(p: RtpPacket, a: seq<Hop>, q: RtpPacket, b: seq<Hop>, callsign: Bytes)
    requires p.path == Path(a) && q.path == Path(b) && Callsigns(a) && Callsigns(b)
    requires DelimiterFree(p, callsign) && DelimiterFree(q, callsign)
    requires Wire(p, callsign).Some? && Wire(p, callsign) == Wire(q, callsign)
    ensures Calls(a) == Calls(b)
  {
    WireIsInjective(p, q, callsign);
    PathIsInjective(a, b);
  }

  //--------- the digipeater path --------

  /** These are, in order, the positions of the kept ones among the first n calls. */
  ghost predicate Selects(positions: seq<nat>, calls: seq<Bytes>, n: nat, keep: Bytes -> bool)
    requires n <= |calls|
  {
    && (forall i, j :: 0 <= i < j < |positions| ==> positions[i] < positions[j])
    && (forall i :: 0 <= i < |positions| ==> positions[i] < n)
    && (forall k: nat :: k < n ==> (keep(calls[k]) <==> k in positions))
  }

  ghost predicate Picks(result: seq<Bytes>, positions: seq<nat>, calls: seq<Bytes>) {
    && |result| == |positions|
    && forall i :: 0 <= i < |positions| ==> positions[i] < |calls| && result[i] == calls[positions[i]]
  }

  lemma SelectsNext(rest: seq<nat>, calls: seq<Bytes>, n: nat, keep: Bytes -> bool, positions: seq<nat>)
    requires n < |calls| && Selects(rest, calls, n, keep)
    requires positions == if keep(calls[n]) then rest + [n] else rest
    ensures Selects(positions, calls, n + 1, keep)
  {
    assert keep(calls[n]) ==> positions[|rest|] == n;
    assert n !in rest;
    forall k: nat | k < n + 1
      ensures keep(calls[k]) <==> k in positions
    {
      assert k in positions <==> k in rest || (keep(calls[n]) && k == n);
    }
  }

  lemma PicksNext(before: seq<Bytes>, rest: seq<nat>, calls: seq<Bytes>, n: nat, kept: bool,
                  result: seq<Bytes>, positions: seq<nat>)
    requires n < |calls| && Picks(before, rest, calls)
    requires result == if kept then before + [calls[n]] else before
    requires positions == if kept then rest + [n] else rest
    ensures Picks(result, positions, calls)
  {
  }

  ghost function Positions(calls: seq<Bytes>, n: nat, keep: Bytes -> bool): seq<nat>
    requires n <= |calls|
  {
    if n == 0 then []
    else if keep(calls[n - 1]) then Positions(calls, n - 1, keep) + [n - 1]
    else Positions(calls, n - 1, keep)
  }

  lemma {:induction false} PositionsSelect(calls: seq<Bytes>, n: nat, keep: Bytes -> bool)
    requires n <= |calls|
    ensures Selects(Positions(calls, n, keep), calls, n, keep)
  {
    if n == 0 {
    } else {
      PositionsSelect(calls, n - 1, keep);
      SelectsNext(Positions(calls, n - 1, keep), calls, n - 1, keep, Positions(calls, n, keep));
    }
  }

  lemma {:induction false} FilterPicks(calls: seq<Bytes>, n: nat, keep: Bytes -> bool)
    requires n <= |calls|
    ensures Picks(Filter(calls, n, keep), Positions(calls, n, keep), calls)
  {
    if n == 0 {
    } else {
      FilterPicks(calls, n - 1, keep);
      PicksNext(Filter(calls, n - 1, keep), Positions(calls, n - 1, keep), calls, n - 1, keep(calls[n - 1]),
                Filter(calls, n, keep), Positions(calls, n, keep));
    }
  }

  /** The digipeater path lists exactly the callsigns that name none of the five excluded words, in their order. */
  lemma DigipeaterPathSelects(via: seq<Hop>) returns (positions: seq<nat>)
    ensures forall i, j :: 0 <= i < j < |positions| ==> positions[i] < positions[j] < |via|
    ensures forall k: nat :: k < |via| ==> (k in positions <==> !NamesExcluded(via[k].call))
    ensures |DigipeaterPath(via)| == |positions|
    ensures forall i :: 0 <= i < |positions| ==>
              positions[i] < |via| && DigipeaterPath(via)[i] == via[positions[i]].call
  {
    var keep := call => !NamesAny(call, EXCLUDED_ADDRS);
    positions := Positions(Calls(via), |via|, keep);
    PositionsSelect(Calls(via), |via|, keep);
    FilterPicks(Calls(via), |via|, keep);
    forall k: nat | k < |via|
      ensures k in positions <==> !NamesExcluded(via[k].call)
    {
      ExcludedNamed(via[k].call);
      assert keep(Calls(via)[k]) <==> k in positions;
    }
  }
}

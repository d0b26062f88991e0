/** The drop policy (droppacket in src/igate.rs) and the line an igated packet becomes
    (for_rxigate_bytes in src/stream.rs, and the write boundary in src/aprs_is.rs). Text fields are
    the bytes of Rust strings, which is what the source's checks look at. */
module Gate {
  import opened Types

  type Byte = b: int | 0 <= b < 256
  type Bytes = seq<Byte>

  const LF: Byte := 10
  const CR: Byte := 13
  const COMMA: Byte := ',' as int
  const COLON: Byte := ':' as int
  const GREATER: Byte := '>' as int

  predicate IsAscii(s: string) {
    forall i :: 0 <= i < |s| ==> s[i] < 128 as char
  }

  function Ascii(s: string): (r: Bytes)
    requires IsAscii(s)
    ensures |r| == |s|
  {
    seq(|s|, i requires 0 <= i < |s| => s[i] as int)
  }

  /** The fields of a received packet that gating looks at. `info` is the lossy rendering used for
      the checks and the dedup key, `infoBytes` the original payload. */
  datatype RtpPacket = RtpPacket(source: Bytes, destination: Bytes, path: Bytes, info: Bytes,
                                 infoBytes: Bytes, ptype: char, rfOnly: bool, wasDigipeated: bool,
                                 isSatellite: bool, heardDirect: bool, frequencyHz: nat)

  //--------- the drop policy --------

  datatype DropReason = Stale | RfOnly | GenericQuery | ThirdPartyInternet | SatelliteDirect | MalformedField

  predicate IsBreak(b: Byte): (r: bool)
    ensures r <==> b == 10 || b == 13
  {
    b == CR || b == LF
  }

  predicate HasBreak(s: Bytes) {
    exists i :: 0 <= i < |s| && IsBreak(s[i])
  }

  /** trim_end_matches for CR and LF. */
  function TrimEnd(s: Bytes): (r: Bytes)
    ensures r <= s
    ensures r != [] ==> !IsBreak(r[|r| - 1])
    ensures forall i :: |r| <= i < |s| ==> IsBreak(s[i])
  {
    if s != [] && IsBreak(s[|s| - 1]) then TrimEnd(s[..|s| - 1]) else s
  }

  predicate Embedded(s: Bytes) {
    HasBreak(TrimEnd(s))
  }

  /** A CR or LF with something else behind it. */
  ghost predicate BreakInside(s: Bytes) {
    exists i, j :: 0 <= i < j < |s| && IsBreak(s[i]) && !IsBreak(s[j])
  }

  lemma EmbeddedIff(s: Bytes)
    ensures Embedded(s) <==> BreakInside(s)
  {
    var t := TrimEnd(s);
    if i :| 0 <= i < |t| && IsBreak(t[i]) {
      assert i < |t| - 1 && s[i] == t[i] && s[|t| - 1] == t[|t| - 1];
    }
    if i, j :| 0 <= i < j < |s| && IsBreak(s[i]) && !IsBreak(s[j]) {
      assert j < |t| && t[i] == s[i];
    }
  }

  /** Nanoseconds: 30 seconds. */
  const AGE_THRESHOLD := 30_000_000_000

  function Uppercase(s: Bytes): Bytes {
    seq(|s|, i requires 0 <= i < |s| => if 'a' as int <= s[i] <= 'z' as int then s[i] - 32 else s[i])
  }

  predicate Contains(s: Bytes, needle: Bytes) {
    exists i :: 0 <= i <= |s| && needle <= s[i..]
  }

  /** `get(1..)`: nothing when the first character takes more than one byte. */
  function AfterFirst(s: Bytes): Bytes {
    if |s| == 0 || (|s| > 1 && 0x80 <= s[1] < 0xC0) then [] else s[1..]
  }

  const KNOWN_SATS: seq<string> := ["RS0ISS", "NA1SS", "DP0ISS", "OR4ISS", "IR0ISS", "DP0SNX"]

  predicate IsKnownSat(source: Bytes) {
    exists i :: 0 <= i < |KNOWN_SATS| && IsAscii(KNOWN_SATS[i]) && Uppercase(source) == Ascii(KNOWN_SATS[i])
  }

  function DropPacket(p: RtpPacket, age: nat): Option<DropReason> {
    if Embedded(p.source) || Embedded(p.destination) || Embedded(p.path) || Embedded(p.info) then
      Some(MalformedField)
    else if age > AGE_THRESHOLD then Some(Stale)
    else if p.rfOnly then Some(RfOnly)
    else if p.ptype == '?' then Some(GenericQuery)
    else if p.ptype == '}' && (var inner := Uppercase(AfterFirst(p.info));
                               Contains(inner, Ascii("TCPIP")) || Contains(inner, Ascii("TCPXX"))) then
      Some(ThirdPartyInternet)
    else if !p.wasDigipeated && p.isSatellite && !IsKnownSat(p.source) then Some(SatelliteDirect)
    else None
  }

  //--------- what the policy means, on the bytes --------

  /** An ASCII letter in either case, or another character itself. */
  ghost predicate Matches(b: Byte, c: char) {
    b == c as int || ('A' <= c <= 'Z' && b == c as int + 32)
  }

  ghost predicate MentionsAt(s: Bytes, i: int, word: string) {
    0 <= i <= |s| - |word| && forall j :: 0 <= j < |word| ==> Matches(s[i + j], word[j])
  }

  /** A third-party payload names an internet path somewhere behind its first character, which is a single
      byte, in any letter case. */
  ghost predicate CameFromInternet(info: Bytes) {
    && (|info| > 1 ==> !(128 <= info[1] < 192))
    && exists i :: 1 <= i && (MentionsAt(info, i, "TCPIP") || MentionsAt(info, i, "TCPXX"))
  }

  ghost predicate Spells(s: Bytes, word: string) {
    |s| == |word| && MentionsAt(s, 0, word)
  }

  ghost predicate NamesSatellite(source: Bytes) {
    || Spells(source, "RS0ISS") || Spells(source, "NA1SS") || Spells(source, "DP0ISS")
    || Spells(source, "OR4ISS") || Spells(source, "IR0ISS") || Spells(source, "DP0SNX")
  }

  ghost predicate Malformed(p: RtpPacket) {
    BreakInside(p.source) || BreakInside(p.destination) || BreakInside(p.path) || BreakInside(p.info)
  }

  ghost predicate FromInternet(p: RtpPacket) {
    p.ptype == '}' && CameFromInternet(p.info)
  }

  ghost predicate UnrelayedOnSatellite(p: RtpPacket) {
    p.isSatellite && !p.wasDigipeated && !NamesSatellite(p.source)
  }

  /** What the policy demands of a packet, rule by rule. */
  ghost predicate Fit(p: RtpPacket, age: nat) {
    && !Malformed(p) && age <= 30_000_000_000 && !p.rfOnly && p.ptype != '?'
    && !FromInternet(p) && !UnrelayedOnSatellite(p)
  }

  /** Words without lower-case letters, as the policy's are. */
  ghost predicate IsWord(word: string) {
    IsAscii(word) && forall j :: 0 <= j < |word| ==> !('a' <= word[j] <= 'z')
  }

  lemma UppercaseMatches(s: Bytes, i: nat, word: string, j: nat)
    requires IsWord(word) && j < |word| && i < |s|
    ensures Uppercase(s)[i] == Ascii(word)[j] <==> Matches(s[i], word[j])
  {
  }

  lemma PrefixIsMention(s: Bytes, i: nat, word: string)
    requires IsWord(word) && i <= |s|
    ensures Ascii(word) <= Uppercase(s)[i..] <==> MentionsAt(s, i, word)
  {
    if i + |word| <= |s| {
      forall j | 0 <= j < |word|
        ensures Uppercase(s)[i..][j] == Ascii(word)[j] <==> Matches(s[i + j], word[j])
      {
        UppercaseMatches(s, i + j, word, j);
      }
      if MentionsAt(s, i, word) {
        assert Uppercase(s)[i..][..|word|] == Ascii(word);
      }
    }
  }

  lemma ContainsIsMention(s: Bytes, word: string)
    requires IsWord(word)
    ensures Contains(Uppercase(s), Ascii(word)) <==> exists i :: MentionsAt(s, i, word)
  {
    forall i | 0 <= i <= |s|
      ensures Ascii(word) <= Uppercase(s)[i..] <==> MentionsAt(s, i, word)
    {
      PrefixIsMention(s, i, word);
    }
  }

  lemma MentionShifts(s: Bytes, i: int, word: string)
    requires s != [] && i >= 0
    ensures MentionsAt(s[1..], i, word) <==> MentionsAt(s, i + 1, word)
  {
    if i <= |s| - 1 - |word| {
      forall j | 0 <= j < |word|
        ensures Matches(s[1..][i + j], word[j]) <==> Matches(s[(i + 1) + j], word[j])
      {
        assert s[1..][i + j] == s[(i + 1) + j];
      }
    }
  }

  lemma MentionBehindFirst(info: Bytes, word: string)
    requires word != ""
    ensures (exists i :: MentionsAt(AfterFirst(info), i, word))
       <==> (|info| > 1 ==> !(128 <= info[1] < 192)) && exists i :: 1 <= i && MentionsAt(info, i, word)
  {
    var rest := AfterFirst(info);
    if rest == [] {
    } else {
      if i :| MentionsAt(rest, i, word) {
        MentionShifts(info, i, word);
        assert 1 <= i + 1 && MentionsAt(info, i + 1, word);
      }
      if i :| 1 <= i && MentionsAt(info, i, word) {
        MentionShifts(info, i - 1, word);
      }
    }
  }

  lemma InternetIff(info: Bytes)
    ensures var inner := Uppercase(AfterFirst(info));
            Contains(inner, Ascii("TCPIP")) || Contains(inner, Ascii("TCPXX")) <==> CameFromInternet(info)
  {
    ContainsIsMention(AfterFirst(info), "TCPIP");
    ContainsIsMention(AfterFirst(info), "TCPXX");
    MentionBehindFirst(info, "TCPIP");
    MentionBehindFirst(info, "TCPXX");
  }

  lemma SpellsIff(source: Bytes, word: string)
    requires IsWord(word)
    ensures Uppercase(source) == Ascii(word) <==> Spells(source, word)
  {
    if |source| == |word| {
      PrefixIsMention(source, 0, word);
      assert Uppercase(source)[0..] == Uppercase(source);
    }
  }

  lemma SatelliteIff(source: Bytes)
    ensures IsKnownSat(source) <==> NamesSatellite(source)
  {
    forall i | 0 <= i < |KNOWN_SATS|
      ensures IsAscii(KNOWN_SATS[i]) && (Uppercase(source) == Ascii(KNOWN_SATS[i]) <==> Spells(source, KNOWN_SATS[i]))
    {
      assert KNOWN_SATS[i] in ["RS0ISS", "NA1SS", "DP0ISS", "OR4ISS", "IR0ISS", "DP0SNX"];
      SpellsIff(source, KNOWN_SATS[i]);
    }
    assert IsKnownSat(source) <==> exists i :: 0 <= i < |KNOWN_SATS| && Spells(source, KNOWN_SATS[i]);
    SixSatellites(source);
  }

  lemma SixSatellites(source: Bytes)
    ensures (exists i :: 0 <= i < |KNOWN_SATS| && Spells(source, KNOWN_SATS[i])) <==> NamesSatellite(source)
  {
    assert KNOWN_SATS[0] == "RS0ISS" && KNOWN_SATS[1] == "NA1SS" && KNOWN_SATS[2] == "DP0ISS";
    assert KNOWN_SATS[3] == "OR4ISS" && KNOWN_SATS[4] == "IR0ISS" && KNOWN_SATS[5] == "DP0SNX";
  }

  lemma RulesMean(p: RtpPacket)
    ensures Malformed(p) <==> Embedded(p.source) || Embedded(p.destination) || Embedded(p.path) || Embedded(p.info)
    ensures var inner := Uppercase(AfterFirst(p.info));
            FromInternet(p) <==> p.ptype == '}' && (Contains(inner, Ascii("TCPIP")) || Contains(inner, Ascii("TCPXX")))
    ensures UnrelayedOnSatellite(p) <==> !p.wasDigipeated && p.isSatellite && !IsKnownSat(p.source)
  {
    EmbeddedIff(p.source);
    EmbeddedIff(p.destination);
    EmbeddedIff(p.path);
    EmbeddedIff(p.info);
    InternetIff(p.info);
    SatelliteIff(p.source);
  }

  lemma PassesIffFit(p: RtpPacket, age: nat)
    ensures DropPacket(p, age).None? <==> Fit(p, age)
  {
    RulesMean(p);
  }

  /** The reason given is the first rule that the packet breaks. */
  lemma ReasonIsFirstBroken(p: RtpPacket, age: nat)
    ensures var reason, stale := DropPacket(p, age), age > 30_000_000_000;
            && (reason == Some(MalformedField) <==> Malformed(p))
            && (reason == Some(Stale) <==> !Malformed(p) && stale)
            && (reason == Some(RfOnly) <==> !Malformed(p) && !stale && p.rfOnly)
            && (reason == Some(GenericQuery) <==> !Malformed(p) && !stale && !p.rfOnly && p.ptype == '?')
            && (reason == Some(ThirdPartyInternet) <==> !Malformed(p) && !stale && !p.rfOnly && FromInternet(p))
            && (reason == Some(SatelliteDirect) <==>
                  && !Malformed(p) && !stale && !p.rfOnly && p.ptype != '?' && !FromInternet(p)
                  && UnrelayedOnSatellite(p))
  {
    RulesMean(p);
  }

  /** The listener's advance verdict is an upper bound on what is gated later: a packet that passes
      at some age passed at every earlier age, and one that fails later only went stale. */
  lemma AgingOnlyMakesStale(p: RtpPacket, age: nat, age': nat)
    requires age <= age'
    ensures DropPacket(p, age').None? ==> DropPacket(p, age).None?
    ensures DropPacket(p, age) != DropPacket(p, age') ==> DropPacket(p, age') == Some(Stale)
  {
  }

  //--------- the igate line --------

  ghost function Header(p: RtpPacket, callsign: Bytes): Bytes {
    p.source + [GREATER] + p.destination + (if p.path == [] then [] else [COMMA] + p.path)
    + Suffix(callsign) + [COLON]
  }

  function Suffix(callsign: Bytes): Bytes {
    Ascii(",qAO,") + callsign
  }

  ghost function RxLine(p: RtpPacket, callsign: Bytes): Bytes {
    Header(p, callsign) + p.infoBytes
  }

  method ForRxigateBytes(p: RtpPacket, callsign: Bytes) returns (out: Bytes)
    ensures out == RxLine(p, callsign)
    ensures out == p.source + [62] + p.destination + (if p.path == [] then [] else [44] + p.path)
                   + [44, 113, 65, 79, 44] + callsign + [58] + p.infoBytes
  {
    if p.path == [] {
      out := p.source + [GREATER] + p.destination + Ascii(",qAO,") + callsign + [COLON];
    } else {
      out := p.source + [GREATER] + p.destination + [COMMA] + p.path + Ascii(",qAO,") + callsign + [COLON];
    }
    assert out == Header(p, callsign);
    out := out + p.infoBytes;
  }

  /** What the write boundary lets through: the line and its terminator, unless a CR or LF would
      remain inside it. */
  ghost function Wire(p: RtpPacket, callsign: Bytes): Option<Bytes> {
    var line := RxLine(p, callsign);
    if HasBreak(TrimEnd(line)) then None else Some(line + [CR, LF])
  }

  /** Everything written is one line: content without CR or LF, then only CR and LF. */
  lemma WireIsOneLine(p: RtpPacket, callsign: Bytes)
    requires Wire(p, callsign).Some?
    ensures var w, content := Wire(p, callsign).value, TrimEnd(RxLine(p, callsign));
            && content <= w && !HasBreak(content)
            && w == RxLine(p, callsign) + [13, 10]
            && |content| + 2 <= |w|
            && forall i :: |content| <= i < |w| ==> IsBreak(w[i])
  {
  }

  lemma TrimAfter(s: Bytes, t: Bytes)
    requires s != [] && !IsBreak(s[|s| - 1])
    ensures TrimEnd(s + t) == s + TrimEnd(t)
  {
    TrimIsUnique(s + t, s + TrimEnd(t));
  }

  lemma TrimIsUnique(s: Bytes, r: Bytes)
    requires r <= s && (r != [] ==> !IsBreak(r[|r| - 1]))
    requires forall i :: |r| <= i < |s| ==> IsBreak(s[i])
    ensures TrimEnd(s) == r
  {
  }

  lemma HasBreakSplits(s: Bytes, t: Bytes)
    ensures HasBreak(s + t) <==> HasBreak(s) || HasBreak(t)
  {
    if i :| 0 <= i < |s + t| && IsBreak((s + t)[i]) {
      assert if i < |s| then IsBreak(s[i]) else IsBreak(t[i - |s|]);
    }
    if i :| 0 <= i < |s| && IsBreak(s[i]) {
      assert IsBreak((s + t)[i]);
    }
    if i :| 0 <= i < |t| && IsBreak(t[i]) {
      assert IsBreak((s + t)[|s| + i]);
    }
  }

  lemma HeaderBreaks(p: RtpPacket, callsign: Bytes)
    ensures HasBreak(Header(p, callsign)) <==>
            HasBreak(p.source) || HasBreak(p.destination) || HasBreak(p.path) || HasBreak(callsign)
  {
    var via := if p.path == [] then [] else [COMMA] + p.path;
    HasBreakSplits([COMMA], p.path);
    HasBreakSplits(Ascii(",qAO,"), callsign);
    HasBreakSplits(p.source, [GREATER]);
    HasBreakSplits(p.source + [GREATER], p.destination);
    HasBreakSplits(p.source + [GREATER] + p.destination, via);
    HasBreakSplits(p.source + [GREATER] + p.destination + via, Suffix(callsign));
    HasBreakSplits(p.source + [GREATER] + p.destination + via + Suffix(callsign), [COLON]);
  }

  /** Exactly when the boundary refuses a line. */
  lemma WireRefusedIff(p: RtpPacket, callsign: Bytes)
    ensures Wire(p, callsign).None? <==>
            || HasBreak(p.source) || HasBreak(p.destination) || HasBreak(p.path) || HasBreak(callsign)
            || Embedded(p.infoBytes)
  {
    TrimAfter(Header(p, callsign), p.infoBytes);
    HasBreakSplits(Header(p, callsign), TrimEnd(p.infoBytes));
    HeaderBreaks(p, callsign);
  }

  /** The boundary is not redundant: the policy tolerates a trailing CR or LF in an address field,
      which ends up inside the line. */
  lemma PolicyAloneIsNotEnough(p: RtpPacket, callsign: Bytes)
    requires p.source == Ascii("N0CALL") + [CR] && p.destination == Ascii("APRS") && p.path == [] && p.info == []
    requires !p.rfOnly && p.ptype != '?' && p.ptype != '}' && !p.isSatellite
    ensures DropPacket(p, 0).None? && Wire(p, callsign).None?
  {
    TrimIsUnique(p.source, Ascii("N0CALL"));
    TrimIsUnique(p.destination, p.destination);
    assert !Embedded(p.source) && !Embedded(p.destination);
    assert IsBreak(p.source[6]);
    WireRefusedIff(p, callsign);
  }

  //--------- reading the line back --------

  function IndexOf(s: Bytes, b: Byte): (r: nat)
    ensures r <= |s| && (r < |s| ==> s[r] == b)
    ensures forall j :: 0 <= j < r ==> s[j] != b
  {
    if s == [] || s[0] == b then 0 else 1 + IndexOf(s[1..], b)
  }

  lemma IndexOfFirst(s: Bytes, b: Byte, t: Bytes)
    requires b !in s
    ensures IndexOf(s + [b] + t, b) == |s|
    ensures (s + [b] + t)[..|s|] == s && (s + [b] + t)[|s|..] == [b] + t && (s + [b] + t)[|s| + 1..] == t
  {
    var line := s + [b] + t;
    assert line[|s|] == b;
    assert forall j :: 0 <= j < |s| ==> line[j] == s[j];
  }

  datatype Parsed = Parsed(source: Bytes, destination: Bytes, path: Bytes, info: Bytes)

  /** Splits `destination[,path],qAO,callsign`. */
  function ReadHead(head: Bytes, callsign: Bytes): Option<(Bytes, Bytes)> {
    var k := IndexOf(head, COMMA);
    match ReadTail(head[k..], Suffix(callsign))
    case None => None
    case Some(path) => Some((head[..k], path))
  }

  /** What stands between the first comma and the suffix. */
  function ReadTail(tail: Bytes, suffix: Bytes): Option<Bytes> {
    var n := |tail| - |suffix|;
    if n < 0 || tail[n..] != suffix then None else Some(if n == 0 then [] else tail[1..n])
  }

  /** A receiver that knows the igate's callsign reads the line back. */
  function ReadLine(line: Bytes, callsign: Bytes): Option<Parsed> {
    var i := IndexOf(line, GREATER);
    if i == |line| then None
    else
      var rest := line[i + 1..];
      var j := IndexOf(rest, COLON);
      if j == |rest| then None
      else
        match ReadHead(rest[..j], callsign)
        case None => None
        case Some((destination, path)) => Some(Parsed(line[..i], destination, path, rest[j + 1..]))
  }

  /** Addresses that cannot be confused with the delimiters around them. */
  ghost predicate DelimiterFree(p: RtpPacket, callsign: Bytes) {
    && GREATER !in p.source
    && COMMA !in p.destination && COLON !in p.destination
    && COLON !in p.path && COLON !in callsign
  }

  ghost function Head(p: RtpPacket, callsign: Bytes): Bytes {
    p.destination + ((if p.path == [] then [] else [COMMA] + p.path) + Suffix(callsign))
  }

  lemma TailRoundTrip(path: Bytes, suffix: Bytes)
    requires suffix != [] && suffix[0] == COMMA
    ensures var tail := (if path == [] then [] else [COMMA] + path) + suffix;
            tail[0] == COMMA && ReadTail(tail, suffix) == Some(path)
  {
  }

  lemma ReadHeadAt(destination: Bytes, tail: Bytes, callsign: Bytes)
    requires COMMA !in destination && tail != [] && tail[0] == COMMA
    ensures ReadHead(destination + tail, callsign)
         == match ReadTail(tail, Suffix(callsign)) case None => None case Some(path) => Some((destination, path))
  {
    assert destination + tail == destination + [COMMA] + tail[1..];
    IndexOfFirst(destination, COMMA, tail[1..]);
    assert [COMMA] + tail[1..] == tail;
  }

  lemma HeadRoundTrip(p: RtpPacket, callsign: Bytes)
    requires DelimiterFree(p, callsign)
    ensures ReadHead(Head(p, callsign), callsign) == Some((p.destination, p.path))
  {
    TailRoundTrip(p.path, Suffix(callsign));
    ReadHeadAt(p.destination, (if p.path == [] then [] else [COMMA] + p.path) + Suffix(callsign), callsign);
  }

  lemma HeadHasNoColon(p: RtpPacket, callsign: Bytes)
    requires DelimiterFree(p, callsign)
    ensures COLON !in Head(p, callsign)
  {
  }

  lemma LineShape(p: RtpPacket, callsign: Bytes)
    ensures RxLine(p, callsign) == p.source + [GREATER] + (Head(p, callsign) + [COLON] + p.infoBytes)
  {
  }

  /** The bytes determine source, destination, path and the original payload, with or without a
      path and whatever the payload holds. */
  lemma LineRoundTrip(p: RtpPacket, callsign: Bytes)
    requires DelimiterFree(p, callsign)
    ensures ReadLine(RxLine(p, callsign), callsign)
         == Some(Parsed(p.source, p.destination, p.path, p.infoBytes))
  {
    var head := Head(p, callsign);
    LineShape(p, callsign);
    HeadHasNoColon(p, callsign);
    HeadRoundTrip(p, callsign);
    ReadBack(p.source, head, p.infoBytes, callsign);
  }

  lemma ReadBack(source: Bytes, head: Bytes, info: Bytes, callsign: Bytes)
    requires GREATER !in source && COLON !in head
    ensures ReadLine(source + [GREATER] + (head + [COLON] + info), callsign)
         == match ReadHead(head, callsign)
            case None => None
            case Some((destination, path)) => Some(Parsed(source, destination, path, info))
  {
    IndexOfFirst(source, GREATER, head + [COLON] + info);
    IndexOfFirst(head, COLON, info);
  }

  /** Two packets that put the same bytes on the wire agree on everything a receiver can read. */
  lemma WireIsInjective(p: RtpPacket, q: RtpPacket, callsign: Bytes)
    requires DelimiterFree(p, callsign) && DelimiterFree(q, callsign)
    requires Wire(p, callsign).Some? && Wire(p, callsign) == Wire(q, callsign)
    ensures p.source == q.source && p.destination == q.destination && p.path == q.path && p.infoBytes == q.infoBytes
  {
    var w := Wire(p, callsign).value;
    assert w[..|w| - 2] == RxLine(p, callsign) && w[..|w| - 2] == RxLine(q, callsign);
    LineRoundTrip(p, callsign);
    LineRoundTrip(q, callsign);
  }

  //--------- the stream of lines --------

  /** What the igate writes once it is logged in: gated packets, and beacons and reports of its own. */
  datatype Line = Igated(p: RtpPacket) | Own(info: Bytes)

  lemma TocallIsAscii()
    ensures IsAscii(TOCALL + ",TCPIP*")
  {
  }

  function OwnHead(): Bytes {
    TocallIsAscii();
    Ascii(TOCALL + ",TCPIP*")
  }

  ghost function OwnText(info: Bytes, callsign: Bytes): Bytes {
    callsign + [GREATER] + (OwnHead() + [COLON] + info)
  }

  ghost function Text(l: Line, callsign: Bytes): Bytes {
    match l
    case Igated(p) => RxLine(p, callsign)
    case Own(info) => OwnText(info, callsign)
  }

  /** A gated packet that passes the boundary; an own text without breaks. Both with addresses that
      cannot be confused with the delimiters around them. */
  ghost predicate Sendable(l: Line, callsign: Bytes) {
    && GREATER !in callsign && COLON !in callsign && !HasBreak(callsign)
    && match l
       case Igated(p) => Wire(p, callsign).Some? && DelimiterFree(p, callsign)
       case Own(info) => !HasBreak(info)
  }

  ghost predicate AllSendable(ls: seq<Line>, callsign: Bytes) {
    forall i :: 0 <= i < |ls| ==> Sendable(ls[i], callsign)
  }

  /** The bytes of the lines written on one connection. */
  ghost function Written(ls: seq<Line>, callsign: Bytes): Bytes {
    if ls == [] then [] else (Text(ls[0], callsign) + [CR, LF]) + Written(ls[1..], callsign)
  }

  /** A nonempty content without breaks, then breaks. */
  ghost predicate IsLine(w: Bytes, n: int) {
    && 0 < n < |w|
    && (forall i :: 0 <= i < n ==> !IsBreak(w[i]))
    && (forall i :: n <= i < |w| ==> IsBreak(w[i]))
  }

  lemma GatedIsLine(p: RtpPacket, callsign: Bytes) returns (n: int)
    requires Wire(p, callsign).Some?
    ensures IsLine(RxLine(p, callsign) + [CR, LF], n)
  {
    TrimAfter(Header(p, callsign), p.infoBytes);
    var content := TrimEnd(RxLine(p, callsign));
    WireIsOneLine(p, callsign);
    n := |content|;
    assert forall i :: 0 <= i < n ==> Wire(p, callsign).value[i] == content[i];
  }

  lemma OwnIsLine(info: Bytes, callsign: Bytes)
    requires !HasBreak(callsign) && !HasBreak(info)
    ensures IsLine(OwnText(info, callsign) + [CR, LF], |OwnText(info, callsign)|)
  {
    var text := OwnText(info, callsign);
    assert !HasBreak(OwnHead());
    HasBreakSplits(OwnHead(), [COLON]);
    HasBreakSplits(OwnHead() + [COLON], info);
    HasBreakSplits(callsign, [GREATER]);
    HasBreakSplits(callsign + [GREATER], OwnHead() + [COLON] + info);
    assert forall i :: 0 <= i < |text| ==> !IsBreak(text[i]);
  }

  lemma TextIsLine(l: Line, callsign: Bytes) returns (n: int)
    requires Sendable(l, callsign)
    ensures IsLine(Text(l, callsign) + [CR, LF], n)
  {
    match l
    case Igated(p) => n := GatedIsLine(p, callsign);
    case Own(info) =>
      OwnIsLine(info, callsign);
      n := |OwnText(info, callsign)|;
  }

  ghost predicate StartsFresh(rest: Bytes) {
    rest == [] || !IsBreak(rest[0])
  }

  lemma NextByte(w: Bytes, rest: Bytes, w': Bytes)
    requires w' <= w + rest
    ensures |w| < |w'| ==> rest != [] && w'[|w|] == rest[0]
    ensures forall i :: 0 <= i < |w| && i < |w'| ==> w'[i] == w[i]
  {
    var s := w + rest;
    assert forall i :: 0 <= i < |w'| ==> w'[i] == s[i];
  }

  /** Contents that agree on a common prefix end at the same place, and so do their breaks. */
  lemma LinesAlign(w: Bytes, n: int, rest: Bytes, w': Bytes, n': int, rest': Bytes)
    requires IsLine(w, n) && StartsFresh(rest) && IsLine(w', n') && StartsFresh(rest')
    requires w <= w' + rest' && w' <= w + rest
    ensures |w| == |w'|
  {
    NextByte(w, rest, w');
    NextByte(w', rest', w);
    assert IsBreak(w[|w| - 1]) && IsBreak(w'[|w'| - 1]);
  }

  /** Where the first line of a stream ends does not depend on how it was made. */
  lemma FirstLineIsUnique(w: Bytes, n: int, rest: Bytes, w': Bytes, n': int, rest': Bytes)
    requires IsLine(w, n) && StartsFresh(rest) && IsLine(w', n') && StartsFresh(rest')
    requires w + rest == w' + rest'
    ensures w == w' && rest == rest'
  {
    LinesAlign(w, n, rest, w', n', rest');
    var s := w + rest;
    assert w == s[..|w|] && rest == s[|w|..] && w' == s[..|w|] && rest' == s[|w|..];
  }

  lemma WrittenStartsFresh(ls: seq<Line>, callsign: Bytes)
    requires AllSendable(ls, callsign)
    ensures StartsFresh(Written(ls, callsign)) && (ls == [] <==> Written(ls, callsign) == [])
  {
    if ls != [] {
      var n := TextIsLine(ls[0], callsign);
    }
  }

  lemma WrittenSplits(ls: seq<Line>, callsign: Bytes)
    requires ls != [] && AllSendable(ls, callsign)
    ensures Sendable(ls[0], callsign) && AllSendable(ls[1..], callsign)
    ensures Written(ls, callsign) == (Text(ls[0], callsign) + [CR, LF]) + Written(ls[1..], callsign)
    ensures StartsFresh(Written(ls[1..], callsign))
  {
    WrittenStartsFresh(ls[1..], callsign);
  }

  /** Source and head of a line, up to its first colon, are the same however it was made. */
  lemma HeadsAgree(source: Bytes, head: Bytes, info: Bytes, source': Bytes, head': Bytes, info': Bytes)
    requires GREATER !in source && COLON !in head && GREATER !in source' && COLON !in head'
    requires source + [GREATER] + (head + [COLON] + info) == source' + [GREATER] + (head' + [COLON] + info')
    ensures head == head' && info == info'
  {
    IndexOfFirst(source, GREATER, head + [COLON] + info);
    IndexOfFirst(source', GREATER, head' + [COLON] + info');
    assert head + [COLON] + info == head' + [COLON] + info';
    IndexOfFirst(head, COLON, info);
    IndexOfFirst(head', COLON, info');
  }

  const SMALL_Q: Byte := 'q' as int

  lemma OwnHeadShape()
    ensures OwnHead() == [65, 80, 90, 74, 68, 49, 44, 84, 67, 80, 73, 80, 42]
    ensures COLON !in OwnHead() && SMALL_Q !in OwnHead()
  {
  }

  /** An own line comes from the callsign and goes to APZJD1,TCPIP*. */
  lemma OwnLineReads(info: Bytes, callsign: Bytes)
    ensures OwnText(info, callsign)
         == callsign + [62] + [65, 80, 90, 74, 68, 49, 44, 84, 67, 80, 73, 80, 42] + [58] + info
  {
    OwnHeadShape();
  }

  lemma GatedHeadHasQ(p: RtpPacket, callsign: Bytes)
    ensures SMALL_Q in Head(p, callsign)
  {
    var via := if p.path == [] then [] else [COMMA] + p.path;
    assert Suffix(callsign)[1] == SMALL_Q;
    assert Head(p, callsign)[|p.destination| + |via| + 1] == SMALL_Q;
  }

  /** No line of the igate's own reads like a gated one. */
  lemma GatedIsNotOwn(p: RtpPacket, info: Bytes, callsign: Bytes)
    requires DelimiterFree(p, callsign) && GREATER !in callsign
    ensures RxLine(p, callsign) != OwnText(info, callsign)
  {
    LineShape(p, callsign);
    HeadHasNoColon(p, callsign);
    OwnHeadShape();
    GatedHeadHasQ(p, callsign);
    if RxLine(p, callsign) == OwnText(info, callsign) {
      HeadsAgree(p.source, Head(p, callsign), p.infoBytes, callsign, OwnHead(), info);
    }
  }

  /** The same kind of line, with the same content in everything a receiver can read. */
  ghost predicate SameLine(l: Line, l': Line) {
    match (l, l')
    case (Igated(p), Igated(q)) =>
      p.source == q.source && p.destination == q.destination && p.path == q.path && p.infoBytes == q.infoBytes
    case (Own(info), Own(info')) => info == info'
    case _ => false
  }

  lemma TextIsInjective(l: Line, l': Line, callsign: Bytes)
    requires Sendable(l, callsign) && Sendable(l', callsign) && Text(l, callsign) == Text(l', callsign)
    ensures SameLine(l, l')
  {
    match (l, l')
    case (Igated(p), Igated(q)) => WireIsInjective(p, q, callsign);
    case (Own(info), Own(info')) =>
      OwnHeadShape();
      HeadsAgree(callsign, OwnHead(), info, callsign, OwnHead(), info');
    case (Igated(p), Own(info)) => GatedIsNotOwn(p, info, callsign);
    case (Own(info), Igated(p)) => GatedIsNotOwn(p, info, callsign);
  }

  lemma FirstLineAgrees(l: Line, rest: Bytes, l': Line, rest': Bytes, callsign: Bytes)
    requires Sendable(l, callsign) && StartsFresh(rest) && Sendable(l', callsign) && StartsFresh(rest')
    requires (Text(l, callsign) + [CR, LF]) + rest == (Text(l', callsign) + [CR, LF]) + rest'
    ensures SameLine(l, l') && rest == rest'
  {
    var w, w' := Text(l, callsign) + [CR, LF], Text(l', callsign) + [CR, LF];
    var n := TextIsLine(l, callsign);
    var n' := TextIsLine(l', callsign);
    FirstLineIsUnique(w, n, rest, w', n', rest');
    assert Text(l, callsign) == w[..|w| - 2] && Text(l', callsign) == w'[..|w'| - 2];
    TextIsInjective(l, l', callsign);
  }

  /** The bytes of a whole run of lines, gated ones and the igate's own in any order, determine the lines,
      however the payloads end. */
  lemma {:induction false} StreamIsInjective(ls: seq<Line>, ls': seq<Line>, callsign: Bytes)
    requires AllSendable(ls, callsign) && AllSendable(ls', callsign)
    requires Written(ls, callsign) == Written(ls', callsign)
    ensures AllSame(ls, ls')
  {
    WrittenStartsFresh(ls, callsign);
    WrittenStartsFresh(ls', callsign);
    if ls == [] {
    } else {
      WrittenSplits(ls, callsign);
      WrittenSplits(ls', callsign);
      FirstLineAgrees(ls[0], Written(ls[1..], callsign), ls'[0], Written(ls'[1..], callsign), callsign);
      StreamIsInjective(ls[1..], ls'[1..], callsign);
      SameCons(ls, ls');
    }
  }

  ghost predicate AllSame(ls: seq<Line>, ls': seq<Line>) {
    |ls| == |ls'| && forall i :: 0 <= i < |ls| ==> SameLine(ls[i], ls'[i])
  }

  lemma SameCons(ls: seq<Line>, ls': seq<Line>)
    requires ls != [] && ls' != [] && SameLine(ls[0], ls'[0]) && AllSame(ls[1..], ls'[1..])
    ensures AllSame(ls, ls')
  {
    assert forall i :: 0 < i < |ls| ==> ls[i] == ls[1..][i - 1] && ls'[i] == ls'[1..][i - 1];
  }

  /** The key under which a gated packet is remembered. */
  function DedupKey(p: RtpPacket): Bytes {
    p.source + [COLON] + p.info
  }

  /** For colon-free callsigns the key stands for source and rendered payload, nothing more. */
  lemma DedupKeyIsFaithful(p: RtpPacket, q: RtpPacket)
    requires COLON !in p.source && COLON !in q.source
    ensures DedupKey(p) == DedupKey(q) <==> p.source == q.source && p.info == q.info
  {
    IndexOfFirst(p.source, COLON, p.info);
    IndexOfFirst(q.source, COLON, q.info);
    if DedupKey(p) == DedupKey(q) {
      assert DedupKey(p)[..|p.source|] == p.source && DedupKey(q)[..|q.source|] == q.source;
      assert DedupKey(p)[|p.source| + 1..] == p.info && DedupKey(q)[|q.source| + 1..] == q.info;
    }
  }
}

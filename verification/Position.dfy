/** Position beacons: the printer (positpacket, base91_dao_char in src/igate.rs), the browser's
    parser (parseDDMM, parsePosition in frontend/assets/app.js), and a reader of the APRS 1.2 !DAO!
    extension. Formats: APRS Protocol Reference 1.0.1, chapters 6 and 8. Floating point is read as
    exact arithmetic, with the source's epsilons. */
module Position {
  import opened Types
  import opened Numerals

  datatype DaoMode = Off | Human | Base91

  datatype Location = Location(lat: Option<real>, lon: Option<real>, alt: Option<real>)

  datatype Clock = Clock(hours: nat, minutes: nat, seconds: nat)

  datatype BeaconError = InvalidLocation | MissingLocation

  const EPSILON := 0.000001

  //--------- the printer --------

  /** Whole degrees, hundredths of a minute, and what is left beyond them in minutes. */
  datatype Axis = Axis(deg: nat, hund: nat, rem: real)

  function Abs(x: real): real {
    if x < 0.0 then -x else x
  }

  function MinutesPast(abs: real): real {
    (abs - abs.Floor as real) * 60.0
  }

  function SplitAxis(abs: real): Axis
    requires abs >= 0.0
  {
    var m := MinutesPast(abs);
    var hund := (m * 100.0 + EPSILON).Floor;
    var rem := m - hund as real / 100.0;
    Axis(abs.Floor, hund, if rem < 0.0 then 0.0 else rem)
  }

  function DegMin(a: Axis, w: nat): string {
    Pad(a.deg, w) + (Pad(a.hund / 100, 2) + ("." + Pad(a.hund % 100, 2)))
  }

  function DaoDigit(rem: real): int {
    var d := (rem * 1000.0 + EPSILON).Floor;
    if d > 9 then 9 else d
  }

  function DaoCode(rem: real): int {
    var v := (rem / 0.01 * 91.0).Floor;
    if v < 0 then 0 else if v > 90 then 90 else v
  }

  function DaoToken(mode: DaoMode, lat: Axis, lon: Axis): string
    requires lat.rem >= 0.0 && lon.rem >= 0.0
  {
    match mode
    case Off => ""
    case Human => "!W" + [Digit(DaoDigit(lat.rem)), Digit(DaoDigit(lon.rem))] + "!"
    case Base91 => "!w" + [(33 + DaoCode(lat.rem)) as char, (33 + DaoCode(lon.rem)) as char] + "!"
  }

  function OverlayText(symbol: Option<string>, overlay: Option<string>): string {
    match overlay
    case Some(o) => o
    case None =>
      match symbol
      case Some(s) => if s == "" then "/" else [s[0]]
      case None => "/"
  }

  function SymbolText(symbol: Option<string>): (s: string)
    ensures |s| == 1
  {
    match symbol
    case Some(s) => if |s| > 1 then [s[1]] else "0"
    case None => "0"
  }

  /** {:06.0}: to the nearest integer, halves to even. */
  function RoundHalfEven(x: real): nat
    requires x >= 0.0
  {
    var f := x.Floor;
    if x - f as real < 0.5 || (x - f as real == 0.5 && f % 2 == 0) then f else f + 1
  }

  function Timestamp(c: Clock): string {
    "/" + Pad(c.hours, 2) + Pad(c.minutes, 2) + Pad(c.seconds, 2) + "h"
  }

  function InfoText(lat: real, lon: real, alt: real, name: string, symbol: Option<string>,
                    overlay: Option<string>, dao: DaoMode, c: Clock): string
    requires alt > 0.0
  {
    var la, lo := SplitAxis(Abs(lat)), SplitAxis(Abs(lon));
    Timestamp(c)
    + (DegMin(la, 2) + [if lat >= 0.0 then 'N' else 'S'])
    + OverlayText(symbol, overlay)
    + (DegMin(lo, 3) + [if lon >= 0.0 then 'E' else 'W'])
    + (SymbolText(symbol) + "/A=" + Pad(RoundHalfEven(alt), 6) + name + DaoToken(dao, la, lo))
  }

  function PositPacket(l: Location, callsign: string, name: string, symbol: Option<string>,
                       overlay: Option<string>, dao: DaoMode, c: Clock): Result<string, BeaconError> {
    match (l.alt, l.lat, l.lon)
    case (Some(alt), Some(lat), Some(lon)) =>
      if alt <= 0.0 || lat == 0.0 || lon == 0.0 then Failure(InvalidLocation)
      else Success(callsign + ">" + TOCALL + ",TCPIP*:" + InfoText(lat, lon, alt, name, symbol, overlay, dao, c))
    case _ => Failure(MissingLocation)
  }

  //--------- the browser's parser --------

  datatype Fix = Fix(lat: real, lon: real)

  /** indexOf for one character; -1 if absent. */
  function IndexOf(s: string, c: char): (r: int)
    ensures -1 <= r < |s|
    ensures 0 <= r ==> s[r] == c && forall j :: 0 <= j < r ==> s[j] != c
    ensures r < 0 ==> c !in s
  {
    if s == "" then -1
    else if s[0] == c then 0
    else
      var r := IndexOf(s[1..], c);
      if r < 0 then -1 else r + 1
  }

  /** substring(from): clamped to the end. */
  function From(s: string, from: nat): string {
    if from <= |s| then s[from..] else ""
  }

  /** South and west are negative. */
  function Towards(dir: char, x: real): real {
    if dir == 'S' || dir == 'W' then -x else x
  }

  function ParseDDMM(ddmm: string, dir: char): Option<real> {
    if |ddmm| < 4 then None
    else
      var dot := IndexOf(ddmm, '.');
      if dot < 2 then None
      else
        match (ParseFloat(ddmm[..dot - 2]), ParseFloat(ddmm[dot - 2..]))
        case (Some(deg), Some(min)) =>
          var result := deg + min / 60.0;
          Some(Towards(dir, result))
        case _ => None
  }

  /** An axis is read exactly if its first point has at least three characters before it, and a digit stands first
      and two places before the point. */
  lemma ParsesDdmmIff(ddmm: string, dir: char)
    ensures ParseDDMM(ddmm, dir).Some? <==>
            exists dot :: 3 <= dot < |ddmm| && ddmm[dot] == '.' && '.' !in ddmm[..dot]
                          && IsDigit(ddmm[0]) && IsDigit(ddmm[dot - 2])
  {
    var dot := IndexOf(ddmm, '.');
    if dot >= 2 {
      ParsesIff(ddmm[..dot - 2]);
      ParsesIff(ddmm[dot - 2..]);
      assert ddmm[dot] == '.' && '.' !in ddmm[..dot];
    }
    forall d | 3 <= d < |ddmm| && ddmm[d] == '.' && '.' !in ddmm[..d]
      ensures d == dot
    {
      MarkerIsFirst(ddmm, '.', d);
    }
  }

  function Base91At(s: string, i: nat): int
    requires i < |s|
  {
    s[i] as int - 33
  }

  function ParseCompressed(s: string): Option<Fix> {
    if |s| < 12 then None
    else if exists i :: 1 <= i <= 8 && Base91At(s, i) < 0 then None
    else
      var y := Base91At(s, 1) * 753571 + Base91At(s, 2) * 8281 + Base91At(s, 3) * 91 + Base91At(s, 4);
      var x := Base91At(s, 5) * 753571 + Base91At(s, 6) * 8281 + Base91At(s, 7) * 91 + Base91At(s, 8);
      Some(Fix(90.0 - y as real / 380926.0, -180.0 + x as real / 190463.0))
  }

  function ParseUncompressed(s: string): Option<Fix> {
    if |s| < 18 then None
    else
      match (ParseDDMM(s[..7], s[7]), ParseDDMM(s[9..17], s[17]))
      case (Some(lat), Some(lon)) => Some(Fix(lat, lon))
      case _ => None
  }

  /** Where an object's name ends: the live marker, or the dead one if there is no live one. */
  function ObjectMarker(info: string): (r: int)
    ensures -1 <= r < |info|
  {
    if IndexOf(info, '*') < 0 then IndexOf(info, '_') else IndexOf(info, '*')
  }

  /** An object's position stands behind its marker and seven characters of time. */
  function ParseObject(info: string): Option<Fix> {
    var star := ObjectMarker(info);
    if star >= 0 then ParseUncompressed(From(info, star + 8)) else None
  }

  function ParseReport(s: string): Option<Fix> {
    if s != "" && IsDigit(s[0]) then ParseUncompressed(s) else ParseCompressed(s)
  }

  function ParsePosition(info: string): Option<Fix> {
    if |info| < 2 then None
    else if info[0] == '!' || info[0] == '=' then ParseReport(From(info, 1))
    else if info[0] == '/' || info[0] == '@' then ParseReport(From(info, 8))
    else if info[0] == ';' then ParseObject(info)
    else None
  }

  /** What the frame's reader hands to the parser: everything after the first colon. */
  function InfoField(packet: string): string {
    packet[IndexOf(packet, ':') + 1..]
  }

  //--------- numbers --------

  /** The minutes that the printed hundredths stand for. */
  function PrintedMinutes(a: Axis): real {
    60.0 * a.deg as real + a.hund as real / 100.0
  }

  /** Printed minutes are below the true ones by less than a hundredth, and above by at most the
      epsilon's share. */
  lemma SplitBounds(abs: real)
    requires abs >= 0.0
    ensures var a, m := SplitAxis(abs), 60.0 * abs;
            && a.hund <= 6000
            && m - 0.01 < PrintedMinutes(a) <= m + 0.00000001
            && 0.0 <= a.rem < 0.01
  {
  }

  /** The minutes field shows 60.00 exactly within 1e-8 minute of the next degree. */
  lemma MinutesOverflowIff(abs: real)
    requires abs >= 0.0
    ensures SplitAxis(abs).hund == 6000 <==> MinutesPast(abs) >= 60.0 - 0.00000001
  {
  }

  /** The clamps of both DAO encodings never engage. */
  lemma ClampsNeverEngage(abs: real)
    requires abs >= 0.0
    ensures var rem := SplitAxis(abs).rem;
            && 0 <= (rem * 1000.0 + EPSILON).Floor <= 9
            && 0 <= (rem / 0.01 * 91.0).Floor <= 90
  {
  }

  /** Minutes added by a DAO digit, and by a base-91 DAO character (APRS 1.2). */
  function HumanMinutes(d: int): real {
    d as real / 1000.0
  }

  function Base91Minutes(v: int): real {
    v as real / 91.0 * 0.01
  }

  lemma DaoBounds(abs: real)
    requires abs >= 0.0
    ensures var a, m := SplitAxis(abs), 60.0 * abs;
            && m - 0.001 < PrintedMinutes(a) + HumanMinutes(DaoDigit(a.rem)) <= m + 0.00000001
            && m - 0.01 / 91.0 < PrintedMinutes(a) + Base91Minutes(DaoCode(a.rem)) <= m + 0.00000001
  {
  }

  //--------- round trip --------

  /** The degrees that the printed text of an axis stands for. */
  function PrintedDegrees(a: Axis): real {
    PrintedMinutes(a) / 60.0
  }

  lemma DegreesAndMinutes(a: Axis)
    ensures PrintedDegrees(a) == a.deg as real + a.hund as real / 100.0 / 60.0
  {
  }

  lemma DegMinShape(a: Axis, w: nat)
    requires (w == 2 && a.deg < 100) || (w == 3 && a.deg < 1000)
    requires a.hund < 10000
    ensures |DegMin(a, w)| == w + 5 && IsDigit(DegMin(a, w)[0])
  {
    PadWidth(a.deg, w);
    PadWidth(a.hund / 100, 2);
    PadWidth(a.hund % 100, 2);
    assert DegMin(a, w)[0] == Pad(a.deg, w)[0];
  }

  /** Splitting at the dot: the last two digits before it and everything after are the minutes. */
  lemma ParsesAs(d: string, mm: string, rest: string, text: string, deg: real, min: real, dir: char, v: real)
    requires v == deg + min / 60.0
    requires AllDigits(d) && AllDigits(mm) && |d| >= 2 && |mm| == 2
    requires text == d + (mm + ("." + rest))
    requires ParseFloat(d) == Some(deg) && ParseFloat(mm + ("." + rest)) == Some(min)
    ensures ParseDDMM(text, dir) == Some(Towards(dir, v))
  {
    TextSplits(d, mm, rest, text);
  }

  lemma TextSplits(d: string, mm: string, rest: string, text: string)
    requires AllDigits(d) && AllDigits(mm) && |d| >= 2 && |mm| == 2
    requires text == d + (mm + ("." + rest))
    ensures |text| >= 4 && IndexOf(text, '.') == |d| + 2
    ensures text[..|d|] == d && text[|d|..] == mm + ("." + rest)
  {
    DotAfterMinutes(d, mm, rest);
  }

  lemma DegreesParse(deg: nat, w: nat, d: string, degrees: real)
    requires (w == 2 && deg < 100) || (w == 3 && deg < 1000)
    requires d == Pad(deg, w) && degrees == deg as real
    ensures AllDigits(d) && |d| == w && ParseFloat(d) == Some(degrees)
  {
    PadWidth(deg, w);
    PadReads(deg, w);
    ParseInteger(d);
  }

  lemma MinutesParse(hund: nat, mm: string, hh: string, min: real)
    requires hund < 10000 && mm == Pad(hund / 100, 2) && hh == Pad(hund % 100, 2) && min == hund as real / 100.0
    ensures AllDigits(mm) && |mm| == 2 && ParseFloat(mm + ("." + hh)) == Some(min)
  {
    PadWidth(hund / 100, 2);
    ParseHundredths(mm, hh);
    MinutesValue(hund);
  }

  lemma DotAfterMinutes(d: string, mm: string, hh: string)
    requires AllDigits(d) && AllDigits(mm) && |mm| == 2
    ensures IndexOf(d + (mm + ("." + hh)), '.') == |d| + 2
  {
    DigitsJoin(d, mm);
    JoinLeft(d, mm, "." + hh);
    DotAfterDigits(d + mm, "." + hh);
  }

  lemma JoinLeft(a: string, b: string, c: string)
    ensures a + (b + c) == (a + b) + c
  {
  }

  lemma DigitsJoin(d: string, mm: string)
    requires AllDigits(d) && AllDigits(mm)
    ensures AllDigits(d + mm)
  {
  }

  lemma DotAfterDigits(digits: string, rest: string)
    requires AllDigits(digits) && rest != "" && rest[0] == '.'
    ensures IndexOf(digits + rest, '.') == |digits|
  {
    var s := digits + rest;
    assert forall i :: 0 <= i < |digits| ==> s[i] == digits[i];
    DotIsFirst(s, |digits|);
  }

  lemma DotIsFirst(s: string, n: nat)
    requires n < |s| && s[n] == '.' && forall i :: 0 <= i < n ==> IsDigit(s[i])
    ensures IndexOf(s, '.') == n
  {
  }

  /** The parser reads an axis back: degrees, minutes and the sign of its hemisphere. */
  lemma DegMinParses(deg: nat, w: nat, d: string, degrees: real, hund: nat, mm: string, hh: string, min: real,
                     text: string, dir: char, v: real)
    requires (w == 2 && deg < 100) || (w == 3 && deg < 1000)
    requires d == Pad(deg, w) && degrees == deg as real
    requires hund < 10000 && mm == Pad(hund / 100, 2) && hh == Pad(hund % 100, 2) && min == hund as real / 100.0
    requires text == d + (mm + ("." + hh)) && v == degrees + min / 60.0
    ensures ParseDDMM(text, dir) == Some(Towards(dir, v))
  {
    DegreesParse(deg, w, d, degrees);
    MinutesParse(hund, mm, hh, min);
    ParsesAs(d, mm, hh, text, degrees, min, dir, v);
  }

  lemma MinutesValue(hund: nat)
    requires hund < 10000
    ensures NumeralValue(Numeral(Pad(hund / 100, 2), Pad(hund % 100, 2))) == hund as real / 100.0
  {
    PadWidth(hund % 100, 2);
    PadReads(hund / 100, 2);
    PadReads(hund % 100, 2);
    HundredthsValue(Pad(hund / 100, 2), Pad(hund % 100, 2));
    assert hund == hund / 100 * 100 + hund % 100;
  }

  function Assemble(lat: Option<real>, lon: Option<real>): Option<Fix> {
    if lat.Some? && lon.Some? then Some(Fix(lat.value, lon.value)) else None
  }

  lemma UncompressedFields(lat: string, ns: char, mid: string, lon: string, ew: char, rest: string)
    requires |lat| == 7 && |mid| == 1 && |lon| == 8
    ensures ParseUncompressed((lat + [ns]) + mid + (lon + [ew]) + rest)
         == Assemble(ParseDDMM(lat, ns), ParseDDMM(lon, ew))
  {
    var s := (lat + [ns]) + mid + (lon + [ew]) + rest;
    assert s[..7] == lat && s[7] == ns && s[9..17] == lon && s[17] == ew;
  }

  /** What stands before the position: a type character, alone or with seven characters of time; or an
      object's name, its live or dead marker, and the time. */
  ghost predicate IsLead(lead: string, rest: string) {
    || lead == "!" || lead == "="
    || (|lead| == 8 && (lead[0] == '/' || lead[0] == '@'))
    || (|lead| > 8 && lead[0] == ';' && lead[|lead| - 8] == '*' && '*' !in lead[..|lead| - 8])
    || (|lead| > 8 && lead[0] == ';' && lead[|lead| - 8] == '_' && '_' !in lead[..|lead| - 8] && '*' !in lead + rest)
  }

  lemma MarkerIsFirst(info: string, marker: char, i: nat)
    requires i < |info| && info[i] == marker && marker !in info[..i]
    ensures IndexOf(info, marker) == i
  {
    assert forall j :: 0 <= j < i ==> info[..i][j] == info[j];
  }

  lemma MarkerIsAt(info: string, i: nat)
    requires i < |info|
    requires if '*' in info then info[i] == '*' && '*' !in info[..i] else info[i] == '_' && '_' !in info[..i]
    ensures ObjectMarker(info) == i
  {
    MarkerIsFirst(info, info[i], i);
  }

  lemma ObjectIsSkipped(lead: string, s: string)
    requires IsLead(lead, s) && lead[0] == ';' && s != ""
    ensures ParsePosition(lead + s) == ParseUncompressed(s)
  {
    var info, i := lead + s, |lead| - 8;
    assert info[..i] == lead[..i] && info[i] == lead[i];
    MarkerIsAt(info, i);
    assert From(info, ObjectMarker(info) + 8) == s;
  }

  lemma LeadIsSkipped(lead: string, s: string)
    requires IsLead(lead, s) && s != "" && IsDigit(s[0])
    ensures ParsePosition(lead + s) == ParseUncompressed(s)
  {
    if lead[0] == ';' {
      ObjectIsSkipped(lead, s);
    } else {
      assert From(lead + s, |lead|) == s;
    }
  }

  /** Where the parser finds the fields of an uncompressed report or object. */
  lemma FieldsAreFound(lead: string, lat: string, ns: char, mid: string, lon: string, ew: char, rest: string)
    requires |lat| == 7 && |mid| == 1 && |lon| == 8 && IsDigit(lat[0])
    requires IsLead(lead, (lat + [ns]) + mid + (lon + [ew]) + rest)
    ensures ParsePosition(lead + (lat + [ns]) + mid + (lon + [ew]) + rest)
         == Assemble(ParseDDMM(lat, ns), ParseDDMM(lon, ew))
  {
    var s := (lat + [ns]) + mid + (lon + [ew]) + rest;
    assert s[0] == lat[0];
    assert lead + (lat + [ns]) + mid + (lon + [ew]) + rest == lead + s;
    LeadIsSkipped(lead, s);
    UncompressedFields(lat, ns, mid, lon, ew, rest);
  }

  /** A base-91 numeral, most significant character first. */
  ghost function Base91Value(s: string): int {
    if s == "" then 0 else 91 * Base91Value(s[..|s| - 1]) + s[|s| - 1] as int - 33
  }

  lemma FourPlaces(s: string)
    requires |s| == 4
    ensures Base91Value(s) == Base91At(s, 0) * 753571 + Base91At(s, 1) * 8281 + Base91At(s, 2) * 91 + Base91At(s, 3)
  {
    assert s[..3][..2] == s[..2] && s[..2][..1] == s[..1] && s[..1][..0] == "";
    assert Base91Value(s[..1]) == Base91At(s, 0);
    assert Base91Value(s[..2]) == 91 * Base91Value(s[..1]) + Base91At(s, 1);
    assert Base91Value(s[..3]) == 91 * Base91Value(s[..2]) + Base91At(s, 2);
  }

  lemma CompressedFields(s: string)
    ensures var fix := ParseCompressed(s);
            && (fix.Some? <==> |s| >= 12 && forall i :: 1 <= i < 9 ==> '!' <= s[i])
            && (fix.Some? ==> fix.value == Fix(90.0 - Base91Value(s[1..5]) as real / 380926.0,
                                               -180.0 + Base91Value(s[5..9]) as real / 190463.0))
  {
    if |s| >= 12 {
      FourPlaces(s[1..5]);
      FourPlaces(s[5..9]);
    }
  }

  /** A compressed position, behind one of the same leads, is read as two base-91 numerals of four characters each;
      none of them may lie below '!'. */
  lemma CompressedReads(lead: string, s: string)
    requires lead == "!" || lead == "=" || (|lead| == 8 && (lead[0] == '/' || lead[0] == '@'))
    requires s != "" && !IsDigit(s[0])
    ensures var fix := ParsePosition(lead + s);
            && (fix.Some? <==> |s| >= 12 && forall i :: 1 <= i < 9 ==> '!' <= s[i])
            && (fix.Some? ==> fix.value == Fix(90.0 - Base91Value(s[1..5]) as real / 380926.0,
                                               -180.0 + Base91Value(s[5..9]) as real / 190463.0))
  {
    assert From(lead + s, |lead|) == s;
    CompressedFields(s);
  }

  lemma TimestampShape(c: Clock)
    requires c.hours < 24 && c.minutes < 60 && c.seconds < 60
    ensures |Timestamp(c)| == 8 && Timestamp(c)[0] == '/'
  {
    PadWidth(c.hours, 2);
    PadWidth(c.minutes, 2);
    PadWidth(c.seconds, 2);
  }

  ghost predicate InRange(lat: real, lon: real) {
    lat != 0.0 && -90.0 <= lat <= 90.0 && lon != 0.0 && -180.0 <= lon <= 180.0
  }

  /** The parsed value has the sign of x, and a magnitude in minutes within (m - 0.01, m + 1e-8]. */
  ghost predicate Recovered(x: real, parsed: real) {
    var m := 60.0 * Abs(x);
    && (x > 0.0 ==> parsed >= 0.0) && (x < 0.0 ==> parsed <= 0.0)
    && m - 0.01 < 60.0 * Abs(parsed) <= m + 0.00000001
  }

  lemma AxisRecovered(x: real)
    requires x != 0.0
    ensures Recovered(x, Signed(x))
  {
  }

  lemma ReportParses(stamp: string, lat: string, ns: char, mid: string, lon: string, ew: char, rest: string,
                     a: real, b: real)
    requires |stamp| == 8 && stamp[0] == '/' && |lat| == 7 && |mid| == 1 && |lon| == 8
    requires IsDigit(lat[0])
    requires ParseDDMM(lat, ns) == Some(a) && ParseDDMM(lon, ew) == Some(b)
    ensures ParsePosition(stamp + (lat + [ns]) + mid + (lon + [ew]) + rest) == Some(Fix(a, b))
  {
    FieldsAreFound(stamp, lat, ns, mid, lon, ew, rest);
  }

  function Signed(x: real): real {
    var p := PrintedDegrees(SplitAxis(Abs(x)));
    if x >= 0.0 then p else -p
  }

  lemma AxisText(a: Axis, w: nat, text: string, dir: char)
    requires (w == 2 && a.deg < 100) || (w == 3 && a.deg < 1000)
    requires a.hund < 10000 && text == DegMin(a, w)
    ensures |text| == w + 5 && IsDigit(text[0])
    ensures ParseDDMM(text, dir) == Some(Towards(dir, PrintedDegrees(a)))
  {
    DegMinShape(a, w);
    DegreesAndMinutes(a);
    DegMinParses(a.deg, w, Pad(a.deg, w), a.deg as real, a.hund, Pad(a.hund / 100, 2), Pad(a.hund % 100, 2),
                 a.hund as real / 100.0, text, dir, PrintedDegrees(a));
  }

  lemma AxisFits(x: real, w: nat)
    requires (w == 2 && Abs(x) <= 90.0) || (w == 3 && Abs(x) <= 180.0)
    ensures var a := SplitAxis(Abs(x));
            a.hund < 10000 && ((w == 2 && a.deg < 100) || (w == 3 && a.deg < 1000))
  {
  }

  lemma AxisShape(x: real, w: nat)
    requires (w == 2 && Abs(x) <= 90.0) || (w == 3 && Abs(x) <= 180.0)
    ensures |DegMin(SplitAxis(Abs(x)), w)| == w + 5 && IsDigit(DegMin(SplitAxis(Abs(x)), w)[0])
  {
    AxisFits(x, w);
    DegMinShape(SplitAxis(Abs(x)), w);
  }

  lemma SignedIsTowards(x: real, dir: char)
    requires (dir == 'S' || dir == 'W') <==> x < 0.0
    ensures Towards(dir, PrintedDegrees(SplitAxis(Abs(x)))) == Signed(x)
  {
  }

  lemma AxisParses(x: real, w: nat, text: string, dir: char)
    requires (w == 2 && Abs(x) <= 90.0) || (w == 3 && Abs(x) <= 180.0)
    requires (dir == 'S' || dir == 'W') <==> x < 0.0
    requires text == DegMin(SplitAxis(Abs(x)), w)
    ensures |text| == w + 5 && IsDigit(text[0]) && ParseDDMM(text, dir) == Some(Signed(x))
  {
    AxisFits(x, w);
    SignedIsTowards(x, dir);
    AxisText(SplitAxis(Abs(x)), w, text, dir);
  }

  lemma InfoParses(lat: real, lon: real, alt: real, name: string, symbol: Option<string>,
                   overlay: Option<string>, dao: DaoMode, c: Clock)
    requires InRange(lat, lon) && alt > 0.0 && (overlay.Some? ==> |overlay.value| == 1)
    requires c.hours < 24 && c.minutes < 60 && c.seconds < 60
    ensures ParsePosition(InfoText(lat, lon, alt, name, symbol, overlay, dao, c)) == Some(Fix(Signed(lat), Signed(lon)))
  {
    var la, lo := SplitAxis(Abs(lat)), SplitAxis(Abs(lon));
    var ns, ew := if lat >= 0.0 then 'N' else 'S', if lon >= 0.0 then 'E' else 'W';
    AxisParses(lat, 2, DegMin(la, 2), ns);
    AxisParses(lon, 3, DegMin(lo, 3), ew);
    TimestampShape(c);
    var rest := SymbolText(symbol) + "/A=" + Pad(RoundHalfEven(alt), 6) + name + DaoToken(dao, la, lo);
    ReportParses(Timestamp(c), DegMin(la, 2), ns, OverlayText(symbol, overlay), DegMin(lo, 3), ew, rest,
                 Signed(lat), Signed(lon));
  }

  /** The nearest foot; the even one of two equally near. */
  ghost predicate NearestFoot(feet: nat, alt: real) {
    var d := feet as real - alt;
    -0.5 <= d <= 0.5 && (d == 0.5 || d == -0.5 ==> feet % 2 == 0)
  }

  lemma RoundsToNearest(alt: real)
    requires alt >= 0.0
    ensures NearestFoot(RoundHalfEven(alt), alt)
  {
  }

  /** From the altitude on: n digits for the nearest foot, the name, and the five characters of the DAO token. */
  ghost predicate Comment(info: string, n: nat, alt: real, name: string, dao: DaoMode) {
    && |info| == 30 + n + |name| + (if dao == Off then 0 else 5)
    && info[27..30] == "/A=" && AllDigits(info[30..30 + n]) && NearestFoot(ValueOf(info[30..30 + n]), alt)
    && info[30 + n..30 + n + |name|] == name
  }

  lemma CommentBehind(front: string, feet: string, name: string, token: string, alt: real, dao: DaoMode)
    requires |front| == 30 && front[27..30] == "/A="
    requires AllDigits(feet) && NearestFoot(ValueOf(feet), alt) && |token| == if dao == Off then 0 else 5
    ensures Comment(front + (feet + name + token), |feet|, alt, name, dao)
  {
    var n, m, rest := |feet|, |name|, feet + name + token;
    Behind(front, rest);
    assert rest[..n] == feet && rest[n..n + m] == name;
    assert (front + rest)[30..30 + n] == rest[..n];
    assert (front + rest)[30 + n..30 + n + m] == rest[n..n + m];
  }

  lemma Behind(front: string, rest: string)
    requires |front| == 30
    ensures (front + rest)[27..30] == front[27..30] && (front + rest)[30..] == rest
  {
  }

  lemma Regroup(a: string, b: string, c: string, d: string, e: string)
    ensures a + (b + c + d + e) == (a + b) + (c + d + e)
  {
  }

  lemma CommentIsAt(info: string, fields: string, sym: string, feet: string, name: string, token: string,
                    alt: real, dao: DaoMode)
    requires |fields| == 26 && |sym| == 1
    requires AllDigits(feet) && NearestFoot(ValueOf(feet), alt) && |token| == if dao == Off then 0 else 5
    requires info == fields + (sym + "/A=" + feet + name + token)
    ensures Comment(info, |feet|, alt, name, dao)
  {
    Regroup(fields, sym + "/A=", feet, name, token);
    CommentBehind(fields + (sym + "/A="), feet, name, token, alt, dao);
  }

  lemma FieldsFill(lat: real, lon: real, alt: real, name: string, symbol: Option<string>,
                   overlay: Option<string>, dao: DaoMode, c: Clock) returns (fields: string)
    requires InRange(lat, lon) && 0.0 < alt
    requires overlay.Some? ==> |overlay.value| == 1
    requires c.hours < 24 && c.minutes < 60 && c.seconds < 60
    ensures |fields| == 26
    ensures InfoText(lat, lon, alt, name, symbol, overlay, dao, c)
         == fields + (SymbolText(symbol) + "/A=" + Pad(RoundHalfEven(alt), 6) + name
                      + DaoToken(dao, SplitAxis(Abs(lat)), SplitAxis(Abs(lon))))
  {
    var la, lo := SplitAxis(Abs(lat)), SplitAxis(Abs(lon));
    AxisShape(lat, 2);
    AxisShape(lon, 3);
    TimestampShape(c);
    fields := Timestamp(c) + (DegMin(la, 2) + [if lat >= 0.0 then 'N' else 'S']) + OverlayText(symbol, overlay)
              + (DegMin(lo, 3) + [if lon >= 0.0 then 'E' else 'W']);
  }

  /** The altitude, at its fixed place, reads as the nearest foot: six digits, or more if it does not fit.
      The name follows, and behind it nothing but the five characters of the DAO token. */
  lemma CommentReads(lat: real, lon: real, alt: real, name: string, symbol: Option<string>,
                     overlay: Option<string>, dao: DaoMode, c: Clock) returns (n: nat)
    requires InRange(lat, lon) && 0.0 < alt
    requires overlay.Some? ==> |overlay.value| == 1
    requires c.hours < 24 && c.minutes < 60 && c.seconds < 60
    ensures n >= 6 && (alt < 999999.5 ==> n == 6)
    ensures Comment(InfoText(lat, lon, alt, name, symbol, overlay, dao, c), n, alt, name, dao)
  {
    var fields := FieldsFill(lat, lon, alt, name, symbol, overlay, dao, c);
    var feet := AltitudeDigits(alt);
    CommentIsAt(InfoText(lat, lon, alt, name, symbol, overlay, dao, c), fields, SymbolText(symbol), feet, name,
                DaoToken(dao, SplitAxis(Abs(lat)), SplitAxis(Abs(lon))), alt, dao);
    n := |feet|;
  }

  lemma AltitudeDigits(alt: real) returns (feet: string)
    requires alt > 0.0
    ensures feet == Pad(RoundHalfEven(alt), 6) && NearestFoot(ValueOf(feet), alt)
    ensures |feet| >= 6 && (alt < 999999.5 ==> |feet| == 6)
  {
    feet := Pad(RoundHalfEven(alt), 6);
    SixDigits(RoundHalfEven(alt));
    RoundsToNearest(alt);
  }

  lemma SixDigits(feet: nat)
    ensures |Pad(feet, 6)| >= 6 && (feet < 1000000 ==> |Pad(feet, 6)| == 6) && ValueOf(Pad(feet, 6)) == feet
  {
    assert Pow10(3) == 1000;
    assert Pow10(6) == 1000000;
    PadReads(feet, 6);
    if feet < 1000000 {
      PadFits(feet, 6);
    }
  }

  ghost predicate Shows(digits: string, n: nat) {
    AllDigits(digits) && ValueOf(digits) == n
  }

  ghost predicate ShowsTime(t: string, c: Clock) {
    && |t| == 8 && t[0] == '/' && t[7] == 'h'
    && Shows(t[1..3], c.hours) && Shows(t[3..5], c.minutes) && Shows(t[5..7], c.seconds)
  }

  lemma TimestampReads(c: Clock)
    requires c.hours < 24 && c.minutes < 60 && c.seconds < 60
    ensures ShowsTime(Timestamp(c), c)
  {
    PadWidth(c.hours, 2);
    PadWidth(c.minutes, 2);
    PadWidth(c.seconds, 2);
    PadReads(c.hours, 2);
    PadReads(c.minutes, 2);
    PadReads(c.seconds, 2);
    var t := Timestamp(c);
    assert t[1..3] == Pad(c.hours, 2) && t[3..5] == Pad(c.minutes, 2) && t[5..7] == Pad(c.seconds, 2);
  }

  lemma PlacesOf(stamp: string, lat: string, ns: char, mid: string, lon: string, ew: char,
                 sym: string, feet: string, name: string, token: string)
    requires |stamp| == 8 && |lat| == 7 && |mid| == 1 && |lon| == 8 && |sym| == 1
    ensures var info := stamp + (lat + [ns]) + mid + (lon + [ew]) + (sym + "/A=" + feet + name + token);
            |info| >= 27 && info[..8] == stamp && info[8] == lat[0] && info[16] == mid[0] && info[26] == sym[0]
  {
  }

  /** The overlay that is asked for; without one, the first character of the symbol, if it has one. */
  ghost predicate ChosenOverlay(o: char, symbol: Option<string>, overlay: Option<string>) {
    && (overlay.Some? ==> overlay.value == [o])
    && (overlay.None? && symbol.Some? && symbol.value != "" ==> o == symbol.value[0])
    && (overlay.None? && (symbol.None? || symbol.value == "") ==> o == '/')
  }

  /** The second character of the symbol, if it has one. */
  ghost predicate ChosenCode(code: char, symbol: Option<string>) {
    && (symbol.Some? && |symbol.value| > 1 ==> code == symbol.value[1])
    && (symbol.None? || |symbol.value| <= 1 ==> code == '0')
  }

  /** The time of day, the overlay and the symbol stand at their places. */
  lemma FixedFields(lat: real, lon: real, alt: real, name: string, symbol: Option<string>,
                    overlay: Option<string>, dao: DaoMode, c: Clock)
    requires InRange(lat, lon) && 0.0 < alt && (overlay.Some? ==> |overlay.value| == 1)
    requires c.hours < 24 && c.minutes < 60 && c.seconds < 60
    ensures var info := InfoText(lat, lon, alt, name, symbol, overlay, dao, c);
            && |info| >= 27 && ShowsTime(info[..8], c) && IsDigit(info[8])
            && ChosenOverlay(info[16], symbol, overlay) && ChosenCode(info[26], symbol)
  {
    var la, lo := SplitAxis(Abs(lat)), SplitAxis(Abs(lon));
    AxisShape(lat, 2);
    AxisShape(lon, 3);
    TimestampReads(c);
    PlacesOf(Timestamp(c), DegMin(la, 2), if lat >= 0.0 then 'N' else 'S', OverlayText(symbol, overlay),
             DegMin(lo, 3), if lon >= 0.0 then 'E' else 'W', SymbolText(symbol),
             Pad(RoundHalfEven(alt), 6), name, DaoToken(dao, la, lo));
    FieldsAreChosen(symbol, overlay);
  }

  lemma FieldsAreChosen(symbol: Option<string>, overlay: Option<string>)
    requires overlay.Some? ==> |overlay.value| == 1
    ensures |OverlayText(symbol, overlay)| == 1 && ChosenOverlay(OverlayText(symbol, overlay)[0], symbol, overlay)
    ensures ChosenCode(SymbolText(symbol)[0], symbol)
  {
  }

  /** The map symbol a report shows: table, code, and the overlay that stands in the table's place. */
  datatype Symbol = Symbol(overlay: Option<char>, table: char, code: char)

  function CharAt(s: string, i: nat): Option<char> {
    if i < |s| then Some(s[i]) else None
  }

  /** Table and code, from two places. */
  function SymbolAt(info: string, table: nat, code: nat): Option<Symbol> {
    match (CharAt(info, table), CharAt(info, code))
    case (Some(t), Some(c)) =>
      Some(if t == '/' || t == '\\' then Symbol(None, t, c) else Symbol(Some(t), '\\', c))
    case _ => None
  }

  function SymbolBehind(info: string, start: nat, minUncompressed: nat, minCompressed: nat): Option<Symbol> {
    if |info| <= start then None
    else if IsDigit(info[start]) then
      if |info| >= minUncompressed then SymbolAt(info, start + 8, start + 18) else None
    else if |info| >= minCompressed then SymbolAt(info, start, start + 9) else None
  }

  /** The offset logic of getSymbolImage. */
  function ReadSymbol(info: string): Option<Symbol> {
    if |info| < 2 then None
    else if info[0] == '!' || info[0] == '=' then SymbolBehind(info, 1, 0, 0)
    else if info[0] == '/' || info[0] == '@' then SymbolBehind(info, 8, 0, 0)
    else if info[0] == '`' || info[0] == '\'' then
      if |info| >= 9 then SymbolAt(info, 8, 7) else None
    else if info[0] == ';' then
      var star := ObjectMarker(info);
      if star >= 0 then SymbolBehind(info, star + 8, star + 27, star + 18) else None
    else None
  }

  ghost predicate ShowsSymbolAt(info: string, table: nat, code: nat, n: nat) {
    if table < |info| && code < |info| && |info| >= n then ShowsSymbol(ReadSymbol(info), info[table], info[code])
    else ReadSymbol(info) == None
  }

  ghost predicate ShowsSymbol(shown: Option<Symbol>, table: char, code: char) {
    && (table == '/' || table == '\\' ==> shown == Some(Symbol(None, table, code)))
    && (table != '/' && table != '\\' ==> shown == Some(Symbol(Some(table), '\\', code)))
  }

  /** Where the symbol stands behind each data type: table and code frame the longitude of an uncompressed
      position, or the numerals of a compressed one. A text too short for the code shows none. */
  lemma SymbolPlaces(info: string)
    requires |info| >= 2
    ensures info[0] == '!' || info[0] == '=' ==>
              (if IsDigit(info[1]) then ShowsSymbolAt(info, 9, 19, 20) else ShowsSymbolAt(info, 1, 10, 11))
    ensures info[0] == '/' || info[0] == '@' ==>
              (if |info| > 8 && IsDigit(info[8]) then ShowsSymbolAt(info, 16, 26, 27)
               else ShowsSymbolAt(info, 8, 17, 18))
    ensures info[0] == '`' || info[0] == '\'' ==> ShowsSymbolAt(info, 8, 7, 9)
    ensures info[0] !in {'!', '=', '/', '@', '`', '\'', ';'} ==> ReadSymbol(info) == None
  {
  }

  /** In an object report they stand behind its live marker, or its dead one if it has no live one. */
  lemma ObjectSymbolPlaces(info: string, i: nat)
    requires |info| >= 2 && info[0] == ';' && i < |info|
    requires if '*' in info then info[i] == '*' && '*' !in info[..i] else info[i] == '_' && '_' !in info[..i]
    ensures if i + 8 < |info| && IsDigit(info[i + 8]) then ShowsSymbolAt(info, i + 16, i + 26, i + 27)
            else ShowsSymbolAt(info, i + 8, i + 17, i + 18)
  {
    MarkerIsAt(info, i);
  }

  /** The browser shows every beacon with the overlay and the symbol it was sent with. */
  lemma SymbolReads(lat: real, lon: real, alt: real, name: string, symbol: Option<string>,
                    overlay: Option<string>, dao: DaoMode, c: Clock, o: char, code: char)
    requires InRange(lat, lon) && 0.0 < alt && (overlay.Some? ==> |overlay.value| == 1)
    requires c.hours < 24 && c.minutes < 60 && c.seconds < 60
    requires ChosenOverlay(o, symbol, overlay) && ChosenCode(code, symbol)
    ensures ShowsSymbol(ReadSymbol(InfoText(lat, lon, alt, name, symbol, overlay, dao, c)), o, code)
  {
    var info := InfoText(lat, lon, alt, name, symbol, overlay, dao, c);
    FixedFields(lat, lon, alt, name, symbol, overlay, dao, c);
    assert info[0] == info[..8][0];
    assert info[16] == o && info[26] == code;
  }

  lemma InfoOfPacket(callsign: string, info: string)
    requires ':' !in callsign
    ensures var packet := callsign + ">" + TOCALL + ",TCPIP*:" + info;
            && IndexOf(packet, ':') == |callsign| + 14 && InfoField(packet) == info
            && packet[..|callsign| + 14] == callsign + ">APZJD1,TCPIP*"
  {
    var head := callsign + ">APZJD1,TCPIP*";
    var packet := callsign + ">" + TOCALL + ",TCPIP*:" + info;
    assert packet == head + [':'] + info;
    assert ':' !in head;
    SplitsAt(head, ':', info, packet);
  }

  /** A beacon is sent exactly for a complete location with a positive altitude away from both zero lines. */
  lemma SentIff(l: Location, callsign: string, name: string, symbol: Option<string>,
                overlay: Option<string>, dao: DaoMode, c: Clock)
    ensures var packet, complete := PositPacket(l, callsign, name, symbol, overlay, dao, c),
                                    l.lat.Some? && l.lon.Some? && l.alt.Some?;
            && (packet == Failure(MissingLocation) <==> !complete)
            && (packet.Success? <==> complete && l.alt.value > 0.0 && l.lat.value != 0.0 && l.lon.value != 0.0)
            && (packet.Success? || packet == Failure(MissingLocation) || packet == Failure(InvalidLocation))
  {
  }

  /** Every beacon comes from the callsign, before the first '>', and goes to the igate's own destination
      with the path of a direct connection, before the first ':'. */
  lemma BeaconIsAddressed(l: Location, callsign: string, name: string, symbol: Option<string>,
                          overlay: Option<string>, dao: DaoMode, c: Clock)
    requires PositPacket(l, callsign, name, symbol, overlay, dao, c).Success?
    requires '>' !in callsign && ':' !in callsign
    ensures var packet := PositPacket(l, callsign, name, symbol, overlay, dao, c).value;
            var i, j := IndexOf(packet, '>'), IndexOf(packet, ':');
            0 <= i < j && packet[..i] == callsign && packet[i + 1..j] == "APZJD1,TCPIP*"
  {
    HeadReads(callsign, InfoText(l.lat.value, l.lon.value, l.alt.value, name, symbol, overlay, dao, c),
              PositPacket(l, callsign, name, symbol, overlay, dao, c).value);
  }

  lemma HeadReads(callsign: string, info: string, packet: string)
    requires packet == callsign + ">" + TOCALL + ",TCPIP*:" + info
    requires '>' !in callsign && ':' !in callsign
    ensures var i, j := IndexOf(packet, '>'), IndexOf(packet, ':');
            0 <= i < j && packet[..i] == callsign && packet[i + 1..j] == "APZJD1,TCPIP*"
  {
    InfoOfPacket(callsign, info);
    var n, rest := |callsign|, "APZJD1,TCPIP*" + [':'] + info;
    assert packet == callsign + ['>'] + rest;
    SplitsAt(callsign, '>', rest, packet);
    assert packet[n + 1..n + 14] == packet[n + 1..][..13] == rest[..13] == "APZJD1,TCPIP*";
  }

  lemma SplitsAt(before: string, c: char, rest: string, s: string)
    requires c !in before && s == before + [c] + rest
    ensures IndexOf(s, c) == |before| && s[..|before|] == before && s[|before| + 1..] == rest
  {
    assert s[..|before|] == before && s[|before|] == c;
    MarkerIsFirst(s, c, |before|);
  }

  lemma BeaconParses(l: Location, callsign: string, name: string, symbol: Option<string>,
                     overlay: Option<string>, dao: DaoMode, c: Clock)
    requires l.lat.Some? && l.lon.Some? && l.alt.Some?
    requires InRange(l.lat.value, l.lon.value) && l.alt.value > 0.0
    requires (overlay.Some? ==> |overlay.value| == 1) && ':' !in callsign
    requires c.hours < 24 && c.minutes < 60 && c.seconds < 60
    ensures var packet := PositPacket(l, callsign, name, symbol, overlay, dao, c);
            && packet.Success?
            && ParsePosition(InfoField(packet.value)) == Some(Fix(Signed(l.lat.value), Signed(l.lon.value)))
  {
    var lat, lon := l.lat.value, l.lon.value;
    InfoOfPacket(callsign, InfoText(lat, lon, l.alt.value, name, symbol, overlay, dao, c));
    InfoParses(lat, lon, l.alt.value, name, symbol, overlay, dao, c);
  }

  /** Every beacon that is sent for an in-range position, with a one-character overlay and a
      colon-free callsign, parses in the browser to the same hemispheres, with magnitudes short of
      the true ones by less than a hundredth of a minute. */
  lemma BeaconRoundTrip(l: Location, callsign: string, name: string, symbol: Option<string>,
                        overlay: Option<string>, dao: DaoMode, c: Clock)
    requires l.lat.Some? && l.lon.Some? && l.alt.Some?
    requires InRange(l.lat.value, l.lon.value) && l.alt.value > 0.0
    requires (overlay.Some? ==> |overlay.value| == 1) && ':' !in callsign
    requires c.hours < 24 && c.minutes < 60 && c.seconds < 60
    ensures var packet := PositPacket(l, callsign, name, symbol, overlay, dao, c);
            && packet.Success?
            && var fix := ParsePosition(InfoField(packet.value));
               fix.Some? && Recovered(l.lat.value, fix.value.lat) && Recovered(l.lon.value, fix.value.lon)
  {
    BeaconParses(l, callsign, name, symbol, overlay, dao, c);
    AxisRecovered(l.lat.value);
    AxisRecovered(l.lon.value);
  }

  //--------- the precision extension --------

  /** Reads a DAO token at the end of a packet: the minutes it adds to latitude and longitude. */
  function ReadDao(packet: string): Option<(real, real)> {
    var n := |packet|;
    if n < 5 || packet[n - 5] != '!' || packet[n - 1] != '!' then None
    else
      var a, b := packet[n - 3], packet[n - 2];
      if packet[n - 4] == 'W' && IsDigit(a) && IsDigit(b) then
        Some((HumanMinutes(DigitValue(a)), HumanMinutes(DigitValue(b))))
      else if packet[n - 4] == 'w' && 33 <= a as int <= 123 && 33 <= b as int <= 123 then
        Some((Base91Minutes(a as int - 33), Base91Minutes(b as int - 33)))
      else None
  }

  lemma DaoReads(front: string, dao: DaoMode, lat: Axis, lon: Axis)
    requires dao != Off
    requires lat.rem >= 0.0 && lon.rem >= 0.0
    requires DaoDigit(lat.rem) >= 0 && DaoDigit(lon.rem) >= 0
    ensures ReadDao(front + DaoToken(dao, lat, lon))
         == if dao == Human then Some((HumanMinutes(DaoDigit(lat.rem)), HumanMinutes(DaoDigit(lon.rem))))
            else Some((Base91Minutes(DaoCode(lat.rem)), Base91Minutes(DaoCode(lon.rem))))
  {
  }

  /** A receiver that adds the DAO minutes to the parsed ones is short by less than a thousandth of
      a minute (human-readable form) or a 91st of a hundredth (base-91 form), on both axes. */
  lemma DaoTightens(l: Location, callsign: string, name: string, symbol: Option<string>,
                    overlay: Option<string>, dao: DaoMode, c: Clock)
    requires dao != Off
    requires l.lat.Some? && l.lon.Some? && l.alt.Some?
    requires InRange(l.lat.value, l.lon.value) && l.alt.value > 0.0
    requires (overlay.Some? ==> |overlay.value| == 1) && ':' !in callsign
    requires c.hours < 24 && c.minutes < 60 && c.seconds < 60
    ensures var packet := PositPacket(l, callsign, name, symbol, overlay, dao, c);
            && packet.Success?
            && var fix, extra := ParsePosition(InfoField(packet.value)), ReadDao(packet.value);
               && fix.Some? && extra.Some?
               && Refined(l.lat.value, fix.value.lat, extra.value.0, dao)
               && Refined(l.lon.value, fix.value.lon, extra.value.1, dao)
  {
    var lat, lon := l.lat.value, l.lon.value;
    BeaconParses(l, callsign, name, symbol, overlay, dao, c);
    DaoIsRead(l, callsign, name, symbol, overlay, dao, c);
    AxisRefined(lat, dao);
    AxisRefined(lon, dao);
  }

  function DaoMinutes(x: real, dao: DaoMode): real
    requires dao != Off
  {
    var rem := SplitAxis(Abs(x)).rem;
    if dao == Human then HumanMinutes(DaoDigit(rem)) else Base91Minutes(DaoCode(rem))
  }

  lemma AxisRefined(x: real, dao: DaoMode)
    requires dao != Off
    ensures Refined(x, Signed(x), DaoMinutes(x, dao), dao)
  {
  }

  lemma DaoIsRead(l: Location, callsign: string, name: string, symbol: Option<string>,
                  overlay: Option<string>, dao: DaoMode, c: Clock)
    requires dao != Off
    requires l.lat.Some? && l.lon.Some? && l.alt.Some?
    requires l.lat.value != 0.0 && l.lon.value != 0.0 && l.alt.value > 0.0
    ensures var packet := PositPacket(l, callsign, name, symbol, overlay, dao, c);
            && packet.Success?
            && ReadDao(packet.value) == Some((DaoMinutes(l.lat.value, dao), DaoMinutes(l.lon.value, dao)))
  {
    var la, lo := SplitAxis(Abs(l.lat.value)), SplitAxis(Abs(l.lon.value));
    ClampsNeverEngage(Abs(l.lat.value));
    ClampsNeverEngage(Abs(l.lon.value));
    var front := DaoFollows(l, callsign, name, symbol, overlay, dao, c);
    DaoReads(front, dao, la, lo);
  }

  /** The token ends the packet. */
  lemma DaoFollows(l: Location, callsign: string, name: string, symbol: Option<string>,
                   overlay: Option<string>, dao: DaoMode, c: Clock) returns (front: string)
    requires l.lat.Some? && l.lon.Some? && l.alt.Some?
    requires l.lat.value != 0.0 && l.lon.value != 0.0 && l.alt.value > 0.0
    ensures PositPacket(l, callsign, name, symbol, overlay, dao, c)
         == Success(front + DaoToken(dao, SplitAxis(Abs(l.lat.value)), SplitAxis(Abs(l.lon.value))))
  {
    var head := callsign + ">" + TOCALL + ",TCPIP*:";
    var body := InfoEnds(l.lat.value, l.lon.value, l.alt.value, name, symbol, overlay, dao, c);
    front := head + body;
    JoinLeft(head, body, DaoToken(dao, SplitAxis(Abs(l.lat.value)), SplitAxis(Abs(l.lon.value))));
  }

  lemma InfoEnds(lat: real, lon: real, alt: real, name: string, symbol: Option<string>,
                 overlay: Option<string>, dao: DaoMode, c: Clock) returns (body: string)
    requires alt > 0.0
    ensures InfoText(lat, lon, alt, name, symbol, overlay, dao, c)
         == body + DaoToken(dao, SplitAxis(Abs(lat)), SplitAxis(Abs(lon)))
  {
    var la, lo := SplitAxis(Abs(lat)), SplitAxis(Abs(lon));
    var fields := Timestamp(c) + (DegMin(la, 2) + [if lat >= 0.0 then 'N' else 'S']) + OverlayText(symbol, overlay)
                  + (DegMin(lo, 3) + [if lon >= 0.0 then 'E' else 'W']);
    var tail := SymbolText(symbol) + "/A=" + Pad(RoundHalfEven(alt), 6) + name;
    body := fields + tail;
    JoinLeft(fields, tail, DaoToken(dao, la, lo));
  }

  ghost predicate Refined(x: real, parsed: real, extra: real, dao: DaoMode) {
    var m := 60.0 * Abs(x);
    m - (if dao == Human then 0.001 else 0.01 / 91.0) < 60.0 * Abs(parsed) + extra <= m + 0.00000001
  }
}

/** Decimal numerals: Rust's zero-padded integers, and the unsigned decimals that JavaScript's
    parseFloat reads off the front of a string. */
module Numerals {
  import opened Types

  predicate IsDigit(c: char) {
    '0' <= c <= '9'
  }

  predicate AllDigits(s: string) {
    forall i :: 0 <= i < |s| ==> IsDigit(s[i])
  }

  function Digit(d: nat): (c: char)
    requires d < 10
    ensures IsDigit(c) && DigitValue(c) == d
  {
    '0' + d as char
  }

  function DigitValue(c: char): (d: nat)
    requires IsDigit(c)
    ensures d < 10
  {
    c as int - '0' as int
  }

  function Decimal(n: nat): (s: string)
    ensures s != "" && AllDigits(s)
  {
    if n < 10 then [Digit(n)] else Decimal(n / 10) + [Digit(n % 10)]
  }

  function Zeros(n: nat): (s: string)
    ensures |s| == n && AllDigits(s)
  {
    seq(n, _ => '0')
  }

  /** {:0w}: at least w digits. */
  function Pad(n: nat, w: nat): (s: string)
    ensures AllDigits(s)
  {
    var d := Decimal(n);
    if |d| >= w then d else Zeros(w - |d|) + d
  }

  function ValueOf(s: string): nat
    requires AllDigits(s)
  {
    if s == "" then 0 else 10 * ValueOf(s[..|s| - 1]) + DigitValue(s[|s| - 1])
  }

  lemma ValueOfSnoc(s: string, c: char)
    requires AllDigits(s) && IsDigit(c)
    ensures AllDigits(s + [c]) && ValueOf(s + [c]) == 10 * ValueOf(s) + DigitValue(c)
  {
  }

  lemma {:induction false} DecimalReads(n: nat)
    ensures ValueOf(Decimal(n)) == n
  {
    if n < 10 {
      ValueOfSnoc("", Digit(n));
      assert "" + [Digit(n)] == [Digit(n)];
    } else {
      DecimalReads(n / 10);
      ValueOfSnoc(Decimal(n / 10), Digit(n % 10));
    }
  }

  lemma {:induction false} ZerosAreZero(k: nat)
    ensures ValueOf(Zeros(k)) == 0
  {
    if k == 0 {
    } else {
      ZerosAreZero(k - 1);
      assert Zeros(k)[..k - 1] == Zeros(k - 1);
    }
  }

  lemma {:induction false} LeadingZeros(z: string, s: string)
    requires AllDigits(z) && AllDigits(s) && ValueOf(z) == 0
    ensures AllDigits(z + s) && ValueOf(z + s) == ValueOf(s)
  {
    if s == "" {
      assert z + s == z;
    } else {
      var n := |s| - 1;
      LeadingZeros(z, s[..n]);
      assert (z + s)[..|z + s| - 1] == z + s[..n];
    }
  }

  /** Padding keeps the value and reaches the width. */
  lemma PadReads(n: nat, w: nat)
    ensures ValueOf(Pad(n, w)) == n
    ensures |Pad(n, w)| >= w
  {
    DecimalReads(n);
    var d := Decimal(n);
    if |d| < w {
      ZerosAreZero(w - |d|);
      LeadingZeros(Zeros(w - |d|), d);
    }
  }

  lemma PadWidth(n: nat, w: nat)
    requires (w == 2 && n < 100) || (w == 3 && n < 1000)
    ensures |Pad(n, w)| == w
  {
    assert Decimal(n / 10) == if n / 10 < 10 then [Digit(n / 10)] else Decimal(n / 100) + [Digit(n / 10 % 10)];
    assert n / 10 / 10 == n / 100;
  }

  function Pow10(w: nat): nat {
    if w == 0 then 1 else 10 * Pow10(w - 1)
  }

  lemma {:induction false} DecimalFits(n: nat, w: nat)
    requires w > 0 && n < Pow10(w)
    ensures |Decimal(n)| <= w
  {
    if n < 10 {
    } else {
      assert w > 1 by {
        assert Pow10(1) == 10 * Pow10(0);
      }
      DecimalFits(n / 10, w - 1);
    }
  }

  /** A number that fits is padded to exactly the width. */
  lemma PadFits(n: nat, w: nat)
    requires w > 0 && n < Pow10(w)
    ensures |Pad(n, w)| == w
  {
    DecimalFits(n, w);
  }

  /** The length of the longest prefix of digits. */
  function Span(s: string): (n: nat)
    ensures n <= |s|
    ensures forall i :: 0 <= i < n ==> IsDigit(s[i])
    ensures n < |s| ==> !IsDigit(s[n])
  {
    if s == "" || !IsDigit(s[0]) then 0 else 1 + Span(s[1..])
  }

  lemma SpanIs(d: string, rest: string)
    requires AllDigits(d) && (rest != "" ==> !IsDigit(rest[0]))
    ensures Span(d + rest) == |d| && (d + rest)[..|d|] == d && (d + rest)[|d|..] == rest
  {
  }

  /** The value of digits after a decimal point. */
  function FractionValue(f: string): real
    requires AllDigits(f)
  {
    if f == "" then 0.0 else (DigitValue(f[0]) as real + FractionValue(f[1..])) / 10.0
  }

  /** The digits after a decimal point, if one comes next. */
  function FractionDigits(s: string): (f: string)
    ensures AllDigits(f)
  {
    if s != "" && s[0] == '.' then s[1..][..Span(s[1..])] else ""
  }

  datatype Numeral = Numeral(whole: string, fraction: string)

  /** The longest unsigned decimal at the front of a string. */
  function Scan(s: string): (r: Numeral)
    ensures AllDigits(r.whole) && AllDigits(r.fraction)
  {
    var whole := s[..Span(s)];
    Numeral(whole, FractionDigits(s[|whole|..]))
  }

  /** parseFloat on an unsigned decimal prefix; None where it yields NaN. */
  function ParseFloat(s: string): Option<real> {
    var r := Scan(s);
    if r.whole == "" && r.fraction == "" then None else Some(NumeralValue(r))
  }

  /** What it takes: a digit first, or a point and then a digit. */
  lemma ParsesIff(s: string)
    ensures ParseFloat(s).Some? <==> s != "" && (IsDigit(s[0]) || (s[0] == '.' && |s| > 1 && IsDigit(s[1])))
  {
  }

  function NumeralValue(r: Numeral): real
    requires AllDigits(r.whole) && AllDigits(r.fraction)
  {
    ValueOf(r.whole) as real + FractionValue(r.fraction)
  }

  lemma ParseInteger(d: string)
    requires AllDigits(d) && d != ""
    ensures ParseFloat(d) == Some(ValueOf(d) as real)
  {
    SpanIs(d, "");
    assert d + "" == d;
  }

  lemma FractionIs(f: string)
    requires AllDigits(f)
    ensures FractionDigits("." + f) == f
  {
  }

  lemma TwoPlaces(f: string)
    requires AllDigits(f) && |f| == 2
    ensures FractionValue(f) == ValueOf(f) as real / 100.0
  {
    var a, b := DigitValue(f[0]), DigitValue(f[1]);
    assert f[1..] == [f[1]] && f[1..][1..] == "" && f[..1] == [f[0]] && f[..1][..0] == "";
    assert FractionValue(f[1..]) == b as real / 10.0;
    assert ValueOf(f[..1]) == a;
  }

  lemma ScanHundredths(d: string, f: string)
    requires AllDigits(d) && AllDigits(f)
    ensures Scan(d + ("." + f)) == Numeral(d, f)
  {
    SpanIs(d, "." + f);
    FractionIs(f);
  }

  lemma ParseHundredths(d: string, f: string)
    requires AllDigits(d) && d != "" && AllDigits(f)
    ensures ParseFloat(d + ("." + f)) == Some(NumeralValue(Numeral(d, f)))
  {
    ScanHundredths(d, f);
  }

  lemma HundredthsValue(d: string, f: string)
    requires AllDigits(d) && AllDigits(f) && |f| == 2
    ensures NumeralValue(Numeral(d, f)) == ValueOf(d) as real + ValueOf(f) as real / 100.0
  {
    TwoPlaces(f);
  }
}

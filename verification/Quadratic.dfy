/** APRS telemetry values as quadratic coefficients, and the telemetry report fields
    (src/igate.rs; APRS Protocol Reference 1.0.1, chapter 13). Floating point is read as exact
    arithmetic. */
module Quadratic {
  import opened Types

  /** A receiver computes a * x * x + b * x + c. */
  datatype AprsQuadratic = AprsQuadratic(a: real, b: real, c: real, x: nat)
  {
    function Value(): real {
      a * (x as real * x as real) + b * x as real + c
    }
  }

  function Ceil(v: real): int {
    -(-v).Floor
  }

  /** f64::round: halves away from zero. */
  function RoundAway(v: real): int {
    if v >= 0.0 then (v + 0.5).Floor else -(-v + 0.5).Floor
  }

  function ToMicro(v: real): real {
    RoundAway(v * 1000000.0) as real / 1000000.0
  }

  /** `as u32`: negative values saturate. */
  function Saturate(x: int): nat {
    if x < 0 then 0 else x
  }

  function New(v: real): AprsQuadratic {
    if -255.0 <= v <= 255.0 then
      var x := if v >= 0.0 then v.Floor else Ceil(v);
      AprsQuadratic(0.0, 1.0, ToMicro(v - x as real), Saturate(x))
    else if v > 0.0 then
      var a := (v / 16384.0).Floor as real;
      var rest := v - a * 128.0 * 128.0;
      var b := (rest / 128.0).Floor as real;
      AprsQuadratic(ToMicro(a), ToMicro(b), ToMicro(rest - b * 128.0), 128)
    else
      var a := Ceil(v / 16384.0) as real;
      var rest := v - a * 128.0 * 128.0;
      var b := Ceil(rest / 128.0) as real;
      AprsQuadratic(ToMicro(a), ToMicro(b), ToMicro(rest - b * 128.0), 128)
  }

  ghost predicate Recovers(v: real) {
    -0.0000005 <= New(v).Value() - v <= 0.0000005
  }

  lemma MicroIsClose(v: real)
    ensures -0.0000005 <= ToMicro(v) - v <= 0.0000005
  {
  }

  lemma MicroOfInteger(n: int)
    ensures ToMicro(n as real) == n as real
  {
    assert n as real * 1000000.0 == (n * 1000000) as real;
    var v := n as real * 1000000.0;
    assert RoundAway(v) == n * 1000000;
  }

  lemma SmallValues(v: real)
    requires -255.0 <= v <= 255.0
    ensures New(v).a == 0.0 && New(v).b == 1.0 && New(v).x == if v >= 0.0 then v.Floor else 0
    ensures Recovers(v) <==> v > -1.0
    ensures v > -1.0 && v == v.Floor as real ==> New(v).Value() == v
  {
  }

  /** The three base-128 digits of a large value before rounding. */
  lemma RawDigits(v: real) returns (a: int, b: int, c: real)
    requires v < -255.0 || 255.0 < v
    ensures New(v) == AprsQuadratic(a as real, b as real, ToMicro(c), 128)
    ensures v == a as real * 16384.0 + b as real * 128.0 + c
    ensures if v > 0.0 then 0 <= b < 128 && 0.0 <= c < 128.0 else -128 < b <= 0 && -128.0 < c <= 0.0
  {
    var up := v > 0.0;
    a := if up then (v / 16384.0).Floor else Ceil(v / 16384.0);
    var rest := v - a as real * 128.0 * 128.0;
    b := if up then (rest / 128.0).Floor else Ceil(rest / 128.0);
    c := rest - b as real * 128.0;
    MicroOfInteger(a);
    MicroOfInteger(b);
    assert if up then 0.0 <= rest < 16384.0 else -16384.0 < rest <= 0.0;
  }

  lemma LargeValues(v: real)
    requires v < -255.0 || 255.0 < v
    ensures Recovers(v)
    ensures New(v).x == 128
    ensures New(v).b == New(v).b.Floor as real && -128.0 < New(v).b < 128.0
    ensures -128.0 <= New(v).c <= 128.0
    ensures v == v.Floor as real ==> New(v).Value() == v && New(v).c == New(v).c.Floor as real
    ensures v == v.Floor as real ==> -128.0 < New(v).c < 128.0
  {
    var a, b, c := RawDigits(v);
    MicroIsClose(c);
    assert New(v).Value() == a as real * 16384.0 + b as real * 128.0 + New(v).c;
    if v == v.Floor as real {
      var n := v.Floor - a * 16384 - b * 128;
      assert c == n as real;
      MicroOfInteger(n);
    } else {
      BoundedMicro(c);
    }
  }

  /** What is left of a magnitude beyond its multiples of 128. */
  function Beyond(v: real): real {
    var m := if v < 0.0 then -v else v;
    m - (m / 128.0).Floor as real * 128.0
  }

  /** The last digit is one, below 128 in magnitude, exactly when it does not round up to 128. */
  lemma LastDigitFitsIff(v: real)
    requires v < -255.0 || 255.0 < v
    ensures -128.0 < New(v).c < 128.0 <==> Beyond(v) < 127.9999995
  {
    var a, b, c := RawDigits(v);
    var m, r := if v < 0.0 then -v else v, if v < 0.0 then -c else c;
    var n := if v < 0.0 then -(a * 128 + b) else a * 128 + b;
    FloorIs(m / 128.0, n);
    assert Beyond(v) == r;
    MicroIsOdd(c);
    MicroBelowIff(r);
  }

  lemma FloorIs(x: real, n: int)
    requires n as real <= x < n as real + 1.0
    ensures x.Floor == n
  {
  }

  lemma MicroIsOdd(c: real)
    ensures ToMicro(-c) == -ToMicro(c)
  {
  }

  lemma MicroBelowIff(r: real)
    requires 0.0 <= r < 128.0
    ensures 0.0 <= ToMicro(r)
    ensures ToMicro(r) < 128.0 <==> r < 127.9999995
  {
    var n := RoundAway(r * 1000000.0);
    assert n as real <= r * 1000000.0 + 0.5 < n as real + 1.0;
    assert ToMicro(r) < 128.0 <==> n < 128000000;
  }

  /** It can round up: the coefficients of 383.9999999 are 0, 2 and 128. */
  lemma LastDigitCanOverflow()
    ensures New(383.9999999) == AprsQuadratic(0.0, 2.0, 128.0, 128)
  {
    var a, b, c := RawDigits(383.9999999);
    assert a == 0 && b == 2 && c == 127.9999999;
    var n := RoundAway(c * 1000000.0);
    assert n == 128000000;
  }

  lemma BoundedMicro(c: real)
    requires -128.0 <= c <= 128.0
    ensures -128.0 <= ToMicro(c) <= 128.0
  {
  }

  /** The encoding inverts exactly outside [-255, -1], where the sign is lost to saturation. */
  lemma InvertsIff(v: real)
    ensures Recovers(v) <==> v > -1.0 || v < -255.0
    ensures (v > -1.0 || v < -255.0) && v == v.Floor as real ==> New(v).Value() == v
  {
    if -255.0 <= v <= 255.0 {
      SmallValues(v);
    } else {
      LargeValues(v);
    }
  }

  //--------- the report --------

  datatype Report = Report(values: seq<nat>, equations: seq<(real, real, real)>)

  /** The T# and EQNS fields of a report. No items at all is a validation error. */
  method ToAprs(items: seq<AprsQuadratic>) returns (r: Option<Report>)
    ensures r.None? <==> items == []
    ensures r.Some? ==> var n := if |items| < 5 then |items| else 5;
              && |r.value.values| == |r.value.equations| == (if n < 4 then 4 else n)
              && (forall i :: 0 <= i < n ==> r.value.values[i] == items[i].x)
              && (forall i :: 0 <= i < n ==> r.value.equations[i] == (items[i].a, items[i].b, items[i].c))
              && (forall i :: n <= i < |r.value.values| ==> r.value.values[i] == 0)
              && (forall i :: n <= i < |r.value.values| ==> r.value.equations[i] == (0.0, 0.0, 0.0))
  {
    if items == [] {
      return None;
    }
    var values: seq<nat>, equations: seq<(real, real, real)> := [], [];
    var i, k := 1, 0;
    while k < |items| && i <= 5
      invariant i == k + 1 && k <= |items| && k <= 5
      invariant |values| == |equations| == k
      invariant forall j :: 0 <= j < k ==> values[j] == items[j].x
      invariant forall j :: 0 <= j < k ==> equations[j] == (items[j].a, items[j].b, items[j].c)
    {
      values := values + [items[k].x];
      equations := equations + [(items[k].a, items[k].b, items[k].c)];
      i, k := i + 1, k + 1;
    }
    ghost var n := k;
    while i < 5
      invariant n <= |values| == |equations|
      invariant |values| == if n < 4 then i - 1 else n
      invariant n + 1 <= i <= (if n < 4 then 5 else n + 1)
      invariant forall j :: 0 <= j < n ==> values[j] == items[j].x
      invariant forall j :: 0 <= j < n ==> equations[j] == (items[j].a, items[j].b, items[j].c)
      invariant forall j :: n <= j < |values| ==> values[j] == 0 && equations[j] == (0.0, 0.0, 0.0)
    {
      values := values + [0];
      equations := equations + [(0.0, 0.0, 0.0)];
      i := i + 1;
    }
    r := Some(Report(values, equations));
  }
}

/**
 * Decimal numerals: Python's `str(n)` for integers, the `int(float(line))`
 * parse of the text reader (for plain decimal numerals), and fixed-point
 * `f"{x:.Nf}"` formatting on exact rationals.
 */
module Numerals {
  import opened Common

  predicate IsDigit(c: char) {
    '0' <= c <= '9'
  }

  predicate AllDigits(s: string) {
    forall i :: 0 <= i < |s| ==> IsDigit(s[i])
  }

  function DigitChar(d: nat): (c: char)
    requires d < 10
    ensures IsDigit(c) && c as int - '0' as int == d
  {
    (('0' as int) + d) as char
  }

  function DigitValue(c: char): nat
    requires IsDigit(c)
  {
    c as int - '0' as int
  }

  /** The value of a string of decimal digits, most significant first. */
  function DigitsValue(s: string): nat
    requires AllDigits(s)
  {
    if |s| == 0 then 0 else DigitsValue(s[..|s| - 1]) * 10 + DigitValue(s[|s| - 1])
  }

  /** Python's `str(n)` for a natural number: no leading zeros. */
  function NatToString(n: nat): (r: string)
    ensures |r| > 0 && AllDigits(r)
    ensures |r| > 1 ==> r[0] != '0'
  {
    if n < 10 then [DigitChar(n)] else NatToString(n / 10) + [DigitChar(n % 10)]
  }

  /** `str(n)` is made of digits and a leading minus sign. */
  lemma IntToStringChars(n: int)
    ensures var r := IntToString(n);
      forall i :: 0 <= i < |r| ==> r[i] == '-' || IsDigit(r[i])
  {
    var r := IntToString(n);
    if n < 0 {
      assert forall i :: 1 <= i < |r| ==> r[i] == r[1..][i - 1];
    }
  }

  /** Python's `str(n)` (and `f"{n}"`) for any integer. */
  function IntToString(n: int): (r: string)
    ensures |r| > 0
    ensures n < 0 <==> r[0] == '-'
    ensures n >= 0 ==> AllDigits(r)
    ensures n < 0 ==> AllDigits(r[1..])
  {
    if n < 0 then "-" + NatToString(-n) else NatToString(n)
  }

  /** Reading back what `NatToString` wrote gives the number. */
  lemma {:induction false} NatToStringValue(n: nat)
    ensures DigitsValue(NatToString(n)) == n
  {
    var r := NatToString(n);
    if n >= 10 {
      NatToStringValue(n / 10);
      assert r[..|r| - 1] == NatToString(n / 10);
    }
  }

  /** Length of the longest prefix of `s` made of digits. */
  function DigitRun(s: string): (k: nat)
    ensures k <= |s| && AllDigits(s[..k])
    ensures k < |s| ==> !IsDigit(s[k])
  {
    if |s| > 0 && IsDigit(s[0]) then
      var k := 1 + DigitRun(s[1..]);
      assert forall i :: 1 <= i < k ==> s[..k][i] == s[1..][..k - 1][i - 1];
      k
    else 0
  }

  /**
   * The magnitude of a decimal numeral `digits[.digits]` truncated toward
   * zero, or None when the string is not such a numeral; at least one digit
   * must appear on one side of the point ("5.", ".5" and "5" are numerals).
   */
  function ParseUnsigned(s: string): Option<nat> {
    var k := DigitRun(s);
    var rest := s[k..];
    if |rest| == 0 then (if k > 0 then Some(DigitsValue(s[..k])) else None)
    else if rest[0] == '.' && AllDigits(rest[1..]) && (k > 0 || |rest| > 1) then Some(DigitsValue(s[..k]))
    else None
  }

  /**
   * `int(float(line))` for a line that is an optionally signed decimal
   * numeral; None where Python raises ValueError. The fraction is dropped,
   * so the result is truncated toward zero.
   */
  function ParseSample(s: string): (r: Option<int>)
    ensures r.Some? ==> |s| > 0
    ensures r.Some? && r.value < 0 ==> s[0] == '-'
  {
    if |s| > 0 && (s[0] == '-' || s[0] == '+') then
      match ParseUnsigned(s[1..])
      case None => None
      case Some(v) => Some(if s[0] == '-' then -(v as int) else v)
    else ParseUnsigned(s)
  }

  /** The sample parser reads back every integer that `str()` wrote. */
  lemma IntToStringParses(n: int)
    ensures ParseSample(IntToString(n)) == Some(n)
  {
    if n < 0 {
      var d := NatToString(-n);
      assert IntToString(n)[1..] == d;
      DigitRunAll(d);
      NatToStringValue(-n);
    } else {
      var d := NatToString(n);
      DigitRunAll(d);
      NatToStringValue(n);
    }
  }

  /**
   * `int(float(line))` of a numeral with a fraction drops the fraction: the
   * value is truncated toward zero, for either sign ("1000.5" reads as 1000,
   * "-7.9" as -7).
   */
  lemma ParseTruncates(n: nat, f: string)
    requires AllDigits(f)
    ensures ParseSample(NatToString(n) + "." + f) == Some(n)
    ensures ParseSample("-" + NatToString(n) + "." + f) == Some(-(n as int))
  {
    var a := NatToString(n);
    var s := a + "." + f;
    DigitRunStops(a, "." + f);
    assert s == a + ("." + f);
    assert s[..|a|] == a && s[|a|..] == "." + f && s[|a|..][1..] == f;
    NatToStringValue(n);
    assert ParseUnsigned(s) == Some(n);
    assert ("-" + NatToString(n) + "." + f)[1..] == s;
  }

  /** The digit run of digits followed by a non-digit is the digits. */
  lemma {:induction false} DigitRunStops(a: string, b: string)
    requires AllDigits(a) && |b| > 0 && !IsDigit(b[0])
    ensures DigitRun(a + b) == |a|
  {
    if |a| > 0 {
      assert (a + b)[1..] == a[1..] + b;
      DigitRunStops(a[1..], b);
    } else {
      assert a + b == b;
    }
  }

  lemma {:induction false} DigitRunAll(s: string)
    requires AllDigits(s)
    ensures DigitRun(s) == |s| && s[..|s|] == s
  {
    if |s| > 0 {
      DigitRunAll(s[1..]);
    }
  }

  function Pow10(d: nat): (p: nat)
    ensures p >= 1
  {
    if d == 0 then 1 else 10 * Pow10(d - 1)
  }

  /**
   * The integer nearest to `x`, ties going to the even neighbour: the rule
   * Python's formatting and `round()` apply to the exact value they print.
   */
  function RoundHalfEven(x: real): (r: int)
    ensures r as real - 0.5 <= x <= r as real + 0.5
    ensures (x == r as real + 0.5 || x == r as real - 0.5) ==> r % 2 == 0
  {
    var f := x.Floor;
    var d := x - f as real;
    if d < 0.5 then f
    else if d > 0.5 then f + 1
    else if f % 2 == 0 then f else f + 1
  }

  function Abs(x: real): real {
    if x < 0.0 then -x else x
  }

  /** `x·10^d`: the decimal point of `x` moved `d` places to the right. */
  function Shift(x: real, d: nat): real {
    x * Pow10(d) as real
  }

  /**
   * `|x|·10^d` rounded to the nearest integer, ties to even: the digits that
   * `f"{x:.{d}f}"` prints.
   */
  function ScaledMagnitude(x: real, d: nat): (n: nat)
    ensures n as real - 0.5 <= Shift(Abs(x), d) <= n as real + 0.5
    ensures (Shift(Abs(x), d) == n as real + 0.5 || Shift(Abs(x), d) == n as real - 0.5) ==> n % 2 == 0
  {
    var y := Shift(Abs(x), d);
    assert y >= 0.0;
    RoundHalfEven(y)
  }

  /**
   * Splits `n` into its integer part `n / 10^d` and its last `d` decimal
   * digits, zero-padded.
   */
  function FracSplit(n: nat, d: nat): (r: (nat, string))
    ensures |r.1| == d && AllDigits(r.1)
  {
    if d == 0 then (n, "")
    else
      var (q, f) := FracSplit(n / 10, d - 1);
      (q, f + [DigitChar(n % 10)])
  }

  /** The unsigned numeral of `n / 10^d` with exactly `d` fractional digits. */
  function UnsignedFixed(n: nat, d: nat): string
    requires d >= 1
  {
    var (q, f) := FracSplit(n, d);
    NatToString(q) + "." + f
  }

  /** Python's `f"{x:.{d}f}"` for a positive precision, on the exact value `x`. */
  function FormatFixed(x: real, d: nat): string
    requires d >= 1
  {
    (if x < 0.0 then "-" else "") + UnsignedFixed(ScaledMagnitude(x, d), d)
  }

  /** The integer part followed by the fractional digits spells `n`. */
  lemma {:induction false} FracSplitValue(n: nat, d: nat)
    ensures var (q, f) := FracSplit(n, d);
      AllDigits(NatToString(q) + f) && DigitsValue(NatToString(q) + f) == n
  {
    var (q, f) := FracSplit(n, d);
    var s := NatToString(q) + f;
    if d == 0 {
      assert s == NatToString(q);
      NatToStringValue(n);
    } else {
      FracSplitValue(n / 10, d - 1);
      var (q', f') := FracSplit(n / 10, d - 1);
      assert q == q' && f == f' + [DigitChar(n % 10)];
      assert s[..|s| - 1] == NatToString(q') + f';
    }
  }

  /**
   * The unsigned numeral is digits, one decimal point and exactly `d` digits,
   * and the digits with the point removed spell `n`.
   */
  lemma UnsignedFixedShape(n: nat, d: nat)
    requires d >= 1
    ensures var u := UnsignedFixed(n, d);
      && |u| >= d + 2
      && u[|u| - d - 1] == '.'
      && AllDigits(u[..|u| - d - 1]) && AllDigits(u[|u| - d..])
      && DigitsValue(u[..|u| - d - 1] + u[|u| - d..]) == n
  {
    var (q, f) := FracSplit(n, d);
    var ip := NatToString(q);
    var u := UnsignedFixed(n, d);
    assert u == ip + "." + f;
    assert u[..|u| - d - 1] == ip;
    assert u[|u| - d..] == f;
    FracSplitValue(n, d);
  }

  /**
   * What `FormatFixed` prints: a minus sign exactly for negative values, then
   * digits, one decimal point followed by exactly `d` digits; the digits with
   * the point removed spell `|x|·10^d` rounded half to even.
   */
  lemma FormatFixedShape(x: real, d: nat)
    requires d >= 1
    ensures var r := FormatFixed(x, d);
      var u := if x < 0.0 then r[1..] else r;
      && (x < 0.0 <==> r[0] == '-')
      && |u| >= d + 2
      && u[|u| - d - 1] == '.'
      && AllDigits(u[..|u| - d - 1]) && AllDigits(u[|u| - d..])
      && DigitsValue(u[..|u| - d - 1] + u[|u| - d..]) == ScaledMagnitude(x, d)
  {
    var n := ScaledMagnitude(x, d);
    UnsignedFixedShape(n, d);
    var r := FormatFixed(x, d);
    var u := UnsignedFixed(n, d);
    assert (if x < 0.0 then r[1..] else r) == u;
    assert u[0] != '-' by {
      assert u[0] == NatToString(FracSplit(n, d).0)[0];
    }
  }

  /** `y` is a whole number. */
  predicate IsWhole(y: real) {
    y.Floor as real == y
  }

  /** `x` has an exact decimal expansion with at most `d` fractional digits. */
  predicate HasDecimals(x: real, d: nat) {
    IsWhole(Shift(x, d))
  }

  /**
   * Python's `repr()` of a float, for values whose exact decimal expansion
   * ends within 17 places: the shortest expansion with at least one
   * fractional digit, printed positionally ("1.0", "0.001953125") when the
   * decimal exponent of its leading digit lies in -4..15 and in exponent
   * form ("6.103515625e-05", "1e+16") otherwise.
   */
  function ReprDecimal(x: real): string {
    var d := ReprPlaces(x, 1);
    var n := ScaledMagnitude(x, d);
    var e := LeadExponent(n, d);
    if n > 0 && (e < -4 || e >= 16) then (if x < 0.0 then "-" else "") + Scientific(n, e)
    else FormatFixed(x, d)
  }

  /** The fewest fractional digits, from `d` up to 17, that express `x` exactly. */
  function ReprPlaces(x: real, d: nat): (p: nat)
    requires 1 <= d <= 17
    ensures d <= p <= 17
    ensures p == 17 || HasDecimals(x, p)
    ensures forall e :: d <= e < p ==> !HasDecimals(x, e)
    decreases 17 - d
  {
    if d == 17 || HasDecimals(x, d) then d else ReprPlaces(x, d + 1)
  }

  /** The decimal exponent of the leading digit of `n·10^-d`. */
  function LeadExponent(n: nat, d: nat): int {
    |NatToString(n)| - 1 - d
  }

  /** `str(n)` has one digit more than the exponent of `n`'s leading digit. */
  lemma {:induction false} NatToStringLength(n: nat)
    requires n > 0
    ensures Pow10(|NatToString(n)| - 1) <= n < Pow10(|NatToString(n)|)
  {
    if n >= 10 {
      NatToStringLength(n / 10);
      var l := |NatToString(n)|;
      assert l - 1 == |NatToString(n / 10)|;
      assert Pow10(l - 1) == 10 * Pow10(l - 2);
      assert Pow10(l) == 10 * Pow10(l - 1);
    }
  }

  /** `s` with its trailing zeros dropped, keeping at least one character. */
  function DropTrailingZeros(s: string): (r: string)
    ensures |r| <= |s| && r == s[..|r|]
    ensures |s| > 0 ==> |r| > 0
    ensures |r| > 1 ==> r[|r| - 1] != '0'
    ensures forall i :: |r| <= i < |s| ==> s[i] == '0'
  {
    if |s| > 1 && s[|s| - 1] == '0' then DropTrailingZeros(s[..|s| - 1]) else s
  }

  /** The exponent digits of `repr`: at least two, zero-padded. */
  function ExponentDigits(k: nat): (r: string)
    ensures |r| >= 2 && AllDigits(r) && DigitsValue(r) == k
  {
    if k < 10 then
      assert DigitsValue(['0']) == 0;
      ['0', DigitChar(k)]
    else
      NatToStringValue(k);
      NatToString(k)
  }

  /**
   * The exponent form: the significant digits of `n` with a point after the
   * first (none when there is one digit), then `e`, the exponent's sign and
   * its digits.
   */
  function Scientific(n: nat, e: int): string
    requires n > 0
  {
    Mantissa(DropTrailingZeros(NatToString(n))) + "e"
      + (if e < 0 then "-" else "+") + ExponentDigits(if e < 0 then -e else e)
  }

  /** A leading digit, then a point and the rest when there is a rest. */
  function Mantissa(sig: string): (r: string)
    requires |sig| > 0
    ensures |r| == if |sig| > 1 then |sig| + 1 else 1
    ensures r[0] == sig[0]
    ensures |sig| > 1 ==> r[1] == '.' && r[2..] == sig[1..]
  {
    [sig[0]] + (if |sig| > 1 then "." + sig[1..] else "")
  }

  /**
   * What the exponent form prints: a nonzero leading digit, then a point and
   * the other significant digits (when there are any), then `e`, the sign of
   * the exponent and at least two digits spelling its magnitude. The
   * significant digits followed by the zeros dropped spell `n`.
   */
  lemma ScientificShape(n: nat, e: int)
    requires n > 0
    ensures var r := Scientific(n, e);
      var sig := DropTrailingZeros(NatToString(n));
      var m := if |sig| > 1 then |sig| + 1 else 1;
      && |r| >= m + 4
      && r[0] == sig[0] && IsDigit(r[0]) && r[0] != '0'
      && (|sig| > 1 ==> r[1] == '.' && r[2..m] == sig[1..])
      && r[m] == 'e'
      && (r[m + 1] == '-' <==> e < 0) && (r[m + 1] == '+' <==> e >= 0)
      && AllDigits(r[m + 2..]) && DigitsValue(r[m + 2..]) == (if e < 0 then -e else e)
      && DigitsValue(sig) * Pow10(|NatToString(n)| - |sig|) == n
  {
    var sig := DropTrailingZeros(NatToString(n));
    SignificantDigits(n);
    var mant := Mantissa(sig);
    var sg := if e < 0 then "-" else "+";
    var x := ExponentDigits(if e < 0 then -e else e);
    Layout(mant, sg, x);
    if |sig| > 1 {
      assert Scientific(n, e)[2..|mant|] == mant[2..];
    }
  }

  /** Where the parts of `mant + "e" + sg + x` sit. */
  lemma Layout(mant: string, sg: string, x: string)
    requires |mant| > 0 && |sg| == 1
    ensures var r := mant + "e" + sg + x;
      && |r| == |mant| + 2 + |x|
      && r[..|mant|] == mant
      && r[|mant|] == 'e' && r[|mant| + 1] == sg[0]
      && r[|mant| + 2..] == x
  {
  }

  /** The significant digits of `str(n)`, for positive `n`, and their value. */
  lemma SignificantDigits(n: nat)
    requires n > 0
    ensures var s := NatToString(n);
      var sig := DropTrailingZeros(s);
      && |sig| > 0 && AllDigits(sig) && sig[0] != '0'
      && DigitsValue(sig) * Pow10(|s| - |sig|) == n
  {
    var s := NatToString(n);
    var sig := DropTrailingZeros(s);
    if |s| == 1 {
      assert s == [DigitChar(n)];
    }
    DigitsValueZeros(s, |sig|);
    NatToStringValue(n);
  }

  /** Zeros after the first `k` digits multiply their value by a power of ten. */
  lemma {:induction false} DigitsValueZeros(s: string, k: nat)
    requires k <= |s| && AllDigits(s)
    requires forall i :: k <= i < |s| ==> s[i] == '0'
    ensures AllDigits(s[..k])
    ensures DigitsValue(s) == DigitsValue(s[..k]) * Pow10(|s| - k)
    decreases |s|
  {
    assert forall i :: 0 <= i < k ==> s[..k][i] == s[i];
    if k < |s| {
      var t := s[..|s| - 1];
      assert t[..k] == s[..k];
      DigitsValueZeros(t, k);
      var v := DigitsValue(s[..k]);
      var p := Pow10(|t| - k);
      assert DigitsValue(s) == DigitsValue(t) * 10 + DigitValue(s[|s| - 1]);
      assert DigitValue(s[|s| - 1]) == 0;
      assert DigitsValue(t) == v * p;
      assert Pow10(|s| - k) == 10 * p;
      assert v * p * 10 == v * (10 * p);
    } else {
      assert s[..k] == s;
    }
  }

  /**
   * `repr` prints a value with exactly as many fractional digits as its
   * shortest exact decimal expansion needs (at least one), positionally when
   * the exponent of its leading digit lies in -4..15 and in exponent form
   * otherwise; `e` is that exponent.
   */
  lemma ReprShortest(x: real, d: nat)
    requires 1 <= d <= 17 && HasDecimals(x, d)
    requires forall e :: 1 <= e < d ==> !HasDecimals(x, e)
    ensures var n := ScaledMagnitude(x, d);
      var e := LeadExponent(n, d);
      && (n > 0 ==> Pow10(e + d) <= n < Pow10(e + d + 1))
      && (n == 0 || -4 <= e < 16 ==> ReprDecimal(x) == FormatFixed(x, d))
      && (n > 0 && (e < -4 || e >= 16) ==>
            ReprDecimal(x) == (if x < 0.0 then "-" else "") + Scientific(n, e))
  {
    assert ReprPlaces(x, 1) == d;
    var n := ScaledMagnitude(x, d);
    if n > 0 {
      NatToStringLength(n);
    }
  }

  /**
   * A value with an exact `d`-digit expansion is printed without rounding:
   * the printed digits spell exactly `|x|·10^d`.
   */
  lemma FormatFixedExact(x: real, d: nat)
    requires d >= 1 && HasDecimals(x, d)
    ensures ScaledMagnitude(x, d) as real == Shift(Abs(x), d)
  {
    var y := Shift(x, d);
    var k := y.Floor;
    var m := Shift(Abs(x), d);
    AbsScale(x, Pow10(d) as real);
    assert m == Abs(y);
    var w := if y < 0.0 then -k else k;
    assert w as real == m;
    var n := ScaledMagnitude(x, d);
    assert n - 1 < w < n + 1;
  }

  lemma AbsScale(x: real, p: real)
    requires p > 0.0
    ensures Abs(x) * p == Abs(x * p)
  {
    if x < 0.0 {
      assert x * p < 0.0;
    } else {
      assert x * p >= 0.0;
    }
  }

  /** `f"{x:.{d}f}"` is made of digits, a leading minus sign and one point. */
  lemma FixedChars(x: real, d: nat)
    requires d >= 1
    ensures var f := FormatFixed(x, d);
      forall i :: 0 <= i < |f| ==> f[i] == '-' || f[i] == '.' || IsDigit(f[i])
  {
    var f := FormatFixed(x, d);
    FormatFixedShape(x, d);
    var u := if x < 0.0 then f[1..] else f;
    PointedDigits(u, |u| - d - 1);
    assert forall i :: 0 <= i < |f| ==> f[i] == '-' || f[i] == u[if x < 0.0 then i - 1 else i];
  }

  /** Digits, a point at `k`, and digits again. */
  lemma PointedDigits(u: string, k: nat)
    requires k < |u| && u[k] == '.' && AllDigits(u[..k]) && AllDigits(u[k + 1..])
    ensures forall j :: 0 <= j < |u| ==> u[j] == '.' || IsDigit(u[j])
  {
    forall j | 0 <= j < |u|
      ensures u[j] == '.' || IsDigit(u[j])
    {
      if j < k {
        assert u[j] == u[..k][j];
      } else if j > k {
        assert u[j] == u[k + 1..][j - k - 1];
      }
    }
  }
}

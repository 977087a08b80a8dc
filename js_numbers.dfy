/**
 * The pieces of JavaScript number handling the handlers rely on, written out
 * over Dafny's unbounded integers and exact reals: `Math.round`, the `%`
 * operator, `String(n)` of an integer, `Number.prototype.toFixed(1)` and
 * `parseInt`.
 */
module JsNumbers {
  import opened Common

  /** `Math.round`: the nearest integer, a half rounded up towards +infinity. */
  function Round(x: real): (n: int)
    ensures x - 0.5 < n as real <= x + 0.5
  {
    (x + 0.5).Floor
  }

  /** The `%` operator on integers: truncating, so the result has the dividend's sign. */
  function Rem(k: int, n: int): (r: int)
    requires n > 0
    ensures k >= 0 ==> 0 <= r < n
    ensures k < 0 ==> -n < r <= 0
    ensures (k - r) % n == 0
  {
    if k >= 0 then
      MultipleRem(n, k / n);
      assert k - k % n == n * (k / n);
      k % n
    else
      MultipleRem(n, -((-k) / n));
      assert -k - (-k) % n == n * ((-k) / n);
      assert k + (-k) % n == n * -((-k) / n);
      -((-k) % n)
  }

  /** A whole multiple of `n` leaves no remainder. */
  lemma MultipleRem(n: int, q: int)
    requires n > 0
    ensures (n * q) % n == 0
  {
    var p := n * q;
    var d, m := p / n, p % n;
    assert p == n * d + m && 0 <= m < n;
    assert n * q - n * d == n * (q - d);
    if q - d >= 1 {
      MulAtLeast(n, q - d);
    } else if q - d <= -1 {
      MulAtMost(n, q - d);
    }
  }

  /** `n` times a positive integer is at least `n`. */
  lemma MulAtLeast(n: int, x: int)
    requires n > 0 && x >= 1
    ensures n * x >= n
  {
  }

  /** `n` times a negative integer is at most `-n`. */
  lemma MulAtMost(n: int, x: int)
    requires n > 0 && x <= -1
    ensures n * x <= -n
  {
  }

  /** The `%` operator on doubles: `a - n * trunc(a / n)`, with the sign of `a`. */
  function RealRem(a: real, n: real): (r: real)
    requires n > 0.0
    ensures a >= 0.0 ==> 0.0 <= r < n
    ensures a < 0.0 ==> -n < r <= 0.0
    ensures ((a - r) / n).Floor as real == (a - r) / n
  {
    if a >= 0.0 then
      var t := (a / n).Floor;
      RemBounds(a, n, t);
      a - n * t as real
    else
      var t := (-a / n).Floor;
      RemBounds(-a, n, t);
      NegatedRem(-a, n, t);
      -(-a - n * t as real)
  }

  /** Negating both the dividend and the remainder negates the quotient. */
  lemma NegatedRem(b: real, n: real, t: int)
    requires n > 0.0 && (b - (b - n * t as real)) / n == t as real
    ensures (-b - -(b - n * t as real)) / n == (-t) as real
  {
    var rest := b - n * t as real;
    assert -b - -rest == -(b - rest);
    assert (-(b - rest)) / n == -((b - rest) / n);
  }

  /** Taking `floor(a / n)` multiples of `n` from `a` leaves a value in `[0, n)`. */
  lemma RemBounds(a: real, n: real, t: int)
    requires a >= 0.0 && n > 0.0 && t == (a / n).Floor
    ensures 0.0 <= a - n * t as real < n
    ensures (a - (a - n * t as real)) / n == t as real
  {
    var q := a / n;
    var tr := t as real;
    var up := tr + 1.0;
    assert tr <= q < up;
    assert n * q == a;
    MulMonotone(n, tr, q);
    MulStrict(n, q, up);
    assert n * up == n * tr + n;
  }

  /** Multiplying by a positive number keeps the order. */
  lemma MulMonotone(n: real, x: real, y: real)
    requires n > 0.0 && x <= y
    ensures n * x <= n * y
  {
  }

  /** Multiplying by a positive number keeps the strict order. */
  lemma MulStrict(n: real, x: real, y: real)
    requires n > 0.0 && x < y
    ensures n * x < n * y
  {
  }

  predicate IsDigit(c: char) {
    '0' <= c <= '9'
  }

  function DigitChar(d: nat): (c: char)
    requires d < 10
    ensures IsDigit(c) && c as int - '0' as int == d
  {
    "0123456789"[d]
  }

  /** `String(n)` for a non-negative integer: its decimal digits, no leading zero. */
  function NatToString(n: nat): (s: string)
    ensures |s| >= 1
    ensures forall i :: 0 <= i < |s| ==> IsDigit(s[i])
    ensures |s| > 1 ==> s[0] != '0'
    ensures n < 10 <==> |s| == 1
    decreases n
  {
    if n < 10 then [DigitChar(n)] else NatToString(n / 10) + [DigitChar(n % 10)]
  }

  /** `String(i)` for any integer: a minus sign before the digits of a negative one. */
  function IntToString(i: int): (s: string)
    ensures |s| >= 1
    ensures i < 0 ==> |s| >= 2 && s[0] == '-'
    ensures i >= 0 ==> IsDigit(s[0])
  {
    if i < 0 then "-" + NatToString(-i) else NatToString(i)
  }

  /** The number a string of decimal digits denotes; the reading side of `NatToString`. */
  function DigitsValue(s: string): (n: nat)
    requires forall i :: 0 <= i < |s| ==> IsDigit(s[i])
  {
    if s == [] then 0
    else
      assert IsDigit(s[|s| - 1]);
      10 * DigitsValue(s[..|s| - 1]) + (s[|s| - 1] as int - '0' as int)
  }

  /** Printing a non-negative integer and reading the digits back gives it back. */
  lemma {:induction false} NatToStringRoundTrip(n: nat)
    ensures DigitsValue(NatToString(n)) == n
    decreases n
  {
    var s := NatToString(n);
    if n >= 10 {
      NatToStringRoundTrip(n / 10);
      assert s[..|s| - 1] == NatToString(n / 10);
    }
  }

  /**
   * `x.toFixed(1)` for a non-negative `x` below 1e21: the integer `n` nearest
   * to `10 * x` (the larger one on a tie), printed with a point before its last digit.
   */
  function FixedOne(x: real): (s: string)
    requires x >= 0.0
  {
    var n := Round(x * 10.0);
    NatToString(n / 10) + "." + [DigitChar(n % 10)]
  }

  /** The text `toFixed(1)` prints denotes a number within 0.05 of `x`. */
  lemma FixedOneAccurate(x: real)
    requires x >= 0.0
    ensures var n := Round(x * 10.0);
            && n >= 0
            && FixedOne(x) == NatToString(n / 10) + "." + [DigitChar(n % 10)]
            && DigitsValue(NatToString(n / 10)) == n / 10
            && -0.05 < (10 * (n / 10) + n % 10) as real / 10.0 - x <= 0.05
  {
    var n := Round(x * 10.0);
    NatToStringRoundTrip(n / 10);
    assert 10 * (n / 10) + n % 10 == n;
  }

  /** The result of `parseInt`: an integer, or NaN when no digit could be read. */
  datatype ParsedInt = Int(n: int) | NaN

  /** The white space `parseInt` skips before the number. */
  predicate IsJsSpace(c: char) {
    c == ' ' || c == '\t' || c == '\n' || c == '\r' || c == '\U{000B}' || c == '\U{000C}'
    || c == '\U{00A0}' || c == '\U{FEFF}' || c == '\U{2028}' || c == '\U{2029}'
  }

  function TrimStart(s: string): (r: string)
    ensures |r| <= |s| && r == s[|s| - |r|..]
    ensures r != [] ==> !IsJsSpace(r[0])
    ensures forall i :: 0 <= i < |s| - |r| ==> IsJsSpace(s[i])
  {
    if s != [] && IsJsSpace(s[0]) then TrimStart(s[1..]) else s
  }

  /** The value of `c` as a digit in base `radix` (10 or 16), if it is one. */
  function DigitIn(c: char, radix: nat): Option<nat> {
    if '0' <= c <= '9' then Some(c as int - '0' as int)
    else if radix == 16 && 'a' <= c <= 'f' then Some(c as int - 'a' as int + 10)
    else if radix == 16 && 'A' <= c <= 'F' then Some(c as int - 'A' as int + 10)
    else None
  }

  /** Length of the longest prefix of `s` made of digits in base `radix`. */
  function DigitRun(s: string, radix: nat): (k: nat)
    ensures k <= |s|
    ensures forall i :: 0 <= i < k ==> DigitIn(s[i], radix).Some?
    ensures k < |s| ==> DigitIn(s[k], radix).None?
  {
    if s != [] && DigitIn(s[0], radix).Some? then 1 + DigitRun(s[1..], radix) else 0
  }

  /** The value of a run of digits in base `radix`, most significant first. */
  function RunValue(s: string, radix: nat): nat
    requires forall i :: 0 <= i < |s| ==> DigitIn(s[i], radix).Some?
  {
    if s == [] then 0 else radix * RunValue(s[..|s| - 1], radix) + DigitIn(s[|s| - 1], radix).value
  }

  /**
   * `parseInt(s)` with no radix: skip leading white space, read an optional
   * sign, switch to base 16 after `0x` or `0X`, and read the longest run of
   * digits; NaN when that run is empty.
   */
  function ParseInt(s: string): ParsedInt {
    var t := TrimStart(s);
    if t != [] && t[0] == '-' then
      match ParseMagnitude(t[1..])
      case Int(v) => Int(-v)
      case NaN => NaN
    else if t != [] && t[0] == '+' then ParseMagnitude(t[1..])
    else ParseMagnitude(t)
  }

  /** The unsigned part of `parseInt`: a hexadecimal run after `0x`, a decimal run otherwise. */
  function ParseMagnitude(u: string): ParsedInt {
    if |u| >= 2 && u[0] == '0' && (u[1] == 'x' || u[1] == 'X') then ParseRun(u[2..], 16)
    else ParseRun(u, 10)
  }

  /** The value of the longest run of digits starting `body`, or NaN when there is none. */
  function ParseRun(body: string, radix: nat): ParsedInt {
    var k := DigitRun(body, radix);
    if k == 0 then NaN else Int(RunValue(body[..k], radix))
  }

  /** On decimal digits, base-10 `RunValue` is `DigitsValue`. */
  lemma {:induction false} RunValueDecimal(s: string)
    requires forall i :: 0 <= i < |s| ==> IsDigit(s[i])
    ensures forall i :: 0 <= i < |s| ==> DigitIn(s[i], 10).Some?
    ensures RunValue(s, 10) == DigitsValue(s)
  {
    if s != [] {
      RunValueDecimal(s[..|s| - 1]);
    }
  }

  /** A string made only of digits is one run of digits. */
  lemma {:induction false} DigitRunWhole(s: string)
    requires forall i :: 0 <= i < |s| ==> IsDigit(s[i])
    ensures DigitRun(s, 10) == |s|
  {
    if s != [] {
      assert IsDigit(s[0]);
      DigitRunWhole(s[1..]);
    }
  }

  /** A run of decimal digits reads as the number it denotes. */
  lemma ParseRunDigits(digits: string)
    requires |digits| >= 1 && forall i :: 0 <= i < |digits| ==> IsDigit(digits[i])
    ensures ParseRun(digits, 10) == Int(DigitsValue(digits))
  {
    DigitRunWhole(digits);
    RunValueDecimal(digits);
    assert digits[..|digits|] == digits;
  }

  /** `parseInt` of decimal digits with no leading zero. */
  lemma ParseUnsigned(digits: string)
    requires |digits| >= 1 && forall i :: 0 <= i < |digits| ==> IsDigit(digits[i])
    requires |digits| > 1 ==> digits[0] != '0'
    ensures ParseInt(digits) == Int(DigitsValue(digits))
  {
    assert IsDigit(digits[0]) && !IsJsSpace(digits[0]);
    assert TrimStart(digits) == digits;
    assert ParseInt(digits) == ParseMagnitude(digits);
    assert ParseMagnitude(digits) == ParseRun(digits, 10);
    ParseRunDigits(digits);
  }

  /** After a leading minus sign, `parseInt` negates what the rest reads as. */
  lemma ParseAfterMinus(digits: string)
    requires |digits| >= 1 && IsDigit(digits[0])
    ensures ParseInt("-" + digits)
            == match ParseMagnitude(digits) case Int(v) => Int(-v) case NaN => NaN
  {
    var s := "-" + digits;
    assert TrimStart(s) == s;
    assert s[1..] == digits;
  }

  /** `parseInt` of a minus sign followed by decimal digits with no leading zero. */
  lemma ParseNegative(digits: string)
    requires |digits| >= 1 && forall i :: 0 <= i < |digits| ==> IsDigit(digits[i])
    requires |digits| > 1 ==> digits[0] != '0'
    ensures ParseInt("-" + digits) == Int(-(DigitsValue(digits) as int))
  {
    ParseUnsignedMagnitude(digits);
    ParseAfterMinus(digits);
  }

  /** Decimal digits with no leading zero read as their value, with no hexadecimal prefix. */
  lemma ParseUnsignedMagnitude(digits: string)
    requires |digits| >= 1 && forall i :: 0 <= i < |digits| ==> IsDigit(digits[i])
    requires |digits| > 1 ==> digits[0] != '0'
    ensures ParseMagnitude(digits) == Int(DigitsValue(digits))
  {
    ParseRunDigits(digits);
    assert ParseMagnitude(digits) == ParseRun(digits, 10);
  }

  /** After the white space, the text starts with neither a sign nor a digit (or is empty). */
  predicate NotNumeric(s: string) {
    var t := TrimStart(s);
    t == [] || (t[0] != '-' && t[0] != '+' && !IsDigit(t[0]))
  }

  /** Text that does not start with a sign or a digit reads as NaN. */
  lemma ParseNotNumeric(s: string)
    requires NotNumeric(s)
    ensures ParseInt(s) == NaN
  {
    var t := TrimStart(s);
    assert ParseInt(s) == ParseMagnitude(t);
    assert ParseMagnitude(t) == ParseRun(t, 10);
    assert t != [] ==> DigitIn(t[0], 10).None?;
  }

  /** `parseInt` reads back what `String` prints for every integer. */
  lemma ParseIntRoundTrip(i: int)
    ensures ParseInt(IntToString(i)) == Int(i)
  {
    var m: nat := if i < 0 then -i else i;
    var digits := NatToString(m);
    NatToStringRoundTrip(m);
    if i < 0 {
      ParseNegative(digits);
      assert ParseInt("-" + digits) == Int(i);
      assert IntToString(i) == "-" + digits;
    } else {
      ParseUnsigned(digits);
      assert ParseInt(digits) == Int(i);
      assert IntToString(i) == digits;
    }
  }
}

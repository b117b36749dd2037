/**
 * The slice of PHP's value semantics the codec depends on: loose truthiness
 * (`if ($x)`, `empty($x)`), the `(float)` and `(bool)` casts of strings, the
 * coercion of an argument to a `float` parameter, and `number_format($x, 1)`.
 * Numbers are exact reals; strings are read with a restricted decimal grammar
 * (optional sign, digits, optional fraction).
 */
module Php {
  import opened Wrappers
  import opened Exceptions

  /** A PHP scalar: null, bool, int or float (both as an exact real), string. */
  datatype Value = Null | Bool(b: bool) | Num(r: real) | Str(s: string)

  /** `empty($s)` for a string: only "" and "0" are falsy. */
  predicate FalsyString(s: string)
  {
    s == "" || s == "0"
  }

  /** `(bool) $v`. */
  predicate Truthy(v: Value)
  {
    match v
    case Null => false
    case Bool(b) => b
    case Num(r) => r != 0.0
    case Str(s) => !FalsyString(s)
  }

  /** `json_encode` of a boolean. */
  function JsonBool(b: bool): string
  {
    if b then "true" else "false"
  }

  predicate IsDigit(c: char)
  {
    '0' <= c <= '9'
  }

  /** Length of the run of decimal digits that starts `s`. */
  function DigitRun(s: string): (n: nat)
    ensures n <= |s|
    ensures forall i | 0 <= i < n :: IsDigit(s[i])
    ensures n < |s| ==> !IsDigit(s[n])
  {
    if |s| == 0 || !IsDigit(s[0]) then 0 else 1 + DigitRun(s[1..])
  }

  function DigitValue(c: char): nat
    requires IsDigit(c)
  {
    c as int - '0' as int
  }

  /** The value of a string of decimal digits ("" reads as 0). */
  function NatValue(s: string): nat
    requires forall i | 0 <= i < |s| :: IsDigit(s[i])
  {
    if |s| == 0 then 0 else NatValue(s[..|s| - 1]) * 10 + DigitValue(s[|s| - 1])
  }

  function Pow10(k: nat): (p: nat)
    ensures p >= 1
  {
    if k == 0 then 1 else 10 * Pow10(k - 1)
  }

  /** The leading decimal number of a string: its value and how many characters it spans. */
  datatype Scan = Scan(value: real, length: nat)

  function LeadingNumber(s: string): (sc: Scan)
    ensures sc.length <= |s|
    ensures sc.length == 0 ==> sc.value == 0.0
  {
    var sign := if |s| > 0 && (s[0] == '-' || s[0] == '+') then 1 else 0;
    var intLen := DigitRun(s[sign..]);
    var dot := sign + intLen;
    var hasDot := dot < |s| && s[dot] == '.';
    var fracLen := if hasDot then DigitRun(s[dot + 1..]) else 0;
    if intLen + fracLen == 0 then Scan(0.0, 0)
    else
      DigitRunSlice(s, sign, dot);
      var whole := NatValue(s[sign..dot]);
      var frac := if hasDot then DigitRunSlice(s, dot + 1, dot + 1 + fracLen); NatValue(s[dot + 1..dot + 1 + fracLen]) else 0;
      var magnitude := whole as real + frac as real / Pow10(fracLen) as real;
      Scan(if sign == 1 && s[0] == '-' then -magnitude else magnitude,
           if hasDot then dot + 1 + fracLen else dot)
  }

  /** The digit run from `start` to `stop` is a string of digits. */
  lemma DigitRunSlice(s: string, start: nat, stop: nat)
    requires start <= |s| && stop == start + DigitRun(s[start..])
    ensures stop <= |s| && forall i | 0 <= i < stop - start :: IsDigit(s[start..stop][i])
  {
    forall i | 0 <= i < stop - start
      ensures IsDigit(s[start..stop][i])
    {
      assert s[start..stop][i] == s[start..][i];
    }
  }

  /** `(float) $v`: a string without a leading number casts to 0. */
  function FloatCast(v: Value): real
  {
    match v
    case Null => 0.0
    case Bool(b) => if b then 1.0 else 0.0
    case Num(r) => r
    case Str(s) => LeadingNumber(s).value
  }

  /**
   * Passing `v` to a parameter declared `float` (coercive typing mode): null and
   * strings with no leading number raise a TypeError; everything else arrives
   * as its `(float)` cast.
   */
  function FloatParam(v: Value): (r: Outcome<real>)
    ensures r.Success? ==> r.value == FloatCast(v)
    ensures r.Failure? <==> v.Null? || (v.Str? && LeadingNumber(v.s).length == 0)
    ensures r.Failure? ==> r.error.TypeError?
  {
    match v
    case Null => Failure(TypeError("Argument #1 ($dpr) must be of type float, null given"))
    case Str(s) =>
      if LeadingNumber(s).length == 0 then Failure(TypeError("Argument #1 ($dpr) must be of type float, string given"))
      else Success(LeadingNumber(s).value)
    case _ => Success(FloatCast(v))
  }

  function DigitChar(d: nat): char
    requires d < 10
  {
    ('0' as int + d) as char
  }

  function NatToString(n: nat): (s: string)
    ensures |s| >= 1
    ensures forall i | 0 <= i < |s| :: IsDigit(s[i])
  {
    if n < 10 then [DigitChar(n)] else NatToString(n / 10) + [DigitChar(n % 10)]
  }

  /** Three digits with leading zeros, for a group after a thousands separator. */
  function ThreeDigits(n: nat): string
    requires n < 1000
  {
    [DigitChar(n / 100), DigitChar(n / 10 % 10), DigitChar(n % 10)]
  }

  /** The whole part with "," between groups of three, as number_format writes it. */
  function Grouped(n: nat): string
  {
    if n < 1000 then NatToString(n) else Grouped(n / 1000) + "," + ThreeDigits(n % 1000)
  }

  /**
   * `number_format($x, 1)`: rounded half away from zero to one decimal, "." as
   * decimal point, "," between thousands, and never "-0.0".
   */
  function OneDecimal(x: real): string
  {
    var tenths := (if x < 0.0 then -x else x) * 10.0 + 0.5;
    var n: nat := tenths.Floor;
    (if x < 0.0 && n != 0 then "-" else "") + Grouped(n / 10) + "." + [DigitChar(n % 10)]
  }

  /** A value k/10 with 1 <= k <= 50 is written as its two digits around ".". */
  lemma OneDecimalShape(n: nat)
    requires 1 <= n <= 50
    ensures OneDecimal(n as real / 10.0) == [DigitChar(n / 10), '.', DigitChar(n % 10)]
  {
    var x := n as real / 10.0;
    assert x * 10.0 + 0.5 == n as real + 0.5;
    assert (x * 10.0 + 0.5).Floor == n;
    assert Grouped(n / 10) == [DigitChar(n / 10)];
  }

  /** Reading back a validated dpr value written with one decimal gives the value itself. */
  lemma OneDecimalRoundTrip(n: nat)
    requires 1 <= n <= 50
    ensures LeadingNumber(OneDecimal(n as real / 10.0)) == Scan(n as real / 10.0, 3)
  {
    var x := n as real / 10.0;
    var s := OneDecimal(x);
    OneDecimalShape(n);
    assert s[0..] == s && s[1..][0] == '.';
    assert DigitRun(s[0..]) == 1 + DigitRun(s[1..]);
    assert s[2..] == [DigitChar(n % 10)];
    assert DigitRun(s[2..]) == 1;
    assert s[0..1] == [DigitChar(n / 10)];
    assert NatValue(s[0..1]) == n / 10 by {
      assert s[0..1][..0] == [];
    }
    assert s[2..3] == [DigitChar(n % 10)];
    assert NatValue(s[2..3]) == n % 10 by {
      assert s[2..3][..0] == [];
    }
    assert (n / 10) as real + (n % 10) as real / 10.0 == x;
  }
}

/** Python's `float(s)` on decimal text: surrounding whitespace is ignored, then
    an optional sign, digits with an optional fraction, and an optional
    exponent. Anything else raises `ValueError`, modelled as `None`. */
module Numbers {
  import opened Wrappers
  import opened Strings

  function Pow10(k: nat): (r: real)
    ensures r >= 1.0
  {
    if k == 0 then 1.0 else 10.0 * Pow10(k - 1)
  }

  /** Number of decimal digits at the start of `s`. */
  function DigitRun(s: string): (n: nat)
    ensures n <= |s| && IsDigits(s[..n])
    ensures n < |s| ==> !('0' <= s[n] <= '9')
  {
    if s == [] || !('0' <= s[0] <= '9') then 0
    else
      var n := 1 + DigitRun(s[1..]);
      assert s[..n] == [s[0]] + s[1..][..n - 1];
      n
  }

  /** The exponent part after `e`/`E`: an optional sign and at least one digit,
      and nothing after them. */
  function ParseExponent(s: string): Option<int>
  {
    var neg := s != [] && s[0] == '-';
    var body := if s != [] && (s[0] == '-' || s[0] == '+') then s[1..] else s;
    if body != [] && DigitRun(body) == |body| then
      assert body[..|body|] == body;
      var v: int := DigitsValue(body);
      Some(if neg then -v else v)
    else None
  }

  /** `x` times ten to the power `e`. */
  function Scale(x: real, e: int): real
  {
    if e >= 0 then x * Pow10(e) else x / Pow10(-e)
  }

  /** The value of `intDigits.fracDigits`. */
  function MantissaValue(intDigits: string, fracDigits: string): real
    requires IsDigits(intDigits) && IsDigits(fracDigits)
  {
    DigitsValue(intDigits) as real + DigitsValue(fracDigits) as real / Pow10(|fracDigits|)
  }

  /** What follows the integer digits: an optional `.` and fraction digits,
      then an optional exponent; `None` when anything else is left over. */
  function ParseAfterDigits(intDigits: string, rest: string): Option<real>
    requires IsDigits(intDigits)
  {
    var hasDot := rest != [] && rest[0] == '.';
    var afterDot := if hasDot then rest[1..] else rest;
    var f := if hasDot then DigitRun(afterDot) else 0;
    var tail := afterDot[f..];
    if |intDigits| + f == 0 then None
    else
      var m := MantissaValue(intDigits, afterDot[..f]);
      if tail == [] then Some(m)
      else if tail[0] == 'e' || tail[0] == 'E' then
        match ParseExponent(tail[1..])
        case None => None
        case Some(e) => Some(Scale(m, e))
      else None
  }

  /** An unsigned decimal: `digits[.digits]` or `.digits`, then an optional exponent. */
  function ParseUnsigned(s: string): Option<real>
  {
    var n := DigitRun(s);
    ParseAfterDigits(s[..n], s[n..])
  }

  /** A signed decimal with no surrounding whitespace. */
  function ParseSigned(t: string): Option<real>
  {
    if t != [] && t[0] == '-' then
      match ParseUnsigned(t[1..])
      case None => None
      case Some(v) => Some(-v)
    else if t != [] && t[0] == '+' then ParseUnsigned(t[1..])
    else ParseUnsigned(t)
  }

  /** Python's `float(s)` for decimal text (`None` where it raises `ValueError`). */
  function ParseFloat(s: string): Option<real>
  {
    ParseSigned(Strip(s))
  }

  lemma DigitRunAll(s: string)
    requires IsDigits(s)
    ensures DigitRun(s) == |s|
  {
    if s != [] {
      DigitRunAll(s[1..]);
    }
  }

  /** A digit string reads as its value. */
  lemma ParseUnsignedDigits(s: string)
    requires s != [] && IsDigits(s)
    ensures ParseUnsigned(s) == Some(DigitsValue(s) as real)
  {
    DigitRunAll(s);
    assert s[..|s|] == s;
    assert s[|s|..] == [];
  }

  /** Digit strings need no stripping and are read whole. */
  lemma ParseFloatDigits(s: string)
    requires s != [] && IsDigits(s)
    ensures ParseFloat(s) == Some(DigitsValue(s) as real)
  {
    assert '0' <= s[0] <= '9' && '0' <= s[|s| - 1] <= '9';
    StripNoOp(s);
    ParseUnsignedDigits(s);
  }

  /** A minus sign followed by digits reads as the negated value of the
      digits. */
  lemma ParseFloatNegDigits(t: string)
    requires |t| >= 2 && t[0] == '-' && IsDigits(t[1..])
    ensures ParseFloat(t) == Some(-(DigitsValue(t[1..]) as real))
  {
    var s := t[1..];
    assert t[|t| - 1] == s[|s| - 1];
    StripNoOp(t);
    ParseUnsignedDigits(s);
  }

  /** `float(str(n)) == n`: the decimal text of a natural number reads back as
      that number. */
  lemma ParseFloatOfNat(n: nat)
    ensures ParseFloat(NatToString(n)) == Some(n as real)
  {
    NatToStringRoundTrip(n);
    ParseFloatDigits(NatToString(n));
  }

  lemma {:induction false} DigitRunPrefix(i: string, rest: string)
    requires IsDigits(i)
    ensures DigitRun(i + rest) == |i| + DigitRun(rest)
  {
    if i != [] {
      assert (i + rest)[1..] == i[1..] + rest;
      DigitRunPrefix(i[1..], rest);
    } else {
      assert i + rest == rest;
    }
  }

  lemma AfterDot(i: string, f: string)
    requires IsDigits(i) && f != [] && IsDigits(f)
    ensures ParseAfterDigits(i, "." + f) == Some(MantissaValue(i, f))
  {
    assert ("." + f)[1..] == f;
    DigitRunAll(f);
    assert f[..|f|] == f && f[|f|..] == [];
  }

  lemma ParseUnsignedDecimal(i: string, f: string)
    requires i != [] && IsDigits(i) && f != [] && IsDigits(f)
    ensures ParseUnsigned(i + ("." + f)) == Some(MantissaValue(i, f))
  {
    var s := i + ("." + f);
    DigitRunPrefix(i, "." + f);
    assert DigitRun("." + f) == 0;
    assert s[..|i|] == i && s[|i|..] == "." + f;
    AfterDot(i, f);
  }

  /** Text that starts and ends with a digit needs no stripping and has no
      sign. */
  lemma ParseFloatUnsigned(s: string)
    requires s != [] && '0' <= s[0] <= '9' && '0' <= s[|s| - 1] <= '9'
    ensures ParseFloat(s) == ParseUnsigned(s)
  {
    StripNoOp(s);
  }

  /** `digits.digits` reads as its value. */
  lemma ParseFloatDecimal(i: string, f: string)
    requires i != [] && IsDigits(i) && f != [] && IsDigits(f)
    ensures ParseFloat(i + ("." + f)) == Some(MantissaValue(i, f))
  {
    var s := i + ("." + f);
    assert s[0] == i[0] && s[|s| - 1] == f[|f| - 1];
    ParseFloatUnsigned(s);
    ParseUnsignedDecimal(i, f);
  }
}

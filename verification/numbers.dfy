/**
 Number parsing as JavaScript's `parseFloat` and `parseInt` do it, over
 exact rationals: `NaN` is `None`, and values are `real` rather than
 binary floating point.
 */
module Numbers {
  import opened Chars
  import opened Wrappers

  function DigitValue(c: char): nat
    requires IsDigit(c)
  {
    c as int - '0' as int
  }

  /** Value of a string of decimal digits, most significant first (`Number(ds)` for such a string). */
  function DigitsValue(ds: string): nat
    requires All(ds, IsDigit)
  {
    if |ds| == 0 then 0 else DigitsValue(ds[..|ds| - 1]) * 10 + DigitValue(ds[|ds| - 1])
  }

  function Pow10(n: nat): (p: nat)
    ensures p >= 1
  {
    if n == 0 then 1 else 10 * Pow10(n - 1)
  }

  /** `m × 10^e` for a signed exponent. */
  function Scale(m: real, e: int): (r: real)
    ensures e == 0 ==> r == m
  {
    if e >= 0 then m * (Pow10(e) as real) else m / (Pow10(-e) as real)
  }

  /** The value of `int.frac` for digit strings `int` and `frac`. */
  function DecimalValue(intDigits: string, fracDigits: string): (r: real)
    requires All(intDigits, IsDigit) && All(fracDigits, IsDigit)
    ensures |fracDigits| == 0 ==> r == DigitsValue(intDigits) as real
  {
    (DigitsValue(intDigits) as real) + (DigitsValue(fracDigits) as real) / (Pow10(|fracDigits|) as real)
  }

  /**
   `parseFloat(s)`: skip leading white space, read an optional sign and the
   longest prefix of the form `digits[.digits][e[sign]digits]` or
   `.digits[e[sign]digits]`; `None` (NaN) when no digit is read. The rest of
   the string is ignored, as JavaScript does.
   */
  function ParseFloat(s: string): Option<real> {
    var i0 := Span(s, 0, IsSpace);
    var negative := i0 < |s| && s[i0] == '-';
    var i1 := if i0 < |s| && (s[i0] == '-' || s[i0] == '+') then i0 + 1 else i0;
    match UnsignedFloatAt(s, i1)
    case Some(magnitude) => Some(if negative then -magnitude else magnitude)
    case None => None
  }

  /** The parts of a decimal literal: integer digits, fraction digits and exponent. */
  datatype Literal = Literal(intDigits: string, fracDigits: string, exponent: int)

  /** The unsigned decimal literal `digits[.digits][e[sign]digits]` or `.digits[…]` starting at `i`. */
  function LiteralAt(s: string, i: nat): (r: Option<Literal>)
    requires i <= |s|
    ensures r.Some? ==> All(r.value.intDigits, IsDigit) && All(r.value.fracDigits, IsDigit)
  {
    var n1 := Span(s, i, IsDigit);
    var hasDot := i + n1 < |s| && s[i + n1] == '.';
    var n2 := if hasDot then Span(s, i + n1 + 1, IsDigit) else 0;
    var j := if hasDot then i + n1 + 1 + n2 else i + n1;
    if n1 + n2 == 0 then None
    else Some(Literal(s[i..i + n1], if hasDot then s[i + n1 + 1..j] else "", ExponentAt(s, j)))
  }

  /** The value of the unsigned literal at `i`. */
  function UnsignedFloatAt(s: string, i: nat): Option<real>
    requires i <= |s|
  {
    match LiteralAt(s, i)
    case Some(l) => Some(Scale(DecimalValue(l.intDigits, l.fracDigits), l.exponent))
    case None => None
  }

  /** The exponent part `e[sign]digits` at `j`, or 0 when there is none. */
  function ExponentAt(s: string, j: nat): int
    requires j <= |s|
  {
    if j < |s| && (s[j] == 'e' || s[j] == 'E') then
      var k := if j + 1 < |s| && (s[j + 1] == '+' || s[j + 1] == '-') then j + 2 else j + 1;
      var n := Span(s, k, IsDigit);
      if n == 0 then 0
      else if s[j + 1] == '-' then -(DigitsValue(s[k..k + n]) as int)
      else DigitsValue(s[k..k + n])
    else 0
  }

  predicate IsHexDigit(c: char) {
    IsDigit(c) || 'a' <= c <= 'f' || 'A' <= c <= 'F'
  }

  function HexDigitValue(c: char): nat
    requires IsHexDigit(c)
  {
    if IsDigit(c) then DigitValue(c)
    else if 'a' <= c <= 'f' then c as int - 'a' as int + 10
    else c as int - 'A' as int + 10
  }

  function HexValue(ds: string): nat
    requires All(ds, IsHexDigit)
  {
    if |ds| == 0 then 0 else HexValue(ds[..|ds| - 1]) * 16 + HexDigitValue(ds[|ds| - 1])
  }

  /**
   `parseInt(s)` without a radix: skip leading white space, read an optional
   sign, switch to base 16 after a `0x`/`0X` prefix, then read the longest run
   of digits of that base; `None` (NaN) when the run is empty.
   */
  function ParseInt(s: string): (r: Option<int>)
  {
    var i0 := Span(s, 0, IsSpace);
    var negative := i0 < |s| && s[i0] == '-';
    var i1 := if i0 < |s| && (s[i0] == '-' || s[i0] == '+') then i0 + 1 else i0;
    var hex := i1 + 1 < |s| && s[i1] == '0' && (s[i1 + 1] == 'x' || s[i1 + 1] == 'X');
    if hex then
      var n := Span(s, i1 + 2, IsHexDigit);
      if n == 0 then None
      else
        var v: int := HexValue(s[i1 + 2..i1 + 2 + n]);
        Some(if negative then -v else v)
    else
      var n := Span(s, i1, IsDigit);
      if n == 0 then None
      else
        var v: int := DigitsValue(s[i1..i1 + n]);
        Some(if negative then -v else v)
  }

  lemma SpanOfPrefix(a: string, b: string, i: nat, p: char -> bool)
    requires i <= |a|
    requires All(a[i..], p)
    requires |b| == 0 || !p(b[0])
    ensures Span(a + b, i, p) == |a| - i
    decreases |a| - i
  {
    if i < |a| {
      assert a[i..][0] == a[i];
      assert a[i + 1..] == a[i..][1..];
      SpanOfPrefix(a, b, i + 1, p);
    } else {
      assert (a + b)[i..] == b;
    }
  }

  /**
   A plain decimal `int.frac` with no sign, no exponent and no surrounding
   text reads back as its exact value.
   */
  lemma {:induction false} ParseFloatOfDecimal(intDigits: string, fracDigits: string)
    requires |intDigits| >= 1 && All(intDigits, IsDigit) && All(fracDigits, IsDigit)
    ensures ParseFloat(intDigits + "." + fracDigits) == Some(DecimalValue(intDigits, fracDigits))
  {
    var s := intDigits + "." + fracDigits;
    var n1 := |intDigits|;
    assert s == intDigits + ("." + fracDigits);
    SpanOfPrefix(intDigits, "." + fracDigits, 0, IsDigit);
    assert s == (intDigits + ".") + fracDigits + [];
    assert (intDigits + ".")[n1 + 1..] == [];
    SpanOfPrefix((intDigits + ".") + fracDigits, [], n1 + 1, IsDigit);
    assert s[0..n1] == intDigits;
    assert s[n1 + 1..|s|] == fracDigits;
    ParseFloatOfPlainDecimal(s, n1);
  }

  /** Text that starts with a digit has no white space or sign to skip. */
  lemma ParseFloatUnsigned(s: string)
    requires |s| >= 1 && IsDigit(s[0])
    ensures ParseFloat(s) == UnsignedFloatAt(s, 0)
  {
    assert Span(s, 0, IsSpace) == 0;
  }

  /** The reading of an unsigned `int.frac` once its two digit runs are known to fill the string. */
  lemma ParseFloatOfPlainDecimal(s: string, n1: nat)
    requires 1 <= n1 < |s| && IsDigit(s[0]) && s[n1] == '.'
    requires Span(s, 0, IsDigit) == n1 && Span(s, n1 + 1, IsDigit) == |s| - n1 - 1
    ensures All(s[0..n1], IsDigit) && All(s[n1 + 1..|s|], IsDigit)
    ensures ParseFloat(s) == Some(DecimalValue(s[0..n1], s[n1 + 1..|s|]))
  {
    ParseFloatUnsigned(s);
    PlainDecimalAt(s, n1);
    var l := LiteralAt(s, 0).value;
    assert UnsignedFloatAt(s, 0) == Some(Scale(DecimalValue(l.intDigits, l.fracDigits), 0));
  }

  lemma PlainDecimalAt(s: string, n1: nat)
    requires 1 <= n1 < |s| && s[n1] == '.'
    requires Span(s, 0, IsDigit) == n1 && Span(s, n1 + 1, IsDigit) == |s| - n1 - 1
    ensures LiteralAt(s, 0) == Some(Literal(s[0..n1], s[n1 + 1..|s|], 0))
  {
    LiteralAtDot(s, 0, n1, |s|);
    NoExponentAtEnd(s);
  }

  /** At the end of the text there is no exponent part. */
  lemma NoExponentAtEnd(s: string)
    ensures ExponentAt(s, |s|) == 0
  {
  }

  /** The literal at `i` when a digit run, a dot and a second digit run ending at `j` follow it. */
  lemma LiteralAtDot(s: string, i: nat, n1: nat, j: nat)
    requires 1 <= n1 && i + n1 < |s| && s[i + n1] == '.' && Span(s, i, IsDigit) == n1
    requires i + n1 + 1 + Span(s, i + n1 + 1, IsDigit) == j
    ensures j <= |s|
    ensures LiteralAt(s, i) == Some(Literal(s[i..i + n1], s[i + n1 + 1..j], ExponentAt(s, j)))
  {
    hide Span, ExponentAt;
  }

  /** A plain digit string reads back as its value. */
  lemma {:induction false} ParseFloatOfDigits(ds: string)
    requires |ds| >= 1 && All(ds, IsDigit)
    ensures ParseFloat(ds) == Some(DigitsValue(ds) as real)
  {
    assert ds + [] == ds;
    SpanOfPrefix(ds, [], 0, IsDigit);
    assert ds[0..|ds|] == ds;
    ParseFloatUnsigned(ds);
    assert ExponentAt(ds, |ds|) == 0;
  }

  function DigitChar(d: nat): (c: char)
    requires d < 10
    ensures IsDigit(c) && DigitValue(c) == d
  {
    ('0' as int + d) as char
  }

  /** The last `w` decimal digits of `n`, padded with leading zeros. */
  function Pad(n: nat, w: nat): (ds: string)
    ensures |ds| == w && All(ds, IsDigit)
  {
    if w == 0 then "" else Pad(n / 10, w - 1) + [DigitChar(n % 10)]
  }

  lemma {:induction false} PadValue(n: nat, w: nat)
    requires n < Pow10(w)
    ensures DigitsValue(Pad(n, w)) == n
  {
    if w > 0 {
      assert n / 10 < Pow10(w - 1);
      PadValue(n / 10, w - 1);
      var ds := Pad(n, w);
      assert ds[..w - 1] == Pad(n / 10, w - 1);
    }
  }

  /** `parseInt` of a plain digit string is its value. */
  lemma ParseIntOfDigits(ds: string)
    requires |ds| >= 1 && All(ds, IsDigit)
    ensures ParseInt(ds) == Some(DigitsValue(ds) as int)
  {
    assert IsDigit(ds[0]);
    assert Span(ds, 0, IsSpace) == 0;
    assert ds + [] == ds;
    SpanOfPrefix(ds, [], 0, IsDigit);
    assert ds[0..|ds|] == ds;
  }
}

/**
 What the amount extractor computes: the value of every capture, which
 pattern wins, the round trip through the Brazilian money format, and the
 dotted-decimal misreading of the code as written.
 */
module AmountFacts {
  import opened Wrappers
  import opened Chars
  import opened Numbers
  import opened Scan
  import opened Amounts

  /** The value a money capture denotes: its digits read as cents. */
  function CaptureValue(t: string): real {
    (DigitsValue(OnlyDigits(t)) as real) / 100.0
  }

  /** What the extractor parses for a capture of `pattern`. */
  function Reading(fixed: bool, pattern: AmountPattern, t: string): string {
    if fixed then NormaliseFixed(pattern, t) else Normalise(t)
  }

  // ---------------------------------------------------------------------------
  // Normalisation of each capture shape

  lemma {:induction false} DigitsValueAppend(a: string, b: string)
    requires All(a, IsDigit) && All(b, IsDigit)
    ensures All(a + b, IsDigit)
    ensures DigitsValue(a + b) == DigitsValue(a) * Pow10(|b|) + DigitsValue(b)
    decreases |b|
  {
    if |b| > 0 {
      var b', c := b[..|b| - 1], b[|b| - 1];
      assert All(a + b, IsDigit) && All(b', IsDigit);
      assert (a + b)[..|a + b| - 1] == a + b' && (a + b)[|a + b| - 1] == c;
      DigitsValueAppend(a, b');
      var x, y, p, d := DigitsValue(a), DigitsValue(b'), Pow10(|b'|), DigitValue(c);
      assert DigitsValue(a + b) == DigitsValue(a + b') * 10 + d;
      assert DigitsValue(b) == y * 10 + d && Pow10(|b|) == p * 10;
      hide *;
      ShiftDigit(x, p, y, d);
    } else {
      assert a + b == a;
    }
  }

  /** Appending a digit to both readings of `DigitsValueAppend`. */
  lemma ShiftDigit(x: int, p: int, y: int, d: int)
    ensures (x * p + y) * 10 + d == x * (p * 10) + (y * 10 + d)
  {
  }

  lemma {:induction false} RemoveDotsAppend(a: string, b: string)
    ensures RemoveDots(a + b) == RemoveDots(a) + RemoveDots(b)
    decreases |a|
  {
    if |a| > 0 {
      assert (a + b)[1..] == a[1..] + b;
      RemoveDotsAppend(a[1..], b);
    } else {
      assert a + b == b;
    }
  }

  /** A string without dots is left alone by `RemoveDots`. */
  lemma {:induction false} RemoveDotsNoDots(t: string)
    requires '.' !in t
    ensures RemoveDots(t) == t
    decreases |t|
  {
    if |t| > 0 {
      assert t[0] != '.';
      assert t == [t[0]] + t[1..];
      RemoveDotsNoDots(t[1..]);
    }
  }

  lemma {:induction false} ReplaceFirstCommaNone(t: string)
    requires ',' !in t
    ensures ReplaceFirstComma(t) == t
    decreases |t|
  {
    if |t| > 0 {
      assert t[0] != ',';
      assert t == [t[0]] + t[1..];
      ReplaceFirstCommaNone(t[1..]);
    }
  }

  /** Only the first comma becomes a dot; what follows it is kept as it is. */
  lemma {:induction false} ReplaceFirstCommaAt(x: string, y: string)
    requires ',' !in x
    ensures ReplaceFirstComma(x + "," + y) == x + "." + y
    decreases |x|
  {
    if |x| > 0 {
      assert x[0] != ',';
      assert (x + "," + y)[1..] == x[1..] + "," + y;
      ReplaceFirstCommaAt(x[1..], y);
      assert x + "." + y == [x[0]] + (x[1..] + "." + y);
    } else {
      assert x + "," + y == "," + y;
      assert x + "." + y == "." + y;
    }
  }

  /** Dropping the dots of a thousands-grouped number leaves its digits, at least one of them. */
  lemma {:induction false} RemoveDotsThousands(u: string)
    requires IsThousands(u)
    ensures RemoveDots(u) == OnlyDigits(u) && |OnlyDigits(u)| >= 1
    decreases |u|
  {
    if |u| <= 3 {
      RemoveDotsNoDots(u);
      OnlyDigitsOf(u);
    } else {
      var v, g := u[..|u| - 4], u[|u| - 3..];
      assert u == v + "." + g;
      assert All(g, IsDigit);
      RemoveDotsThousands(v);
      RemoveDotsAppend(v + ".", g);
      RemoveDotsAppend(v, ".");
      RemoveDotsNoDots(g);
      OnlyDigitsAppend(v + ".", g);
      OnlyDigitsAppend(v, ".");
      OnlyDigitsOf(g);
      OnlyDigitsOf(".");
    }
  }

  /** Splits a capture `x<sep>dd` around its separator. */
  lemma SplitDecimal(t: string, sep: char)
    requires |t| >= 4 && t[|t| - 3] == sep
    ensures t == t[..|t| - 3] + [sep] + t[|t| - 2..]
  {
  }

  /** The integer part of a capture `x<sep>dd`. */
  function IntPart(t: string): string
    requires |t| >= 3
  {
    t[..|t| - 3]
  }

  /** The two decimals of a capture `x<sep>dd`. */
  function Cents(t: string): string
    requires |t| >= 2
  {
    t[|t| - 2..]
  }

  /** A value `DigitsValue(x ++ dd) / 100` is `x.dd` read as a decimal. */
  lemma CentsValue(x: string, dd: string)
    requires All(x, IsDigit) && All(dd, IsDigit) && |dd| == 2
    ensures (DigitsValue(x + dd) as real) / 100.0 == DecimalValue(x, dd)
  {
    DigitsValueAppend(x, dd);
    assert Pow10(2) == 100;
  }

  lemma OnlyDigitsThenSeparator(x: string, c: char)
    requires All(x, IsDigit) && !IsDigit(c)
    ensures OnlyDigits(x + [c]) == x
  {
    OnlyDigitsAppend(x, [c]);
    OnlyDigitsOf(x);
    assert OnlyDigits([c]) == "" by { assert [c][1..] == []; }
  }

  /** The digits of `x<c>y` for digit strings `x`, `y` and a separator `c`. */
  lemma OnlyDigitsAround(x: string, c: char, y: string)
    requires All(x, IsDigit) && All(y, IsDigit) && !IsDigit(c)
    ensures OnlyDigits(x + [c] + y) == x + y
  {
    OnlyDigitsThenSeparator(x, c);
    OnlyDigitsAppend(x + [c], y);
    OnlyDigitsOf(y);
  }

  /** `RemoveDots` on `x<c>y` where neither `x` nor `y` has a dot. */
  lemma RemoveDotsAround(x: string, c: char, y: string)
    requires '.' !in x && '.' !in y
    ensures RemoveDots(x + [c] + y) == x + (if c == '.' then "" else [c]) + y
  {
    RemoveDotsAppend(x + [c], y);
    RemoveDotsAppend(x, [c]);
    RemoveDotsNoDots(x);
    RemoveDotsNoDots(y);
    assert RemoveDots([c]) == (if c == '.' then "" else [c]);
  }

  lemma NormaliseDotted(t: string)
    requires IsTwoDecimals(t, '.')
    ensures t == IntPart(t) + "." + Cents(t)
    ensures Normalise(t) == IntPart(t) + Cents(t) && OnlyDigits(t) == IntPart(t) + Cents(t)
  {
    var x, dd := IntPart(t), Cents(t);
    assert All(x, IsDigit) && All(dd, IsDigit);
    SplitDecimal(t, '.');
    assert '.' !in x && '.' !in dd;
    assert ',' !in x + dd by { assert All(x + dd, IsDigit); }
    assert x + "" + dd == x + dd;
    assert !IsDigit('.');
    hide IsTwoDecimals, IntPart, Cents, All, IsDigit;
    OnlyDigitsAround(x, '.', dd);
    RemoveDotsAround(x, '.', dd);
    ReplaceFirstCommaNone(x + dd);
  }

  lemma NormaliseComma(t: string)
    requires IsTwoDecimals(t, ',')
    ensures Normalise(t) == IntPart(t) + "." + Cents(t) && OnlyDigits(t) == IntPart(t) + Cents(t)
    ensures All(IntPart(t), IsDigit) && |IntPart(t)| >= 1
  {
    var x, dd := IntPart(t), Cents(t);
    assert All(x, IsDigit) && All(dd, IsDigit);
    SplitDecimal(t, ',');
    OnlyDigitsAround(x, ',', dd);
    assert '.' !in x && '.' !in dd && ',' !in x;
    RemoveDotsAround(x, ',', dd);
    ReplaceFirstCommaAt(x, dd);
  }

  /** The digits of `x<c>y` for a separator `c` and a digit string `y`. */
  lemma OnlyDigitsSkip(x: string, c: char, y: string)
    requires All(y, IsDigit) && !IsDigit(c)
    ensures OnlyDigits(x + [c] + y) == OnlyDigits(x) + y
  {
    OnlyDigitsOfSeparator(c);
    hide *;
    OnlyDigitsAppend(x + [c], y);
    OnlyDigitsAppend(x, [c]);
    OnlyDigitsOf(y);
    assert OnlyDigits(x) + "" == OnlyDigits(x);
  }

  lemma OnlyDigitsOfSeparator(c: char)
    requires !IsDigit(c)
    ensures OnlyDigits([c]) == ""
  {
    assert [c][1..] == [];
  }

  /** `RemoveDots` on `x<c>y` for a separator `c` other than a dot and a `y` without dots. */
  lemma RemoveDotsSkip(x: string, c: char, y: string)
    requires c != '.' && '.' !in y
    ensures RemoveDots(x + [c] + y) == RemoveDots(x) + [c] + y
  {
    RemoveDotsAppend(x + [c], y);
    RemoveDotsAppend(x, [c]);
    RemoveDotsNoDots([c]);
    RemoveDotsNoDots(y);
  }

  lemma NormaliseGrouped(t: string)
    requires IsGroupedAmount(t)
    ensures Normalise(t) == OnlyDigits(IntPart(t)) + "." + Cents(t) && OnlyDigits(t) == OnlyDigits(IntPart(t)) + Cents(t)
    ensures |OnlyDigits(IntPart(t))| >= 1
  {
    var x, dd := IntPart(t), Cents(t);
    assert All(dd, IsDigit) && '.' !in dd;
    SplitDecimal(t, ',');
    RemoveDotsThousands(x);
    var y := OnlyDigits(x);
    OnlyDigitsSkip(x, ',', dd);
    RemoveDotsSkip(x, ',', dd);
    assert ',' !in y by { assert All(y, IsDigit); }
    ReplaceFirstCommaAt(y, dd);
  }

  /** A capture's value is its digit string read as cents. */
  lemma CaptureValueOfDigits(t: string, u: string)
    requires OnlyDigits(t) == u
    ensures CaptureValue(t) == DigitsValue(u) as real / 100.0
  {
  }

  /** `x.dd` reads as the digits `x ++ dd` counted in cents. */
  lemma CentsReading(x: string, dd: string, v: real)
    requires |x| >= 1 && All(x, IsDigit) && |dd| == 2 && All(dd, IsDigit)
    requires v == DigitsValue(x + dd) as real / 100.0
    ensures ParseFloat(x + "." + dd) == Some(v)
  {
    hide *;
    ParseFloatOfDecimal(x, dd);
    CentsValue(x, dd);
  }

  /** Digits alone read as whole units, a hundred times their value in cents. */
  lemma UnitsReading(u: string, v: real)
    requires |u| >= 1 && All(u, IsDigit) && v == DigitsValue(u) as real / 100.0
    ensures ParseFloat(u) == Some(100.0 * v)
  {
    hide *;
    ParseFloatOfDigits(u);
  }

  /** Text `x.dd` whose digits are those of the capture `t` reads as the capture's value. */
  lemma ReadsAsCents(t: string, x: string, dd: string, u: string)
    requires |x| >= 1 && All(x, IsDigit) && |dd| == 2 && All(dd, IsDigit)
    requires OnlyDigits(t) == x + dd && u == x + "." + dd
    ensures ParseFloat(u) == Some(CaptureValue(t))
  {
    hide *;
    CaptureValueOfDigits(t, x + dd);
    CentsReading(x, dd, CaptureValue(t));
  }

  /** Text made of the capture's digits alone reads as a hundred times the capture's value. */
  lemma ReadsAsUnits(t: string, u: string)
    requires |u| >= 1 && All(u, IsDigit) && OnlyDigits(t) == u
    ensures ParseFloat(u) == Some(100.0 * CaptureValue(t))
  {
    hide *;
    CaptureValueOfDigits(t, u);
    UnitsReading(u, CaptureValue(t));
  }

  /** `x.dd` reads as its value once corrected, and as its digits (cents as units) as written. */
  lemma DottedParses(t: string)
    requires IsTwoDecimals(t, '.')
    ensures ParseFloat(t) == Some(CaptureValue(t))
    ensures ParseFloat(Normalise(t)) == Some(100.0 * CaptureValue(t))
  {
    hide ParseFloat, CaptureValue, Normalise, OnlyDigits, DigitsValue;
    NormaliseDotted(t);
    var x, dd := IntPart(t), Cents(t);
    ReadsAsCents(t, x, dd, t);
    ReadsAsUnits(t, x + dd);
  }

  /** `x,dd` reads as its value. */
  lemma CommaParses(t: string)
    requires IsTwoDecimals(t, ',')
    ensures ParseFloat(Normalise(t)) == Some(CaptureValue(t))
  {
    hide ParseFloat, CaptureValue, Normalise, OnlyDigits, DigitsValue;
    NormaliseComma(t);
    ReadsAsCents(t, IntPart(t), Cents(t), Normalise(t));
  }

  /** `#.###,dd` reads as its value: the dots go, the comma becomes the decimal point. */
  lemma GroupedParses(t: string)
    requires IsGroupedAmount(t)
    ensures ParseFloat(Normalise(t)) == Some(CaptureValue(t))
  {
    hide ParseFloat, CaptureValue, Normalise, OnlyDigits, DigitsValue;
    NormaliseGrouped(t);
    ReadsAsCents(t, OnlyDigits(IntPart(t)), Cents(t), Normalise(t));
  }

  /**
   Every capture of every pattern parses, so the extractor never moves on
   past a pattern that matched. With the corrected reading the result is
   the capture's value; as written, a dotted-decimal capture reads 100 times
   too large.
   */
  lemma CaptureParses(pattern: AmountPattern, t: string)
    requires CaptureShape(pattern, t)
    ensures ParseFloat(NormaliseFixed(pattern, t)) == Some(CaptureValue(t))
    ensures ParseFloat(Normalise(t)) == Some(if pattern == DottedDecimal then 100.0 * CaptureValue(t) else CaptureValue(t))
  {
    match pattern {
      case DottedDecimal => DottedParses(t);
      case CommaDecimal => CommaParses(t);
      case _ => GroupedParses(t);
    }
  }

  /** The capture of a pattern's first match, when it has one. */
  function CaptureText(pattern: AmountPattern, s: string): string
    requires FirstAmountMatch(pattern, s).Some?
  {
    var c := FirstAmountMatch(pattern, s).value;
    s[c.start..c.end]
  }

  // ---------------------------------------------------------------------------
  // Which pattern wins

  /** The first pattern of the list that matches anywhere decides the result, read from its capture. */
  lemma {:induction false} FirstMatchingPatternWins(s: string, patterns: seq<AmountPattern>, fixed: bool, k: nat)
    requires k < |patterns|
    requires forall i :: 0 <= i < k ==> FirstAmountMatch(patterns[i], s).None?
    requires FirstAmountMatch(patterns[k], s).Some?
    ensures ExtractAmountBy(s, patterns, fixed) == ParseFloat(Reading(fixed, patterns[k], CaptureText(patterns[k], s)))
    ensures ExtractAmountBy(s, patterns, fixed).Some?
    decreases k
  {
    hide ParseFloat, Normalise, NormaliseFixed, FirstAmountMatch;
    CaptureParses(patterns[k], CaptureText(patterns[k], s));
    if k > 0 {
      assert FirstAmountMatch(patterns[0], s).None?;
      FirstMatchingPatternWins(s, patterns[1..], fixed, k - 1);
    }
  }

  /** The extractor finds nothing exactly when no pattern matches anywhere. */
  lemma {:induction false} NothingMatches(s: string, patterns: seq<AmountPattern>, fixed: bool)
    ensures ExtractAmountBy(s, patterns, fixed).None? <==> forall i :: 0 <= i < |patterns| ==> FirstAmountMatch(patterns[i], s).None?
    decreases |patterns|
  {
    hide ParseFloat, Normalise, NormaliseFixed, FirstAmountMatch;
    if |patterns| > 0 {
      NothingMatches(s, patterns[1..], fixed);
      if FirstAmountMatch(patterns[0], s).Some? {
        CaptureParses(patterns[0], CaptureText(patterns[0], s));
      }
      assert forall i :: 1 <= i < |patterns| ==> patterns[i] == patterns[1..][i - 1];
    }
  }

  /**
   A labelled total anywhere in the text beats any bare amount: the value is
   that of the first total pattern that matches.
   */
  lemma TotalsBeforeBareAmounts(s: string, k: nat)
    requires k < |TotalPatterns|
    requires forall i :: 0 <= i < k ==> FirstAmountMatch(TotalPatterns[i], s).None?
    requires FirstAmountMatch(TotalPatterns[k], s).Some?
    ensures ExtractAmount(s) == Some(CaptureValue(CaptureText(TotalPatterns[k], s)))
    ensures ExtractAmountAsWritten(s) == ExtractAmount(s)
  {
    assert AmountPatterns[k] == TotalPatterns[k];
    FirstMatchingPatternWins(s, AmountPatterns, true, k);
    FirstMatchingPatternWins(s, AmountPatterns, false, k);
    CaptureParses(TotalPatterns[k], CaptureText(TotalPatterns[k], s));
  }

  /** A whole, non-negative number of cents. */
  predicate IsCents(v: real) {
    v >= 0.0 && (v * 100.0).Floor as real == v * 100.0
  }

  lemma CaptureValueIsCents(t: string)
    ensures IsCents(CaptureValue(t))
  {
    var d := DigitsValue(OnlyDigits(t));
    assert CaptureValue(t) * 100.0 == d as real;
  }

  /** A hundred times a whole number of cents is still one. */
  lemma HundredfoldIsCents(v: real)
    requires IsCents(v)
    ensures IsCents(100.0 * v)
  {
    var c := (v * 100.0).Floor;
    assert 100.0 * v * 100.0 == (c * 100) as real;
  }

  /**
   Every amount the extractor returns is a non-negative whole number of
   cents. Corrected, it is the capture's value; as written, a dotted-decimal
   capture reads as its digit string, a hundred times its value, which is a
   whole number and so whole cents too.
   */
  lemma {:induction false} ExtractAmountIsCents(s: string, patterns: seq<AmountPattern>, fixed: bool)
    ensures ExtractAmountBy(s, patterns, fixed).Some? ==> IsCents(ExtractAmountBy(s, patterns, fixed).value)
    decreases |patterns|
  {
    if |patterns| > 0 {
      if FirstAmountMatch(patterns[0], s).Some? {
        MatchedIsCents(s, patterns, fixed);
      } else {
        ExtractAmountIsCents(s, patterns[1..], fixed);
        hide ParseFloat, Normalise, NormaliseFixed, CaptureValue, IsCents, FirstAmountMatch;
        assert ExtractAmountBy(s, patterns, fixed) == ExtractAmountBy(s, patterns[1..], fixed);
      }
    }
  }

  /** When the first pattern matches, its capture decides, and reads as whole cents either way. */
  lemma MatchedIsCents(s: string, patterns: seq<AmountPattern>, fixed: bool)
    requires |patterns| > 0 && FirstAmountMatch(patterns[0], s).Some?
    ensures ExtractAmountBy(s, patterns, fixed).Some? && IsCents(ExtractAmountBy(s, patterns, fixed).value)
  {
    hide *;
    var t := CaptureText(patterns[0], s);
    MatchedValue(s, patterns, fixed);
    CaptureValueIsCents(t);
    HundredfoldIsCents(CaptureValue(t));
  }

  /**
   When the first pattern matches, the result is its capture's value; only
   as written and only for the dotted-decimal pattern is it a hundred times
   that value.
   */
  lemma MatchedValue(s: string, patterns: seq<AmountPattern>, fixed: bool)
    requires |patterns| > 0 && FirstAmountMatch(patterns[0], s).Some?
    ensures var v := CaptureValue(CaptureText(patterns[0], s));
      ExtractAmountBy(s, patterns, fixed) == Some(if !fixed && patterns[0] == DottedDecimal then 100.0 * v else v)
  {
    hide *;
    var t := CaptureText(patterns[0], s);
    MatchShape(patterns[0], s);
    FirstMatchingPatternWins(s, patterns, fixed, 0);
    ReadingParses(fixed, patterns[0], t);
  }

  /** The capture of a pattern's first match has that pattern's shape. */
  lemma MatchShape(pattern: AmountPattern, s: string)
    requires FirstAmountMatch(pattern, s).Some?
    ensures CaptureShape(pattern, CaptureText(pattern, s))
  {
  }

  /** The reading of a capture parses to its value, or, as written for a dotted decimal, to a hundred times it. */
  lemma ReadingParses(fixed: bool, pattern: AmountPattern, t: string)
    requires CaptureShape(pattern, t)
    ensures ParseFloat(Reading(fixed, pattern, t))
      == Some(if !fixed && pattern == DottedDecimal then 100.0 * CaptureValue(t) else CaptureValue(t))
  {
    CaptureParses(pattern, t);
    hide ParseFloat, Normalise, NormaliseFixed, CaptureValue;
    if fixed {
      assert Reading(fixed, pattern, t) == NormaliseFixed(pattern, t);
    } else {
      assert Reading(fixed, pattern, t) == Normalise(t);
    }
  }
}

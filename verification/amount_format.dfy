/**
 The Brazilian money format `1.234,56` and the amount extractor: the
 grouped-amount recogniser finds exactly the reference shape, a formatted
 amount reads back as itself, and a plain `1234.56` is misread by the code
 as written.
 */
module AmountFormat {
  import opened Wrappers
  import opened Chars
  import opened Numbers
  import opened Scan
  import opened Amounts
  import opened AmountFacts

  // ---------------------------------------------------------------------------
  // Completeness of the grouped-amount recogniser

  /**
   In a thousands-grouped run `s[q..m]` the first group has `(m - q) % 4`
   digits and is followed by a `.` (or ends the run), and walking the `.ddd`
   groups from there ends where walking from the end of the run does.
   */
  lemma {:induction false} ThousandsLead(s: string, q: nat, m: nat)
    requires q <= m <= |s| && IsThousands(s[q..m])
    ensures 1 <= (m - q) % 4 <= 3
    ensures forall k :: q <= k < q + (m - q) % 4 ==> IsDigit(s[k])
    ensures q + (m - q) % 4 == m || s[q + (m - q) % 4] == '.'
    ensures GroupsEnd(s, q + (m - q) % 4) == GroupsEnd(s, m)
    decreases m - q
  {
    if m - q > 3 {
      ThousandsLastGroup(s, q, m);
      GroupsEndStep(s, m - 4);
      hide *;
      ThousandsLead(s, q, m - 4);
      ModFour(m - q);
      assert (m - 4 - q) % 4 == (m - q) % 4;
    } else {
      ThousandsSingleGroup(s, q, m);
    }
  }

  /** A grouped run of at most three characters is one group of digits. */
  lemma ThousandsSingleGroup(s: string, q: nat, m: nat)
    requires q <= m <= |s| && m - q <= 3 && IsThousands(s[q..m])
    ensures 1 <= (m - q) % 4 <= 3 && q + (m - q) % 4 == m
    ensures forall k :: q <= k < q + (m - q) % 4 ==> IsDigit(s[k])
  {
    var u := s[q..m];
    assert (m - q) % 4 == m - q;
    assert forall k :: q <= k < m ==> s[k] == u[k - q];
  }

  /** A grouped run longer than one group ends in a `.ddd` group after a shorter grouped run. */
  lemma ThousandsLastGroup(s: string, q: nat, m: nat)
    requires q + 3 < m <= |s| && IsThousands(s[q..m])
    ensures IsThousands(s[q..m - 4]) && IsGroupAt(s, m - 4)
  {
    var u := s[q..m];
    assert u[..|u| - 4] == s[q..m - 4];
    assert u[|u| - 4] == s[m - 4] && u[|u| - 3] == s[m - 3] && u[|u| - 2] == s[m - 2] && u[|u| - 1] == s[m - 1];
  }

  lemma GroupsEndStep(s: string, i: nat)
    requires IsGroupAt(s, i)
    ensures GroupsEnd(s, i) == GroupsEnd(s, i + 4)
  {
  }

  lemma ModFour(a: int)
    requires a >= 4
    ensures (a - 4) % 4 == a % 4
  {
  }

  /** `GroupedAt` finds every grouped amount: where the reference shape ends, the recogniser's match ends. */
  lemma GroupedAtComplete(s: string, q: nat, e: nat)
    requires q <= e <= |s| && IsGroupedAmount(s[q..e])
    ensures GroupedAt(s, q) == Some(e)
  {
    GroupedTail(s, q, e);
    hide *;
    var m := e - 3;
    ThousandsLead(s, q, m);
    GroupedAtFromLead(s, q, (m - q) % 4, m);
  }

  /** A lead of one to three digits, then groups up to `,dd` at `m`: the recogniser reads to `m + 3`. */
  lemma GroupedAtFromLead(s: string, q: nat, lead: nat, m: nat)
    requires 1 <= lead <= 3 && q + lead <= m && m + 3 <= |s|
    requires forall k :: q <= k < q + lead ==> IsDigit(s[k])
    requires q + lead == m || s[q + lead] == '.'
    requires GroupsEnd(s, q + lead) == GroupsEnd(s, m) && GroupsEnd(s, m) == m
    requires s[m] == ',' && IsDigit(s[m + 1]) && IsDigit(s[m + 2])
    ensures GroupedAt(s, q) == Some(m + 3)
  {
    assert !IsDigit('.') && !IsDigit(',');
    hide *;
    SpanExact(s, q, lead, IsDigit);
    GroupedAtOf(s, q, lead, m);
  }

  /** A grouped amount is a grouped run, then `,dd` where no further `.ddd` group starts. */
  lemma GroupedTail(s: string, q: nat, e: nat)
    requires q <= e <= |s| && IsGroupedAmount(s[q..e])
    ensures q + 4 <= e && IsThousands(s[q..e - 3])
    ensures s[e - 3] == ',' && IsDigit(s[e - 2]) && IsDigit(s[e - 1]) && GroupsEnd(s, e - 3) == e - 3
  {
    var t := s[q..e];
    var m := e - 3;
    assert t[..|t| - 3] == s[q..m];
    assert s[m] == t[|t| - 3] && s[m + 1] == t[|t| - 2] && s[m + 2] == t[|t| - 1];
    assert !IsGroupAt(s, m);
  }

  /** The recogniser's verdict once the leading digit run and the groups after it are known. */
  lemma GroupedAtOf(s: string, q: nat, lead: nat, i: nat)
    requires 1 <= lead <= 3 && q + lead <= |s| && Span(s, q, IsDigit) == lead && GroupsEnd(s, q + lead) == i
    requires i + 3 <= |s| && s[i] == ',' && IsDigit(s[i + 1]) && IsDigit(s[i + 2])
    ensures GroupedAt(s, q) == Some(i + 3)
  {
  }

  // ---------------------------------------------------------------------------
  // Formatting

  /** The decimal digits of `n`, without leading zeros. */
  function DigitString(n: nat): (ds: string)
    ensures |ds| >= 1 && All(ds, IsDigit)
    decreases n
  {
    if n < 10 then [DigitChar(n)] else DigitString(n / 10) + [DigitChar(n % 10)]
  }

  /** `n` written out with a `.` between each group of three digits, counted from the right. */
  function Thousands(ds: string): (t: string)
    requires |ds| >= 1 && All(ds, IsDigit)
    decreases |ds|
  {
    if |ds| <= 3 then ds else Thousands(ds[..|ds| - 3]) + "." + ds[|ds| - 3..]
  }

  /** A whole number of cents in the Brazilian format: `1.234,56`. */
  function FormatAmount(cents: nat): string {
    Thousands(DigitString(cents / 100)) + "," + CentsDigits(cents)
  }

  lemma {:induction false} DigitStringValue(n: nat)
    ensures DigitsValue(DigitString(n)) == n
    decreases n
  {
    var last := [DigitChar(n % 10)];
    if n >= 10 {
      DigitStringValue(n / 10);
      var ds := DigitString(n / 10) + last;
      assert ds[..|ds| - 1] == DigitString(n / 10);
    }
  }

  /** The digits of `a<c>b` for a separator `c`. */
  lemma OnlyDigitsSkips(a: string, c: char, b: string)
    requires !IsDigit(c)
    ensures OnlyDigits(a + [c] + b) == OnlyDigits(a) + OnlyDigits(b)
  {
    OnlyDigitsAppend(a + [c], b);
    OnlyDigitsAppend(a, [c]);
    assert OnlyDigits([c]) == "" by { assert [c][1..] == []; }
  }

  lemma {:induction false} ThousandsIsGrouped(ds: string)
    requires |ds| >= 1 && All(ds, IsDigit)
    ensures IsThousands(Thousands(ds))
    decreases |ds|
  {
    if |ds| > 3 {
      var h, g := Thousands(ds[..|ds| - 3]), ds[|ds| - 3..];
      var t := h + "." + g;
      ThousandsIsGrouped(ds[..|ds| - 3]);
      assert t[..|t| - 4] == h;
      assert t[|t| - 4] == '.' && t[|t| - 3..] == g;
    }
  }

  lemma {:induction false} ThousandsDigits(ds: string)
    requires |ds| >= 1 && All(ds, IsDigit)
    ensures OnlyDigits(Thousands(ds)) == ds
    decreases |ds|
  {
    if |ds| <= 3 {
      OnlyDigitsOf(ds);
    } else {
      var h, g := Thousands(ds[..|ds| - 3]), ds[|ds| - 3..];
      ThousandsDigits(ds[..|ds| - 3]);
      OnlyDigitsSkips(h, '.', g);
      assert All(g, IsDigit);
      OnlyDigitsOf(g);
      assert ds == ds[..|ds| - 3] + g;
    }
  }

  /** Text made only of digits, `.` and `,`: what a formatted amount consists of. */
  predicate IsMoneyText(s: string) {
    forall i :: 0 <= i < |s| ==> IsDigit(s[i]) || s[i] == '.' || s[i] == ','
  }

  lemma {:induction false} ThousandsIsMoneyText(ds: string)
    requires |ds| >= 1 && All(ds, IsDigit)
    ensures IsMoneyText(Thousands(ds))
    decreases |ds|
  {
    if |ds| > 3 {
      var h, g := Thousands(ds[..|ds| - 3]), ds[|ds| - 3..];
      ThousandsIsMoneyText(ds[..|ds| - 3]);
      assert All(g, IsDigit);
      var t := h + "." + g;
      assert forall i :: 0 <= i < |t| ==> t[i] == (if i < |h| then h[i] else if i == |h| then '.' else g[i - |h| - 1]);
    }
  }

  /** The two decimals of a number of cents. */
  function CentsDigits(cents: nat): string {
    var r := cents % 100;
    [DigitChar(r / 10), DigitChar(r % 10)]
  }

  lemma CentsDigitsValue(cents: nat)
    ensures All(CentsDigits(cents), IsDigit) && DigitsValue(CentsDigits(cents)) == cents % 100
  {
    var r := cents % 100;
    var dd := CentsDigits(cents);
    assert dd[..1] == [dd[0]];
    assert dd[..1][..0] == [];
    assert DigitsValue(dd[..1]) == r / 10;
    assert DigitsValue(dd) == (r / 10) * 10 + r % 10;
  }

  /** A formatted amount has the grouped shape and consists of digits, dots and a comma. */
  lemma FormatAmountShape(cents: nat)
    ensures IsGroupedAmount(FormatAmount(cents)) && IsMoneyText(FormatAmount(cents))
  {
    var ds := DigitString(cents / 100);
    var h := Thousands(ds);
    var dd := CentsDigits(cents);
    var s := FormatAmount(cents);
    assert s == h + "," + dd;
    ThousandsIsGrouped(ds);
    ThousandsIsMoneyText(ds);
    assert s[..|s| - 3] == h;
    assert forall i :: 0 <= i < |s| ==> s[i] == (if i < |h| then h[i] else if i == |h| then ',' else dd[i - |h| - 1]);
  }

  lemma FormatAmountDigits(cents: nat)
    ensures OnlyDigits(FormatAmount(cents)) == DigitString(cents / 100) + CentsDigits(cents)
  {
    var ds := DigitString(cents / 100);
    var h := Thousands(ds);
    var dd := CentsDigits(cents);
    assert FormatAmount(cents) == h + [','] + dd;
    CentsDigitsValue(cents);
    ThousandsDigits(ds);
    OnlyDigitsSkips(h, ',', dd);
    OnlyDigitsOf(dd);
  }

  /** The digits of a formatted amount are the cents. */
  lemma FormatAmountValue(cents: nat)
    ensures CaptureValue(FormatAmount(cents)) == cents as real / 100.0
  {
    var ds := DigitString(cents / 100);
    var dd := CentsDigits(cents);
    FormatAmountDigits(cents);
    CentsDigitsValue(cents);
    DigitStringValue(cents / 100);
    DigitsValueAppend(ds, dd);
    assert Pow10(2) == 100;
    assert DigitsValue(ds + dd) == cents;
  }

  // ---------------------------------------------------------------------------
  // Reading formatted amounts back

  /** A word starting with a capital letter does not start anywhere in text that has no letters. */
  lemma NoWordInMoneyText(s: string, p: nat, w: string)
    requires IsMoneyText(s) && |w| >= 1 && IsAsciiUpper(w[0])
    ensures !StartsAtFold(s, p, w)
  {
    if p < |s| {
      assert Upper(s[p]) == s[p] && Upper(w[0]) == w[0];
      assert !FoldEq(s[p], w[0]);
    }
  }

  lemma {:induction false} NoLabelInMoneyText(s: string, p: nat, labels: seq<string>)
    requires p <= |s| && IsMoneyText(s)
    requires forall k :: 0 <= k < |labels| ==> |labels[k]| >= 1 && IsAsciiUpper(labels[k][0])
    ensures LabelledTotalAt(s, p, labels).None?
    decreases |labels|
  {
    if |labels| > 0 {
      NoWordInMoneyText(s, p, labels[0]);
      NoLabelInMoneyText(s, p, labels[1..]);
    }
  }

  /** No total pattern matches text that has no letters. */
  lemma NoTotalInMoneyText(s: string)
    requires IsMoneyText(s)
    ensures forall k :: 0 <= k < |TotalPatterns| ==> FirstAmountMatch(TotalPatterns[k], s).None?
  {
    forall p: nat | p <= |s|
      ensures AmountAt(LabelledTotal, s, p).None?
      ensures AmountAt(TotalThenAmount, s, p).None?
      ensures AmountAt(ValorThenAmount, s, p).None?
    {
      NoLabelInMoneyText(s, p, TotalLabels);
      NoWordInMoneyText(s, p, "TOTAL");
      NoWordInMoneyText(s, p, "VALOR");
    }
    assert NoAmountBefore(LabelledTotal, s, |s| + 1);
    assert NoAmountBefore(TotalThenAmount, s, |s| + 1);
    assert NoAmountBefore(ValorThenAmount, s, |s| + 1);
    hide AmountAt, FirstAmountMatch;
    assert FirstAmountMatch(LabelledTotal, s).None? && FirstAmountMatch(TotalThenAmount, s).None? && FirstAmountMatch(ValorThenAmount, s).None?;
  }

  /** A pattern that matches at the very start of the text matches there first. */
  lemma MatchAtStart(pattern: AmountPattern, s: string, c: Capture)
    requires AmountAt(pattern, s, 0) == Some(c)
    ensures FirstAmountMatch(pattern, s) == Some(c)
  {
  }

  /**
   The grouped pattern has no `\b` before its digits. In a text such as
   `1234,56`, four digits before the comma, it cannot start at the first
   digit, so it starts at the second and reads `234,56`. The comma-decimal
   pattern, which would read all four digits, is never tried.
   */
  lemma UngroupedCommaReadsShort(d: char, x: string, dd: string, fixed: bool)
    requires IsDigit(d) && |x| == 3 && All(x, IsDigit) && |dd| == 2 && All(dd, IsDigit)
    ensures FirstAmountMatch(Grouped, [d] + x + [','] + dd) == Some(Capture(1, 7))
    ensures ExtractAmountBy([d] + x + [','] + dd, AmountPatterns, fixed) == Some(DecimalValue(x, dd))
  {
    var t := x + [','] + dd;
    var s := [d] + t;
    assert [d] + x + [','] + dd == s;
    assert |s| == 7 && s[1..] == t;
    assert s[1..7] == t;
    assert IsMoneyText(s);
    NoTotalInMoneyText(s);
    UngroupedCommaMatch(s, d, x, dd);
    assert AmountPatterns[3] == Grouped;
    assert forall i :: 0 <= i < 3 ==> AmountPatterns[i] == TotalPatterns[i];
    FirstMatchingPatternWins(s, AmountPatterns, fixed, 3);
    assert CaptureText(Grouped, s) == t;
    assert Reading(fixed, Grouped, t) == Normalise(t);
    UngroupedCommaValue(x, dd);
    hide ParseFloat, Normalise, NormaliseFixed, FirstAmountMatch, ExtractAmountBy, DecimalValue, CaptureText, Reading;
  }

  /** The grouped pattern fails at the first of four digits and matches from the second. */
  lemma UngroupedCommaMatch(s: string, d: char, x: string, dd: string)
    requires IsDigit(d) && |x| == 3 && All(x, IsDigit) && |dd| == 2 && All(dd, IsDigit)
    requires s == [d] + x + [','] + dd
    ensures FirstAmountMatch(Grouped, s) == Some(Capture(1, 7))
  {
    UngroupedCommaAt(s, d, x, dd);
    assert NoAmountBefore(Grouped, s, 1);
    hide AmountAt;
    LeftmostIsFirst(Grouped, s, 1, Capture(1, 7));
  }

  /** Bare pattern 1 does not match at the first digit of `dxxx,dd`, and matches `xxx,dd` from the second. */
  lemma UngroupedCommaAt(s: string, d: char, x: string, dd: string)
    requires IsDigit(d) && |x| == 3 && All(x, IsDigit) && |dd| == 2 && All(dd, IsDigit)
    requires s == [d] + x + [','] + dd
    ensures AmountAt(Grouped, s, 0).None?
    ensures AmountAt(Grouped, s, 1) == Some(Capture(1, 7))
  {
    assert forall k :: 0 <= k < 4 ==> IsDigit(s[k]);
    assert s[4] == ',' && IsDigit(s[5]) && IsDigit(s[6]) && |s| == 7;
    assert Span(s, 0, IsDigit) == 4 && Span(s, 1, IsDigit) == 3;
    assert GroupsEnd(s, 4) == 4;
    assert SkipCurrency(s, 0, false) == 0 && SkipCurrency(s, 1, false) == 1;
    assert GroupedAt(s, 0).None? && GroupedAt(s, 1) == Some(7);
  }

  /** A match with none before it is the one the search returns. */
  lemma LeftmostIsFirst(pattern: AmountPattern, s: string, p: nat, c: Capture)
    requires p <= |s| && AmountAt(pattern, s, p) == Some(c) && NoAmountBefore(pattern, s, p)
    ensures FirstAmountMatch(pattern, s) == Some(c)
  {
    var r := FirstAmountMatch(pattern, s);
    assert !NoAmountBefore(pattern, s, |s| + 1);
    var q: nat :| q <= |s| && AmountAt(pattern, s, q) == r && NoAmountBefore(pattern, s, q);
    assert q == p;
  }

  /** `xxx,dd` reads as the decimal `xxx.dd`. */
  lemma UngroupedCommaValue(x: string, dd: string)
    requires |x| == 3 && All(x, IsDigit) && |dd| == 2 && All(dd, IsDigit)
    ensures ParseFloat(Normalise(x + [','] + dd)) == Some(DecimalValue(x, dd))
  {
    var t := x + [','] + dd;
    assert IsGroupedAmount(t) by {
      assert t[..|t| - 3] == x;
    }
    assert !IsDigit(',');
    hide ParseFloat, Normalise, OnlyDigits, DigitsValue, DecimalValue, IsGroupedAmount, All, IsDigit;
    GroupedParses(t);
    OnlyDigitsAround(x, ',', dd);
    CentsValue(x, dd);
    assert CaptureValue(t) == DecimalValue(x, dd);
  }

  /** Text that is one grouped amount and nothing else reads as that amount, as written and corrected alike. */
  lemma GroupedTextReadsBack(s: string, fixed: bool)
    requires IsGroupedAmount(s) && IsMoneyText(s)
    ensures ExtractAmountBy(s, AmountPatterns, fixed) == Some(CaptureValue(s))
  {
    NoTotalInMoneyText(s);
    assert s[0..|s|] == s;
    GroupedAtComplete(s, 0, |s|);
    assert SkipCurrency(s, 0, false) == 0 by { assert IsDigit(s[0]); }
    assert GroupedBareAt(s, 0) == Some(Capture(0, |s|));
    MatchAtStart(Grouped, s, Capture(0, |s|));
    assert AmountPatterns[3] == Grouped;
    assert forall i :: 0 <= i < 3 ==> AmountPatterns[i] == TotalPatterns[i];
    hide AmountAt, GroupedBareAt, GroupedAt, SkipCurrency, IsMoneyText;
    assert CaptureText(Grouped, s) == s;
    assert Reading(fixed, Grouped, s) == Normalise(s);
    GroupedParses(s);
    hide *;
    FirstMatchingPatternWins(s, AmountPatterns, fixed, 3);
  }

  lemma FormatReadsAsCapture(cents: nat, fixed: bool)
    ensures ExtractAmountBy(FormatAmount(cents), AmountPatterns, fixed) == Some(CaptureValue(FormatAmount(cents)))
  {
    hide ExtractAmountBy, CaptureValue, FormatAmount, ParseFloat, Normalise, FirstAmountMatch, DecimalValue;
    FormatAmountShape(cents);
    GroupedTextReadsBack(FormatAmount(cents), fixed);
  }

  /** Rewrites the value the extractor reads, keeping the extractor's unfolding out of the caller's proof. */
  lemma ReadsAs(s: string, fixed: bool, v: real, w: real)
    requires ExtractAmountBy(s, AmountPatterns, fixed) == Some(v) && v == w
    ensures ExtractAmountBy(s, AmountPatterns, fixed) == Some(w)
  {
  }

  /** The extractor, as written and corrected alike, reads a formatted amount back as the amount. */
  lemma FormatThenExtract(cents: nat, fixed: bool)
    ensures ExtractAmountBy(FormatAmount(cents), AmountPatterns, fixed) == Some(cents as real / 100.0)
  {
    hide ExtractAmountBy, CaptureValue, FormatAmount, ParseFloat, Normalise, FirstAmountMatch, DecimalValue;
    var s := FormatAmount(cents);
    FormatReadsAsCapture(cents, fixed);
    FormatAmountValue(cents);
    ReadsAs(s, fixed, CaptureValue(s), cents as real / 100.0);
  }

  // ---------------------------------------------------------------------------
  // The dotted-decimal misreading

  /** In `ds.dd` only the dotted-decimal pattern matches, and it captures the whole text. */
  lemma {:induction false} DottedTextMatch(ds: string, dd: string)
    requires |ds| >= 1 && All(ds, IsDigit) && |dd| == 2 && All(dd, IsDigit)
    ensures forall i :: 0 <= i < 4 ==> FirstAmountMatch(AmountPatterns[i], ds + "." + dd).None?
    ensures FirstAmountMatch(DottedDecimal, ds + "." + dd) == Some(Capture(0, |ds| + 3))
  {
    var s := ds + "." + dd;
    assert IsMoneyText(s);
    NoTotalInMoneyText(s);
    forall a, b | 0 <= a <= b <= |s|
      ensures !IsGroupedAmount(s[a..b])
    {
      if b - a >= 4 {
        assert s[a..b][b - a - 3] == s[b - 3] != ',';
      }
    }
    assert FirstAmountMatch(Grouped, s).None?;
    assert forall i :: 0 <= i < 3 ==> AmountPatterns[i] == TotalPatterns[i];
    assert AmountPatterns[3] == Grouped;
    SpanExact(s, 0, |ds|, IsDigit);
    assert DottedDecimalAt(s, 0) == Some(Capture(0, |s|));
    assert FirstAmountMatch(DottedDecimal, s) == Some(Capture(0, |s|));
  }

  /** Text matched first, and whole, by the dotted-decimal pattern reads 100 times its value as written. */
  lemma WholeDottedAsWritten(s: string)
    requires IsTwoDecimals(s, '.')
    requires forall i :: 0 <= i < 4 ==> FirstAmountMatch(AmountPatterns[i], s).None?
    requires FirstAmountMatch(DottedDecimal, s) == Some(Capture(0, |s|))
    ensures ExtractAmountAsWritten(s) == Some(100.0 * CaptureValue(s))
  {
    assert AmountPatterns[4] == DottedDecimal;
    FirstMatchingPatternWins(s, AmountPatterns, false, 4);
    assert s[0..|s|] == s;
    assert Reading(false, DottedDecimal, CaptureText(DottedDecimal, s)) == Normalise(s);
    DottedParses(s);
  }

  lemma DottedAsWrittenReadsCapture(ds: string, dd: string)
    requires |ds| >= 1 && All(ds, IsDigit) && |dd| == 2 && All(dd, IsDigit)
    ensures ExtractAmountAsWritten(ds + "." + dd) == Some(100.0 * CaptureValue(ds + "." + dd))
  {
    DottedTextMatch(ds, dd);
    DottedTextShape(ds, dd);
    hide *;
    WholeDottedAsWritten(ds + "." + dd);
  }

  lemma DottedTextShape(ds: string, dd: string)
    requires |ds| >= 1 && All(ds, IsDigit) && |dd| == 2 && All(dd, IsDigit)
    ensures IsTwoDecimals(ds + "." + dd, '.')
  {
    var s := ds + "." + dd;
    assert s[..|s| - 3] == ds;
  }

  /** The value of `ds.dd` as a capture is the decimal it spells. */
  lemma DottedCaptureValue(ds: string, dd: string)
    requires All(ds, IsDigit) && |dd| == 2 && All(dd, IsDigit)
    ensures CaptureValue(ds + "." + dd) == DecimalValue(ds, dd)
  {
    OnlyDigitsAround(ds, '.', dd);
    assert ds + "." + dd == ds + ['.'] + dd;
    CentsValue(ds, dd);
  }

  /**
   As written, `ds.dd` reads 100 times too large: the decimal point is
   dropped together with the thousands dots, so `1234.56` reads as 123456.
   */
  lemma DottedAmountAsWritten(ds: string, dd: string)
    requires |ds| >= 1 && All(ds, IsDigit) && |dd| == 2 && All(dd, IsDigit)
    ensures ExtractAmountAsWritten(ds + "." + dd) == Some(100.0 * DecimalValue(ds, dd))
  {
    hide ExtractAmountBy, CaptureValue, FormatAmount, ParseFloat, Normalise, FirstAmountMatch, DecimalValue;
    var s := ds + "." + dd;
    DottedAsWrittenReadsCapture(ds, dd);
    DottedCaptureValue(ds, dd);
    ReadsAs(s, false, 100.0 * CaptureValue(s), 100.0 * DecimalValue(ds, dd));
  }

  /** Corrected, `ds.dd` reads as the decimal it spells. */
  lemma DottedAmountCorrected(ds: string, dd: string)
    requires |ds| >= 1 && All(ds, IsDigit) && |dd| == 2 && All(dd, IsDigit)
    ensures ExtractAmount(ds + "." + dd) == Some(DecimalValue(ds, dd))
  {
    var s := ds + "." + dd;
    DottedTextMatch(ds, dd);
    assert AmountPatterns[4] == DottedDecimal;
    FirstMatchingPatternWins(s, AmountPatterns, true, 4);
    assert s[0..|s|] == s;
    ParseFloatOfDecimal(ds, dd);
  }

  /** The example the extractor's own comment gives: `1234.56`. */
  lemma DottedAmountExample(s: string)
    requires s == "1234.56"
    ensures ExtractAmountAsWritten(s) == Some(123456.0)
    ensures ExtractAmount(s) == Some(1234.56)
  {
    assert s == "1234" + "." + "56";
    DottedAmountAsWritten("1234", "56");
    DottedAmountCorrected("1234", "56");
    DecimalExample("1234", "56");
  }

  lemma DecimalExample(ds: string, dd: string)
    requires ds == "1234" && dd == "56"
    ensures DecimalValue(ds, dd) == 1234.56
  {
    assert ds[..3] == "123" && "123"[..2] == "12" && "12"[..1] == "1" && dd[..1] == "5";
    assert DigitsValue("12") == 12;
    assert DigitsValue(ds) == 1234;
    assert DigitsValue(dd) == 56;
  }
}

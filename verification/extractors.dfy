/**
 The date and CPF/CNPJ extractors. Both look for fixed digit layouts,
 written here as masks where `#` stands for one digit and every other
 character stands for itself.
 */
module Extractors {
  import opened Wrappers
  import opened Chars
  import opened Numbers
  import opened Scan
  import opened Dates
  import opened Amounts

  /** `t` has the layout of `mask`: a digit at each `#`, the mask's own character elsewhere. */
  predicate FitsMask(t: string, mask: string) {
    |t| == |mask| && forall i :: 0 <= i < |t| ==> if mask[i] == '#' then IsDigit(t[i]) else t[i] == mask[i]
  }

  /** The text at `p` has the layout of `mask`. */
  predicate MaskAt(s: string, p: nat, mask: string) {
    p + |mask| <= |s| && FitsMask(s[p..p + |mask|], mask)
  }

  // ---------------------------------------------------------------------------
  // Dates

  /** The three date patterns, in the order they are tried. */
  datatype DatePattern =
    | SlashFull   // (\d{2})\/(\d{2})\/(\d{4})
    | DashFull    // (\d{2})-(\d{2})-(\d{4})
    | SlashShort  // (\d{2})\/(\d{2})\/(\d{2})\b

  const DatePatterns: seq<DatePattern> := [SlashFull, DashFull, SlashShort]

  function DateMask(pattern: DatePattern): string {
    match pattern
    case SlashFull => "##/##/####"
    case DashFull => "##-##-####"
    case SlashShort => "##/##/##"
  }

  /** The three groups of a date match: day, month and year digits. */
  datatype DateCapture = DateCapture(day: string, month: string, year: string)

  predicate ValidCapture(c: DateCapture) {
    |c.day| == 2 && |c.month| == 2 && (|c.year| == 2 || |c.year| == 4)
    && All(c.day, IsDigit) && All(c.month, IsDigit) && All(c.year, IsDigit)
  }

  /** Whether `pattern` matches at `p`, and its groups. */
  function DateAt(pattern: DatePattern, s: string, p: nat): (r: Option<DateCapture>)
    ensures r.Some? <==> MaskAt(s, p, DateMask(pattern)) && (pattern == SlashShort ==> WordBoundaryAfterDigit(s, p + 8))
    ensures r.Some? ==> ValidCapture(r.value)
    ensures r.Some? ==> var n := |DateMask(pattern)|;
              r.value == DateCapture(s[p..p + 2], s[p + 3..p + 5], s[p + 6..p + n])
  {
    var n := |DateMask(pattern)|;
    if MaskAt(s, p, DateMask(pattern)) && (pattern == SlashShort ==> WordBoundaryAfterDigit(s, p + 8)) then
      DateGroupsAreDigits(pattern, s, p);
      Some(DateCapture(s[p..p + 2], s[p + 3..p + 5], s[p + 6..p + n]))
    else None
  }

  /** The three groups cut from a text that fits a date mask are digit runs of the right lengths. */
  lemma DateGroupsAreDigits(pattern: DatePattern, s: string, p: nat)
    requires MaskAt(s, p, DateMask(pattern))
    ensures var n := |DateMask(pattern)|;
      n <= 10 && p + n <= |s| && ValidCapture(DateCapture(s[p..p + 2], s[p + 3..p + 5], s[p + 6..p + n]))
  {
    var mask := DateMask(pattern);
    var n := |mask|;
    assert n == 8 || n == 10;
    assert mask[0] == mask[1] == mask[3] == mask[4] == mask[6] == mask[7] == '#';
    assert n == 10 ==> mask[8] == mask[9] == '#';
    MaskedRun(s, p, mask, 0, 2);
    MaskedRun(s, p, mask, 3, 5);
    MaskedRun(s, p, mask, 6, n);
  }

  /** A stretch of `#` in a mask the text fits at `p` is a run of digits in the text. */
  lemma MaskedRun(s: string, p: nat, mask: string, a: nat, b: nat)
    requires MaskAt(s, p, mask) && a <= b <= |mask|
    requires forall i :: a <= i < b ==> mask[i] == '#'
    ensures p + b <= |s| && All(s[p + a..p + b], IsDigit)
  {
    var t, u := s[p..p + |mask|], s[p + a..p + b];
    forall i | 0 <= i < |u|
      ensures IsDigit(u[i])
    {
      assert u[i] == t[a + i];
    }
  }

  /**
   The date a match denotes: `new Date(year, month - 1, day)`, where a year
   below 100 has 2000 added first. The guard `!isNaN(date.getTime())` never
   rejects one of these: every such date is within JavaScript's range.
   */
  function CaptureDate(c: DateCapture): (d: Date)
    requires ValidCapture(c)
    ensures d.year >= 100
  {
    var y := DigitsValue(c.year);
    var year := if y < 100 then y + 2000 else y;
    NewDate(year, DigitsValue(c.month) - 1, DigitsValue(c.day))
  }

  /** The date pattern matches at no position before `p`. */
  ghost predicate NoDateBefore(pattern: DatePattern, s: string, p: nat) {
    forall q: nat :: q < p ==> DateAt(pattern, s, q).None?
  }

  /** `text.match(pattern)`: the leftmost match of one date pattern. */
  function FirstDateMatch(pattern: DatePattern, s: string): (r: Option<DateCapture>)
    ensures r.Some? ==> ValidCapture(r.value)
    ensures r.Some? ==> exists p: nat :: p <= |s| && DateAt(pattern, s, p) == r && NoDateBefore(pattern, s, p)
    ensures r.None? <==> forall p :: 0 <= p <= |s| ==> DateAt(pattern, s, p).None?
  {
    var m := (q: nat) => DateAt(pattern, s, q);
    assert forall p: nat :: m(p) == DateAt(pattern, s, p);
    match FirstFrom(0, |s|, m)
    case Some(h) =>
      assert DateAt(pattern, s, h.pos) == Some(h.value) && NoDateBefore(pattern, s, h.pos);
      Some(h.value)
    case None => None
  }

  /** The patterns of `patterns` tried in order; the first that matches gives the date. */
  function ExtractDateBy(s: string, patterns: seq<DatePattern>): (r: Option<Date>)
    ensures r.None? <==> forall i :: 0 <= i < |patterns| ==> FirstDateMatch(patterns[i], s).None?
  {
    if |patterns| == 0 then None
    else match FirstDateMatch(patterns[0], s)
      case Some(c) => Some(CaptureDate(c))
      case None =>
        var r := ExtractDateBy(s, patterns[1..]);
        assert forall i :: 1 <= i < |patterns| ==> patterns[i] == patterns[1..][i - 1];
        r
  }

  /** `extractDate(text)`. */
  function ExtractDate(s: string): Option<Date> {
    ExtractDateBy(s, DatePatterns)
  }

  /** The date patterns are tried in order: the first one that matches anywhere gives the date. */
  lemma {:induction false} FirstDatePatternWins(s: string, patterns: seq<DatePattern>, k: nat)
    requires k < |patterns|
    requires forall i :: 0 <= i < k ==> FirstDateMatch(patterns[i], s).None?
    requires FirstDateMatch(patterns[k], s).Some?
    ensures ExtractDateBy(s, patterns) == Some(CaptureDate(FirstDateMatch(patterns[k], s).value))
    decreases k
  {
    if k > 0 {
      assert FirstDateMatch(patterns[0], s).None?;
      FirstDatePatternWins(s, patterns[1..], k - 1);
    }
  }

  /** `DD/MM/YYYY` for a date with a four-digit year. */
  function FormatDate(d: Date): string
    requires 0 <= d.day < 100 && 0 <= d.monthIndex < 99 && 0 <= d.year < 10000
  {
    Pad(d.day, 2) + "/" + Pad(d.monthIndex + 1, 2) + "/" + Pad(d.year, 4)
  }

  /** A text that begins with a `DD/MM/YYYY` date gives that date. */
  lemma LeadingFullDate(s: string)
    requires MaskAt(s, 0, "##/##/####")
    ensures ExtractDate(s) == Some(CaptureDate(DateCapture(s[0..2], s[3..5], s[6..10])))
  {
    assert DateAt(SlashFull, s, 0).Some?;
    assert FirstDateMatch(SlashFull, s) == DateAt(SlashFull, s, 0);
    assert DatePatterns[0] == SlashFull;
    FirstDatePatternWins(s, DatePatterns, 0);
  }

  /** The pieces of `DD<sep>MM<sep>Y…` when it fits a date mask. */
  lemma DateTextPieces(a: string, b: string, c: string, sep: char, mask: string)
    requires |a| == 2 && |b| == 2 && All(a, IsDigit) && All(b, IsDigit) && All(c, IsDigit)
    requires sep != '#' && mask == "##" + [sep] + "##" + [sep] + Hashes(|c|)
    ensures var s := a + [sep] + b + [sep] + c;
      MaskAt(s, 0, mask) && s[0..2] == a && s[3..5] == b && s[6..|s|] == c
  {
    var s := a + [sep] + b + [sep] + c;
    assert |mask| == |s|;
    assert s[0..|mask|] == s;
    forall i | 0 <= i < |s|
      ensures if mask[i] == '#' then IsDigit(s[i]) else s[i] == mask[i]
    {
      if i < 2 {
        assert s[i] == a[i] && mask[i] == '#';
      } else if i == 2 || i == 5 {
        assert s[i] == sep && mask[i] == sep;
      } else if i < 5 {
        assert s[i] == b[i - 3] && mask[i] == '#';
      } else {
        assert s[i] == c[i - 6] && mask[i] == '#';
      }
    }
  }

  /** A run of `n` mask digits. */
  function Hashes(n: nat): (h: string)
    ensures |h| == n && forall i :: 0 <= i < n ==> h[i] == '#'
  {
    if n == 0 then "" else Hashes(n - 1) + "#"
  }

  /** A date written as `DD/MM/YYYY` is read back as itself (years from 100 on). */
  lemma FormatThenExtractDate(d: Date)
    requires ValidDate(d) && 100 <= d.year < 10000
    ensures ExtractDate(FormatDate(d)) == Some(d)
  {
    var a, b, c := Pad(d.day, 2), Pad(d.monthIndex + 1, 2), Pad(d.year, 4);
    FormattedDatePieces(d);
    PadsReadBack(d);
    hide *;
    LeadingFullDate(FormatDate(d));
  }

  /** A formatted date fits `##/##/####`, and its three fields are the padded day, month and year. */
  lemma FormattedDatePieces(d: Date)
    requires ValidDate(d) && 100 <= d.year < 10000
    ensures var s := FormatDate(d);
      MaskAt(s, 0, "##/##/####")
      && s[0..2] == Pad(d.day, 2) && s[3..5] == Pad(d.monthIndex + 1, 2) && s[6..10] == Pad(d.year, 4)
  {
    var a, b, c := Pad(d.day, 2), Pad(d.monthIndex + 1, 2), Pad(d.year, 4);
    assert "##/##/####" == "##" + ['/'] + "##" + ['/'] + Hashes(4);
    DateTextPieces(a, b, c, '/', "##/##/####");
    assert FormatDate(d) == a + ['/'] + b + ['/'] + c;
  }

  /** The padded fields of a valid date read back as that date. */
  lemma PadsReadBack(d: Date)
    requires ValidDate(d) && 100 <= d.year < 10000
    ensures ValidCapture(DateCapture(Pad(d.day, 2), Pad(d.monthIndex + 1, 2), Pad(d.year, 4)))
    ensures CaptureDate(DateCapture(Pad(d.day, 2), Pad(d.monthIndex + 1, 2), Pad(d.year, 4))) == d
  {
    assert Pow10(2) == 100 && Pow10(4) == 10000;
    PadValue(d.day, 2);
    PadValue(d.monthIndex + 1, 2);
    PadValue(d.year, 4);
  }

  /** A text that is exactly a `DD/MM/YY` date gives that date. */
  lemma WholeShortDate(s: string)
    requires |s| == 8 && MaskAt(s, 0, "##/##/##")
    ensures ExtractDate(s) == Some(CaptureDate(DateCapture(s[0..2], s[3..5], s[6..8])))
  {
    assert DateAt(SlashShort, s, 0).Some?;
    assert FirstDateMatch(SlashShort, s) == DateAt(SlashShort, s, 0);
    assert FirstDateMatch(SlashFull, s).None? && FirstDateMatch(DashFull, s).None?;
    assert DatePatterns[2] == SlashShort;
    FirstDatePatternWins(s, DatePatterns, 2);
  }

  /** `DD/MM/YY` with a two-digit year. */
  function FormatShortDate(day: nat, month: nat, yy: nat): string
    requires day < 100 && month < 100 && yy < 100
  {
    Pad(day, 2) + "/" + Pad(month, 2) + "/" + Pad(yy, 2)
  }

  lemma ShortDateCapture(day: nat, month: nat, yy: nat)
    requires day < 100 && month < 100 && yy < 100
    ensures ExtractDate(FormatShortDate(day, month, yy)) == Some(CaptureDate(DateCapture(Pad(day, 2), Pad(month, 2), Pad(yy, 2))))
  {
    var a, b, c := Pad(day, 2), Pad(month, 2), Pad(yy, 2);
    assert "##/##/##" == "##" + ['/'] + "##" + ['/'] + Hashes(2);
    DateTextPieces(a, b, c, '/', "##/##/##");
    assert FormatShortDate(day, month, yy) == a + ['/'] + b + ['/'] + c;
    WholeShortDate(FormatShortDate(day, month, yy));
  }

  /** `DD/MM/YY` is read with the year in the 2000s. */
  lemma ShortYearIsTwoThousands(day: nat, month: nat, yy: nat)
    requires day < 100 && month < 100 && yy < 100
    ensures ExtractDate(FormatShortDate(day, month, yy)) == Some(Date(2000 + yy, month - 1, day))
  {
    ShortDateCapture(day, month, yy);
    assert Pow10(2) == 100;
    PadValue(day, 2);
    PadValue(month, 2);
    PadValue(yy, 2);
  }

  // ---------------------------------------------------------------------------
  // CPF and CNPJ

  const CpfMask: string := "###.###.###-##"
  const CnpjMask: string := "##.###.###/####-##"

  /** The alternation `(CPF)|(CNPJ)` at `p`: the CPF layout is tried first. */
  function CpfCnpjAt(s: string, p: nat): (r: Option<string>)
    ensures r.Some? <==> MaskAt(s, p, CpfMask) || MaskAt(s, p, CnpjMask)
    ensures r.Some? ==> (MaskAt(s, p, CpfMask) && r.value == s[p..p + 14])
                        || (!MaskAt(s, p, CpfMask) && MaskAt(s, p, CnpjMask) && r.value == s[p..p + 18])
  {
    if MaskAt(s, p, CpfMask) then Some(s[p..p + |CpfMask|])
    else if MaskAt(s, p, CnpjMask) then Some(s[p..p + |CnpjMask|])
    else None
  }

  /** Neither layout occurs at a position before `p`. */
  ghost predicate NoCpfCnpjBefore(s: string, p: nat) {
    forall q: nat :: q < p ==> CpfCnpjAt(s, q).None?
  }

  /** `extractCpfCnpj(text)`: the leftmost CPF or CNPJ, exactly as it is written in the text. */
  function ExtractCpfCnpj(s: string): (r: Option<string>)
    ensures r.Some? ==> FitsMask(r.value, CpfMask) || FitsMask(r.value, CnpjMask)
    ensures r.Some? ==> exists p: nat :: p <= |s| && CpfCnpjAt(s, p) == r && NoCpfCnpjBefore(s, p)
    ensures r.None? <==> forall p :: 0 <= p <= |s| ==> !MaskAt(s, p, CpfMask) && !MaskAt(s, p, CnpjMask)
  {
    var m := (q: nat) => CpfCnpjAt(s, q);
    assert forall p: nat :: m(p) == CpfCnpjAt(s, p);
    match FirstFrom(0, |s|, m)
    case Some(h) =>
      assert CpfCnpjAt(s, h.pos) == Some(h.value) && NoCpfCnpjBefore(s, h.pos);
      Some(h.value)
    case None =>
      forall p | 0 <= p <= |s|
        ensures !MaskAt(s, p, CpfMask) && !MaskAt(s, p, CnpjMask)
      {
        assert m(p).None?;
      }
      None
  }

  /** A CPF or CNPJ on its own is extracted as itself. */
  lemma CpfCnpjReadsBack(t: string)
    requires FitsMask(t, CpfMask) || FitsMask(t, CnpjMask)
    ensures ExtractCpfCnpj(t) == Some(t)
  {
    assert t[0..|t|] == t;
    if FitsMask(t, CpfMask) {
      assert MaskAt(t, 0, CpfMask);
    } else {
      assert MaskAt(t, 0, CnpjMask);
      assert CnpjMask[3] == '#' && CpfMask[3] == '.';
      assert !MaskAt(t, 0, CpfMask) by {
        assert IsDigit(t[3]);
      }
    }
    assert CpfCnpjAt(t, 0) == Some(t);
  }
}

/**
 The amount extractor: ordered money patterns over a text, the first that
 matches wins, and its capture is normalised from Brazilian notation
 (`1.234,56`) to a number.
 */
module Amounts {
  import opened Wrappers
  import opened Chars
  import opened Numbers
  import opened Scan

  // ---------------------------------------------------------------------------
  // The money shape `\d{1,3}(?:\.\d{3})*,\d{2}`

  /** Reference shape of a Brazilian amount `#.###,##`: thousands groups, a comma, two decimals. */
  predicate IsGroupedAmount(t: string) {
    |t| >= 4 && t[|t| - 3] == ',' && IsDigit(t[|t| - 2]) && IsDigit(t[|t| - 1]) && IsThousands(t[..|t| - 3])
  }

  /** One to three digits followed by any number of `.ddd` groups. */
  predicate IsThousands(t: string)
    decreases |t|
  {
    if |t| <= 3 then 1 <= |t| && All(t, IsDigit)
    else t[|t| - 4] == '.' && IsDigit(t[|t| - 3]) && IsDigit(t[|t| - 2]) && IsDigit(t[|t| - 1])
         && IsThousands(t[..|t| - 4])
  }

  predicate IsGroupAt(s: string, i: nat) {
    i + 4 <= |s| && s[i] == '.' && IsDigit(s[i + 1]) && IsDigit(s[i + 2]) && IsDigit(s[i + 3])
  }

  /** Greedy `(?:\.\d{3})*` from `i`: where the run of `.ddd` groups ends. */
  function GroupsEnd(s: string, i: nat): (e: nat)
    requires i <= |s|
    ensures i <= e <= |s| && !IsGroupAt(s, e)
    decreases |s| - i
  {
    if IsGroupAt(s, i) then GroupsEnd(s, i + 4) else i
  }

  lemma {:induction false} GroupsEndKeepsShape(s: string, q: nat, i: nat)
    requires q <= i <= |s| && IsThousands(s[q..i])
    ensures IsThousands(s[q..GroupsEnd(s, i)])
    decreases |s| - i
  {
    if IsGroupAt(s, i) {
      var t := s[q..i + 4];
      assert t[..|t| - 4] == s[q..i];
      assert IsThousands(t);
      GroupsEndKeepsShape(s, q, i + 4);
    }
  }

  /** One to three digits, their `.ddd` groups, then `,dd`: a grouped amount. */
  lemma GroupedShapeAt(s: string, q: nat, lead: nat, i: nat)
    requires 1 <= lead <= 3 && q + lead <= |s| && Span(s, q, IsDigit) == lead
    requires i == GroupsEnd(s, q + lead) && i + 3 <= |s|
    requires s[i] == ',' && IsDigit(s[i + 1]) && IsDigit(s[i + 2])
    ensures IsGroupedAmount(s[q..i + 3])
  {
    assert All(s[q..q + lead], IsDigit);
    GroupsEndKeepsShape(s, q, q + lead);
    assert s[q..i + 3][..i - q] == s[q..i];
  }

  /** `s[q..e]` is a grouped amount. */
  predicate GroupedSpan(s: string, q: nat, e: nat) {
    q < e <= |s| && IsGroupedAmount(s[q..e])
  }

  /**
   The capture `\d{1,3}(?:\.\d{3})*,\d{2}` starting at `q`, as the end of the
   match. Backtracking cannot change the outcome: with fewer leading digits
   the next character is a digit where `.` or `,` is needed, and with fewer
   groups it is a `.` where `,` is needed, so there is one candidate only.
   */
  function GroupedAt(s: string, q: nat): (e: Option<nat>)
    ensures e.Some? ==> GroupedSpan(s, q, e.value)
  {
    if q > |s| then None
    else
      var lead := Span(s, q, IsDigit);
      if lead < 1 || lead > 3 then None
      else
        var i := GroupsEnd(s, q + lead);
        if i + 3 <= |s| && s[i] == ',' && IsDigit(s[i + 1]) && IsDigit(s[i + 2]) then
          GroupedShapeAt(s, q, lead, i);
          Some(i + 3)
        else None
  }

  // ---------------------------------------------------------------------------
  // The pattern table

  /**
   The six money patterns of the extractor, in the order they are tried:
   three labelled-total patterns (case-insensitive), then three bare ones.
   */
  datatype AmountPattern =
    | LabelledTotal    // (?:Total|Valor Total|…|Subtotal)\s*[:=]?\s*(?:R\$\s*)?(G)   /i
    | TotalThenAmount  // TOTAL.*?(?:R\$\s*)?(G)                                      /i
    | ValorThenAmount  // VALOR.*?(?:R\$\s*)?(G)                                      /i
    | Grouped          // (?:R\$\s*)?(G)\b
    | DottedDecimal    // \b(\d+\.\d{2})\b
    | CommaDecimal     // (?:R\$\s*)?(\d+,\d{2})\b

  const TotalPatterns: seq<AmountPattern> := [LabelledTotal, TotalThenAmount, ValorThenAmount]
  const BarePatterns: seq<AmountPattern> := [Grouped, DottedDecimal, CommaDecimal]
  const AmountPatterns: seq<AmountPattern> := TotalPatterns + BarePatterns

  const TotalLabels: seq<string> :=
    ["Total", "Valor Total", "Total Geral", "Valor Nominal", "Soma", "Liquidado",
     "Boleto", "A Pagar", "Vencido", "Principal", "Subtotal"]

  /** The captured text `s[start..end]` of group 1. */
  datatype Capture = Capture(start: nat, end: nat)

  predicate WordBoundaryAfterDigit(s: string, e: nat) {
    e == |s| || (e < |s| && !IsWordChar(s[e]))
  }

  /** Where `(?:R\$\s*)?` leaves the match: after `R$` and its spaces when present, else in place. */
  function SkipCurrency(s: string, b: nat, ignoreCase: bool): (c: nat)
    requires b <= |s|
    ensures b <= c <= |s|
  {
    var present := if ignoreCase then StartsAtFold(s, b, "R$") else StartsAt(s, b, "R$");
    if present then b + 2 + Span(s, b + 2, IsSpace) else b
  }

  /**
   Where the amount of a labelled total may start once the label ends at `e`:
   `\s*[:=]?\s*(?:R\$\s*)?`. A digit can only follow all the optional parts,
   so the greedy choice is the only one that can succeed.
   */
  function AfterLabel(s: string, e: nat): (c: nat)
    requires e <= |s|
    ensures e <= c <= |s|
  {
    var a := e + Span(s, e, IsSpace);
    var b := if a < |s| && (s[a] == ':' || s[a] == '=') then a + 1 + Span(s, a + 1, IsSpace) else a;
    SkipCurrency(s, b, true)
  }

  /** The labelled-total alternation at `p`, alternatives tried in order. */
  function LabelledTotalAt(s: string, p: nat, labels: seq<string>): (r: Option<Capture>)
    requires p <= |s|
    ensures r.Some? ==> p <= r.value.start && CaptureFits(Grouped, s, r.value)
  {
    if |labels| == 0 then None
    else if StartsAtFold(s, p, labels[0]) && GroupedAt(s, AfterLabel(s, p + |labels[0]|)).Some? then
      var c := AfterLabel(s, p + |labels[0]|);
      Some(Capture(c, GroupedAt(s, c).value))
    else LabelledTotalAt(s, p, labels[1..])
  }

  /**
   `.*?(?:R\$\s*)?(G)` from `j`: the lazy `.*?` tries the shortest skip first
   and may not cross a line terminator.
   */
  function LazyAmountFrom(s: string, j: nat): (r: Option<Capture>)
    requires j <= |s|
    ensures r.Some? ==> j <= r.value.start && CaptureFits(Grouped, s, r.value)
    decreases |s| - j
  {
    var c := SkipCurrency(s, j, true);
    if GroupedAt(s, c).Some? then Some(Capture(c, GroupedAt(s, c).value))
    else if j < |s| && !IsLineTerminator(s[j]) then LazyAmountFrom(s, j + 1)
    else None
  }

  /** `d…d<sep>dd`: digits, the decimal separator, two decimals. */
  predicate IsTwoDecimals(t: string, sep: char) {
    |t| >= 4 && t[|t| - 3] == sep && All(t[..|t| - 3], IsDigit) && IsDigit(t[|t| - 2]) && IsDigit(t[|t| - 1])
  }

  /** A run of `n` digits at `c`, then `sep` and two digits, is a two-decimal amount. */
  lemma TwoDecimalsAt(s: string, c: nat, n: nat, sep: char)
    requires n >= 1 && c + n + 3 <= |s| && Span(s, c, IsDigit) == n
    requires s[c + n] == sep && IsDigit(s[c + n + 1]) && IsDigit(s[c + n + 2])
    ensures IsTwoDecimals(s[c..c + n + 3], sep)
  {
    assert s[c..c + n + 3][..n] == s[c..c + n];
  }

  /** The shape every capture of `pattern` has. */
  predicate CaptureShape(pattern: AmountPattern, t: string) {
    match pattern
    case DottedDecimal => IsTwoDecimals(t, '.')
    case CommaDecimal => IsTwoDecimals(t, ',')
    case _ => IsGroupedAmount(t)
  }

  /** `c` spans a non-empty capture of `s` with the shape `pattern` gives its captures. */
  predicate CaptureFits(pattern: AmountPattern, s: string, c: Capture) {
    c.start < c.end <= |s| && CaptureShape(pattern, s[c.start..c.end])
  }

  /** `(?:R\$\s*)?(G)\b` at `p`. */
  function GroupedBareAt(s: string, p: nat): (r: Option<Capture>)
    requires p <= |s|
    ensures r.Some? ==> p <= r.value.start && CaptureFits(Grouped, s, r.value)
  {
    var c := SkipCurrency(s, p, false);
    var g := GroupedAt(s, c);
    if g.Some? && WordBoundaryAfterDigit(s, g.value) then Some(Capture(c, g.value)) else None
  }

  /**
   `\b(\d+\.\d{2})\b` at `p`. The greedy `\d+` must stop right before the
   `.`: giving a digit back leaves a digit where the `.` is needed.
   */
  function DottedDecimalAt(s: string, p: nat): (r: Option<Capture>)
    requires p <= |s|
    ensures r.Some? ==> p <= r.value.start && CaptureFits(DottedDecimal, s, r.value)
  {
    var n := Span(s, p, IsDigit);
    var e := p + n + 3;
    if (p == 0 || !IsWordChar(s[p - 1])) && n >= 1 && e <= |s|
       && s[p + n] == '.' && IsDigit(s[p + n + 1]) && IsDigit(s[p + n + 2]) && WordBoundaryAfterDigit(s, e)
    then
      TwoDecimalsAt(s, p, n, '.');
      Some(Capture(p, e))
    else None
  }

  /** `(?:R\$\s*)?(\d+,\d{2})\b` at `p`. */
  function CommaDecimalAt(s: string, p: nat): (r: Option<Capture>)
    requires p <= |s|
    ensures r.Some? ==> p <= r.value.start && CaptureFits(CommaDecimal, s, r.value)
  {
    var c := SkipCurrency(s, p, false);
    var n := Span(s, c, IsDigit);
    var e := c + n + 3;
    if n >= 1 && e <= |s| && s[c + n] == ',' && IsDigit(s[c + n + 1]) && IsDigit(s[c + n + 2])
       && WordBoundaryAfterDigit(s, e)
    then
      TwoDecimalsAt(s, c, n, ',');
      Some(Capture(c, e))
    else None
  }

  /** Whether `pattern` matches starting at `p`, and the span of its capture group. */
  function AmountAt(pattern: AmountPattern, s: string, p: nat): (r: Option<Capture>)
    ensures r.Some? ==> p <= r.value.start && CaptureFits(pattern, s, r.value)
  {
    if p > |s| then None
    else match pattern
      case LabelledTotal => LabelledTotalAt(s, p, TotalLabels)
      case TotalThenAmount => if StartsAtFold(s, p, "TOTAL") then LazyAmountFrom(s, p + 5) else None
      case ValorThenAmount => if StartsAtFold(s, p, "VALOR") then LazyAmountFrom(s, p + 5) else None
      case Grouped => GroupedBareAt(s, p)
      case DottedDecimal => DottedDecimalAt(s, p)
      case CommaDecimal => CommaDecimalAt(s, p)
  }

  /** `pattern` matches at no position before `p`. */
  ghost predicate NoAmountBefore(pattern: AmountPattern, s: string, p: nat) {
    forall q: nat :: q < p ==> AmountAt(pattern, s, q).None?
  }

  /**
   `r` is what the leftmost match gives: the match at some position with
   none before it, or nothing when no position matches.
   */
  ghost predicate LeftmostAmount(pattern: AmountPattern, s: string, r: Option<Capture>) {
    && (r.Some? ==> exists p: nat :: p <= |s| && AmountAt(pattern, s, p) == r && NoAmountBefore(pattern, s, p))
    && (r.None? <==> NoAmountBefore(pattern, s, |s| + 1))
  }

  /** `text.match(pattern)`: the leftmost match of `pattern`, as its capture. */
  function FirstAmountMatch(pattern: AmountPattern, s: string): (r: Option<Capture>)
    ensures r.Some? ==> CaptureFits(pattern, s, r.value)
    ensures LeftmostAmount(pattern, s, r)
  {
    var m := (q: nat) => AmountAt(pattern, s, q);
    assert forall q: nat :: m(q) == AmountAt(pattern, s, q);
    match FirstFrom(0, |s|, m)
    case Some(h) =>
      assert AmountAt(pattern, s, h.pos) == Some(h.value) && NoAmountBefore(pattern, s, h.pos);
      Some(h.value)
    case None =>
      assert NoAmountBefore(pattern, s, |s| + 1);
      None
  }

  // ---------------------------------------------------------------------------
  // Normalisation

  /** `t.replace(/\./g, '')`. */
  function RemoveDots(t: string): (u: string)
    ensures '.' !in u
  {
    if |t| == 0 then "" else (if t[0] == '.' then "" else [t[0]]) + RemoveDots(t[1..])
  }

  /** `t.replace(',', '.')`: only the first comma is replaced. */
  function ReplaceFirstComma(t: string): string {
    if |t| == 0 then "" else if t[0] == ',' then "." + t[1..] else [t[0]] + ReplaceFirstComma(t[1..])
  }

  /** The normalisation the extractor applies to every capture: drop every `.`, then the first `,` becomes `.`. */
  function Normalise(capture: string): string {
    ReplaceFirstComma(RemoveDots(capture))
  }

  /**
   The normalisation the extractor evidently intends: a capture of the
   dotted-decimal pattern is already in `1234.56` form and is read as it is.
   */
  function NormaliseFixed(pattern: AmountPattern, capture: string): string {
    if pattern == DottedDecimal then capture else Normalise(capture)
  }

  /** The patterns of `patterns` tried in order; a capture that does not parse moves on to the next pattern. */
  function ExtractAmountBy(s: string, patterns: seq<AmountPattern>, fixed: bool): Option<real> {
    if |patterns| == 0 then None
    else match FirstAmountMatch(patterns[0], s)
      case Some(c) =>
        var capture := s[c.start..c.end];
        var v := ParseFloat(if fixed then NormaliseFixed(patterns[0], capture) else Normalise(capture));
        if v.Some? then v else ExtractAmountBy(s, patterns[1..], fixed)
      case None => ExtractAmountBy(s, patterns[1..], fixed)
  }

  /** `extractAmount(text)` exactly as written. */
  function ExtractAmountAsWritten(s: string): Option<real> {
    ExtractAmountBy(s, AmountPatterns, false)
  }

  /** `extractAmount(text)` with the dotted-decimal capture read as a decimal. */
  function ExtractAmount(s: string): Option<real> {
    ExtractAmountBy(s, AmountPatterns, true)
  }
}

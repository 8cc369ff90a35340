/**
 The debt-row table of the PDF parser: six row shapes tried in order, each
 scanned over the whole text the way a global regular expression's `exec`
 loop scans it (every search resumes where the previous match ended). Each
 match becomes a debt item when its amount is positive and its date reads;
 items accumulate across shapes until more than one has been found.

 In every shape `G` stands for the money capture `\d{1,3}(?:\.\d{3})*,\d{2}`.
 */
module DebtRows {
  import opened Wrappers
  import opened Chars
  import opened Numbers
  import opened Scan
  import opened Dates
  import opened Amounts
  import opened AmountFacts
  import opened Extractors

  // ---------------------------------------------------------------------------
  // The table

  /** The six row shapes, none of them case-insensitive. */
  datatype RowPattern =
    | ReferenceRow    // (\d{2}\/\d{2}\/\d{2,4})\s+(\d{2}\/\d{4})\s+\d+.*?\s+-\s+(.+?)\s+(G)
    | DatedRow        // (\d{2}\/\d{2}\/\d{4})\s+(.+?)\s+(?:R\$\s*)?(G)
    | AmountThenName  // (\d{2}\/\d{2}\/\d{4})\s+(?:R\$\s*)?(G)\s+([A-ZÁÀÂÃÉÊÍÓÔÕÚÇ].*)
    | MonthNameRow    // (\b\w{3}\/\d{4})\b\s+(.+?)\s+(?:R\$\s*)?(G)
    | MonthRow        // (\b\d{2}\/\d{4})\b\s+(.+?)\s+(?:R\$\s*)?(G)
    | DatedAmount     // (\d{2}\/\d{2}\/\d{4})\s+(?:R\$\s*)?(G)

  const RowTable: seq<RowPattern> :=
    [ReferenceRow, DatedRow, AmountThenName, MonthNameRow, MonthRow, DatedAmount]

  /** Where a row's description comes from: a trimmed capture group (with a default for an empty one), or a fixed text. */
  datatype Description = FromGroup(group: nat, fallback: Option<string>) | Fixed(text: string)

  /** Which capture group (numbered from 1) holds each field of a row. */
  datatype Fields = Fields(date: nat, description: Description, value: nat)

  /**
   The field order of each shape. The parser picks it by inspecting the
   pattern's source text and the number of groups; for these six shapes
   that inspection amounts to this table.
   */
  function FieldsOf(pattern: RowPattern): Fields {
    match pattern
    case ReferenceRow => Fields(1, FromGroup(3, None), 4)
    case AmountThenName => Fields(1, FromGroup(3, Some("Dívida")), 2)
    case DatedAmount => Fields(1, Fixed("Parcela/Taxa"), 2)
    case _ => Fields(1, FromGroup(2, None), 3)
  }

  function GroupCount(pattern: RowPattern): nat {
    match pattern
    case ReferenceRow => 4
    case DatedAmount => 2
    case _ => 3
  }

  // ---------------------------------------------------------------------------
  // Matches

  /** A capture group's span `s[start..end]`. */
  datatype Group = Group(start: nat, end: nat)

  /** A match from `start` to `end` with its capture groups in order. */
  datatype RowMatch = RowMatch(start: nat, groups: seq<Group>, end: nat)

  /** The match is non-empty, inside `s`, and every group lies inside the match. */
  predicate Within(m: RowMatch, s: string) {
    m.start < m.end <= |s|
    && forall i :: 0 <= i < |m.groups| ==> m.start <= m.groups[i].start <= m.groups[i].end <= m.end
  }

  /** Group `g` lies inside `a..b`. */
  predicate Inside(g: Group, a: nat, b: nat) {
    a <= g.start <= g.end <= b
  }

  /** A match from `p` to `e` with two groups inside it. */
  function Row2(s: string, p: nat, g1: Group, g2: Group, e: nat): (m: RowMatch)
    requires p < e <= |s| && Inside(g1, p, e) && Inside(g2, p, e)
    ensures Within(m, s) && m.start == p && m.groups == [g1, g2] && m.end == e
  {
    RowMatch(p, [g1, g2], e)
  }

  /** A match from `p` to `e` with three groups inside it. */
  function Row3(s: string, p: nat, g1: Group, g2: Group, g3: Group, e: nat): (m: RowMatch)
    requires p < e <= |s| && Inside(g1, p, e) && Inside(g2, p, e) && Inside(g3, p, e)
    ensures Within(m, s) && m.start == p && m.groups == [g1, g2, g3] && m.end == e
  {
    RowMatch(p, [g1, g2, g3], e)
  }

  /** A match from `p` to `e` with four groups inside it. */
  function Row4(s: string, p: nat, g1: Group, g2: Group, g3: Group, g4: Group, e: nat): (m: RowMatch)
    requires p < e <= |s| && Inside(g1, p, e) && Inside(g2, p, e) && Inside(g3, p, e) && Inside(g4, p, e)
    ensures Within(m, s) && m.start == p && m.groups == [g1, g2, g3, g4] && m.end == e
  {
    RowMatch(p, [g1, g2, g3, g4], e)
  }

  function GroupText(s: string, m: RowMatch, k: nat): string
    requires Within(m, s) && 1 <= k <= |m.groups|
  {
    s[m.groups[k - 1].start..m.groups[k - 1].end]
  }

  /** Every field the shape reads names a group the match has. */
  predicate FieldsFit(pattern: RowPattern, m: RowMatch) {
    var f := FieldsOf(pattern);
    1 <= f.date <= |m.groups| && 1 <= f.value <= |m.groups|
    && (f.description.FromGroup? ==> 1 <= f.description.group <= |m.groups|)
  }

  /** The group holds a money capture. */
  predicate MoneyAt(s: string, g: Group) {
    g.start <= g.end <= |s| && IsGroupedAmount(s[g.start..g.end])
  }

  /** The amount group of a match holds a money capture. */
  predicate ValueShaped(pattern: RowPattern, s: string, m: RowMatch)
    requires FieldsFit(pattern, m)
  {
    MoneyAt(s, m.groups[FieldsOf(pattern).value - 1])
  }

  // ---------------------------------------------------------------------------
  // Recognisers

  /** `(?:R\$\s*)?(G)` from `c` (the currency part only when `currency`): the money group. */
  function ValueAt(s: string, c: nat, currency: bool): (r: Option<Group>)
    requires c <= |s|
    ensures r.Some? ==> c <= r.value.start < r.value.end <= |s|
    ensures r.Some? ==> MoneyAt(s, r.value)
  {
    var q := if currency then SkipCurrency(s, c, false) else c;
    match GroupedAt(s, q)
    case Some(e) => Some(Group(q, e))
    case None => None
  }

  /**
   `(.+?)\s+` followed by the money group, with the description starting at
   `d`: the lazy group tries the shortest description first, so the result
   ends the description at the first `j` where white space follows and the
   money capture comes after that white space. The description may not cross
   a line terminator. `j` is the candidate being tried.
   */
  function DescThenValue(s: string, d: nat, j: nat, currency: bool): (r: Option<(Group, Group)>)
    requires d < j <= |s|
    ensures r.Some? ==> r.value.0.start == d && j <= r.value.0.end < r.value.1.start < r.value.1.end <= |s|
    ensures r.Some? ==> MoneyAt(s, r.value.1)
    decreases |s| - j
  {
    if IsLineTerminator(s[j - 1]) then None
    else if j < |s| && IsSpace(s[j]) && ValueAt(s, j + Span(s, j, IsSpace), currency).Some? then
      Some((Group(d, j), ValueAt(s, j + Span(s, j, IsSpace), currency).value))
    else if j < |s| then DescThenValue(s, d, j + 1, currency)
    else None
  }

  /** The description and money group when the description starts at `d`. */
  function DescFrom(s: string, d: nat, currency: bool): (r: Option<(Group, Group)>)
    requires d < |s|
    ensures r.Some? ==> r.value.0.start == d < r.value.0.end < r.value.1.start < r.value.1.end <= |s|
    ensures r.Some? ==> MoneyAt(s, r.value.1)
  {
    DescThenValue(s, d, d + 1, currency)
  }

  /**
   `\s+(.+?)\s+` followed by the money group, where the white-space run at
   `a` is `w` characters long. The greedy run tries its longest length first
   and gives white space back one character at a time, so the description
   starts at `a + w`, then `a + w - 1`, down to `a + 1`: a description that
   starts inside the run begins with white space, which `.` matches.
   */
  function SpaceThenDesc(s: string, a: nat, w: nat, currency: bool): (r: Option<(Group, Group)>)
    requires a + w <= |s|
    ensures r.Some? ==> a < r.value.0.start <= a + w
    ensures r.Some? ==> r.value.0.start < r.value.0.end < r.value.1.start < r.value.1.end <= |s|
    ensures r.Some? ==> MoneyAt(s, r.value.1)
    decreases w
  {
    if w == 0 then None
    else
      var here := if a + w < |s| then DescFrom(s, a + w, currency) else None;
      if here.Some? then here else SpaceThenDesc(s, a, w - 1, currency)
  }

  /** No description start in `lo + 1..hi` leads to a money group. */
  ghost predicate NoDescIn(s: string, lo: nat, hi: nat, currency: bool) {
    forall k :: lo < k <= hi && k < |s| ==> DescFrom(s, k, currency).None?
  }

  /**
   The start the run settles on is the longest one that leads to a money
   group: every longer start fails, and there is no match only when every
   start fails.
   */
  lemma {:induction false} SpaceThenDescOrder(s: string, a: nat, w: nat, currency: bool)
    requires a + w <= |s|
    ensures var r := SpaceThenDesc(s, a, w, currency);
      r.Some? ==> r.value.0.start < |s| && r == DescFrom(s, r.value.0.start, currency) && NoDescIn(s, r.value.0.start, a + w, currency)
    ensures SpaceThenDesc(s, a, w, currency).None? <==> NoDescIn(s, a, a + w, currency)
    decreases w
  {
    hide DescFrom, MoneyAt;
    if w > 0 {
      SpaceThenDescOrder(s, a, w - 1, currency);
      var here := if a + w < |s| then DescFrom(s, a + w, currency) else None;
      var r, rest := SpaceThenDesc(s, a, w, currency), SpaceThenDesc(s, a, w - 1, currency);
      assert r == if here.Some? then here else rest;
      if here.Some? {
        assert r.value.0.start == a + w && NoDescIn(s, a + w, a + w, currency);
        assert !NoDescIn(s, a, a + w, currency);
        hide *;
      } else {
        hide *;
        if rest.Some? {
          NoDescExtend(s, rest.value.0.start, a + w - 1, currency);
        }
        NoDescExtend(s, a, a + w - 1, currency);
      }
    } else {
      assert SpaceThenDesc(s, a, w, currency).None? && NoDescIn(s, a, a, currency);
    }
  }

  /** A start one past the range that fails too extends the range. */
  lemma NoDescExtend(s: string, lo: nat, hi: nat, currency: bool)
    requires hi + 1 < |s| ==> DescFrom(s, hi + 1, currency).None?
    ensures NoDescIn(s, lo, hi, currency) ==> NoDescIn(s, lo, hi + 1, currency)
    ensures NoDescIn(s, lo, hi + 1, currency) ==> NoDescIn(s, lo, hi, currency)
  {
    hide DescFrom;
  }

  /**
   `.*?\s+-\s+(.+?)\s+(G)` of the reference row, with the lazy `.*?` having
   consumed up to `x`. At a given `x` the white-space run before the dash is
   greedy and a shorter run would leave white space where `-` must be, so it
   takes the whole run; the run after the dash may give white space back to
   the description.
   */
  function DashThenRest(s: string, x: nat): (r: Option<(Group, Group)>)
    requires x <= |s|
    ensures r.Some? ==> x < r.value.0.start < r.value.0.end < r.value.1.start < r.value.1.end <= |s|
    ensures r.Some? ==> MoneyAt(s, r.value.1)
    decreases |s| - x
  {
    var w := Span(s, x, IsSpace);
    var here :=
      if w >= 1 && x + w < |s| && s[x + w] == '-' then
        SpaceThenDesc(s, x + w + 1, Span(s, x + w + 1, IsSpace), false)
      else None;
    if here.Some? then here
    else if x < |s| && !IsLineTerminator(s[x]) then DashThenRest(s, x + 1)
    else None
  }

  /** A character `.` matches. */
  predicate OnLine(c: char) {
    !IsLineTerminator(c)
  }

  /** The start of a word at `p`: `\b` before a word character. */
  predicate WordStart(s: string, p: nat) {
    p == 0 || (p <= |s| && !IsWordChar(s[p - 1]))
  }

  /**
   The reference row. The year of its date takes two to four digits greedily
   and white space must follow, so the whole digit run is the year and it
   must be two to four digits long. `\d+` after the reference takes a whole
   digit run: giving digits back only lets `.*?` consume them again.
   */
  function ReferenceRowAt(s: string, p: nat): (r: Option<RowMatch>)
    ensures r.Some? ==> r.value.start == p && Within(r.value, s) && |r.value.groups| == 4
    ensures r.Some? ==> MoneyAt(s, r.value.groups[3])
  {
    if !MaskAt(s, p, "##/##/##") then None
    else
      var y := Span(s, p + 6, IsDigit);
      var w1 := p + 6 + y;
      if !(y <= 4 && w1 < |s| && IsSpace(s[w1])) then None
      else
        var a := w1 + Span(s, w1, IsSpace);
        if !(MaskAt(s, a, "##/####") && a + 7 < |s| && IsSpace(s[a + 7])) then None
        else
          var c := a + 7 + Span(s, a + 7, IsSpace);
          var n := Span(s, c, IsDigit);
          if n == 0 then None
          else match DashThenRest(s, c + n)
            case Some((desc, value)) => Some(Row4(s, p, Group(p, w1), Group(a, a + 7), desc, value, value.end))
            case None => None
  }

  /** A full date `dd/dd/dddd` at `p` followed by white space. */
  predicate FullDateThenSpace(s: string, p: nat) {
    MaskAt(s, p, "##/##/####") && p + 10 < |s| && IsSpace(s[p + 10])
  }

  /** Dated row: `(\d{2}\/\d{2}\/\d{4})\s+(.+?)\s+(?:R\$\s*)?(G)`. */
  function DatedRowAt(s: string, p: nat): (r: Option<RowMatch>)
    ensures r.Some? ==> r.value.start == p && Within(r.value, s) && |r.value.groups| == 3
    ensures r.Some? ==> MoneyAt(s, r.value.groups[2])
  {
    if !FullDateThenSpace(s, p) then None
    else match SpaceThenDesc(s, p + 10, Span(s, p + 10, IsSpace), true)
      case Some((desc, value)) => Some(Row3(s, p, Group(p, p + 10), desc, value, value.end))
      case None => None
  }

  /**
   A dated row whose description is only the white space given back by the
   run after the date: with no word between the date and the amount, the
   description is one space and the amount still reads.
   */
  lemma DatedRowGivesSpaceBack(s: string)
    requires s == "01/02/2024   1.234,56"
    ensures DatedRowAt(s, 0).Some?
    ensures DatedRowAt(s, 0).value.groups[1] == Group(11, 12)
    ensures DatedRowAt(s, 0).value.groups[2] == Group(13, 21)
  {
    SpaceGivenBack(s);
    assert FullDateThenSpace(s, 0) && Span(s, 10, IsSpace) == 3;
    assert DatedRowAt(s, 0) == Some(Row3(s, 0, Group(0, 10), Group(11, 12), Group(13, 21), 21));
  }

  /** The run of three spaces in the example gives two of them back before the amount reads. */
  lemma SpaceGivenBack(s: string)
    requires s == "01/02/2024   1.234,56"
    ensures FullDateThenSpace(s, 0) && Span(s, 10, IsSpace) == 3
    ensures SpaceThenDesc(s, 10, 3, true) == Some((Group(11, 12), Group(13, 21)))
  {
    ExampleRuns(s);
    NoSpaceNoDesc(s, 13, 14, true);
    NoSpaceNoDesc(s, 12, 13, true);
    assert SpaceThenDesc(s, 10, 3, true) == SpaceThenDesc(s, 10, 2, true);
    assert SpaceThenDesc(s, 10, 2, true) == SpaceThenDesc(s, 10, 1, true);
  }

  /** The row of the white-space example: a date, three spaces and an amount. */
  function ExampleRow(): string {
    "01/02/2024   1.234,56"
  }

  /** The runs of the example: the date, then three spaces, then the amount with no white space in it. */
  lemma ExampleRuns(s: string)
    requires s == ExampleRow()
    ensures FullDateThenSpace(s, 0) && Span(s, 10, IsSpace) == 3 && Span(s, 12, IsSpace) == 1
    ensures forall k :: 13 <= k < |s| ==> !IsSpace(s[k])
    ensures DescThenValue(s, 11, 12, true) == Some((Group(11, 12), Group(13, 21)))
  {
    hide *;
    ExampleTail(s);
    ExampleDate(s);
    ExampleSpaces(s);
    ExampleAmount(s);
    DateSpacesAmount(s);
  }

  /**
   A text of 21 characters with a full date, three spaces, and an amount from
   position 13 holding no white space has the runs of the example.
   */
  lemma DateSpacesAmount(s: string)
    requires |s| == 21 && s[10] == ' ' && s[11] == ' ' && s[12] == ' ' && s[13] == '1'
    requires forall k :: 13 <= k < |s| ==> !IsSpace(s[k])
    requires ValueAt(s, 13, true) == Some(Group(13, 21))
    ensures Span(s, 10, IsSpace) == 3 && Span(s, 12, IsSpace) == 1
    ensures DescThenValue(s, 11, 12, true) == Some((Group(11, 12), Group(13, 21)))
  {
    ThreeSpaces(s);
    assert !IsLineTerminator(s[11]) && IsSpace(s[12]);
    hide *;
    DescEndsAt(s, 11, 12, true, Group(13, 21));
  }

  /** Three spaces at 10, 11 and 12 and none at 13 make runs of three and of one. */
  lemma ThreeSpaces(s: string)
    requires |s| > 13 && s[10] == ' ' && s[11] == ' ' && s[12] == ' ' && !IsSpace(s[13])
    ensures Span(s, 10, IsSpace) == 3 && Span(s, 12, IsSpace) == 1
  {
    SpanExact(s, 12, 1, IsSpace);
    SpanExact(s, 10, 3, IsSpace);
  }

  /** The lazy description stops at the first white space that a money group follows. */
  lemma DescEndsAt(s: string, d: nat, j: nat, currency: bool, value: Group)
    requires d < j < |s| && !IsLineTerminator(s[j - 1]) && IsSpace(s[j])
    requires ValueAt(s, j + Span(s, j, IsSpace), currency) == Some(value)
    ensures DescThenValue(s, d, j, currency) == Some((Group(d, j), value))
  {
  }

  /** The example opens with a full date, then white space. */
  lemma ExampleDate(s: string)
    requires s == ExampleRow()
    ensures FullDateThenSpace(s, 0)
  {
    assert s[..10] == "01/02/2024";
    assert s[10] == ' ';
  }

  /** The date of the example is followed by three spaces and then a digit. */
  lemma ExampleSpaces(s: string)
    requires s == ExampleRow()
    ensures |s| == 21 && s[10] == ' ' && s[11] == ' ' && s[12] == ' ' && s[13] == '1'
  {
  }

  /** The example holds no white space from the amount on. */
  lemma ExampleTail(s: string)
    requires s == ExampleRow()
    ensures forall k :: 13 <= k < |s| ==> !IsSpace(s[k])
  {
    forall k | 13 <= k < |s|
      ensures !IsSpace(s[k])
    {
      assert IsDigit(s[k]) || s[k] == '.' || s[k] == ',';
    }
  }

  /** The amount of the example reads from position 13 to the end. */
  lemma ExampleAmount(s: string)
    requires s == ExampleRow()
    ensures ValueAt(s, 13, true) == Some(Group(13, 21))
  {
    assert s[13] == '1' && s[14] == '.' && s[18] == ',' && s[19] == '5' && s[20] == '6';
    assert !StartsAt(s, 13, "R$");
    assert SkipCurrency(s, 13, false) == 13;
    assert Span(s, 13, IsDigit) == 1;
    assert GroupsEnd(s, 14) == 18;
    assert GroupedAt(s, 13) == Some(21);
  }

  /** With no white space from `j` on, no description ends and no money group follows. */
  lemma NoSpaceNoDesc(s: string, d: nat, j: nat, currency: bool)
    requires d < j <= |s|
    requires forall k :: j <= k < |s| ==> !IsSpace(s[k])
    ensures DescThenValue(s, d, j, currency).None?
    decreases |s| - j
  {
    if j < |s| {
      NoSpaceNoDesc(s, d, j + 1, currency);
    }
  }

  /**
   Amount then name: `(\d{2}\/\d{2}\/\d{4})\s+(?:R\$\s*)?(G)\s+([A-ZÁÀÂÃÉÊÍÓÔÕÚÇ].*)`.
   The capital letter is matched case-sensitively and `.*` runs to the end
   of the line.
   */
  function AmountThenNameAt(s: string, p: nat): (r: Option<RowMatch>)
    ensures r.Some? ==> r.value.start == p && Within(r.value, s) && |r.value.groups| == 3
    ensures r.Some? ==> MoneyAt(s, r.value.groups[1])
  {
    if !FullDateThenSpace(s, p) then None
    else match ValueAt(s, p + 10 + Span(s, p + 10, IsSpace), true)
      case None => None
      case Some(value) =>
        var e := value.end;
        if !(e < |s| && IsSpace(s[e])) then None
        else
          var f := e + Span(s, e, IsSpace);
          if !(f < |s| && IsNameCapital(s[f])) then None
          else
            var g := f + Span(s, f, OnLine);
            Some(Row3(s, p, Group(p, p + 10), value, Group(f, g), g))
  }

  /**
   Month rows: a word-start, the month part `mask` (three word characters
   or two digits), `/`, a four-digit year ending a word, white space, then a
   description and the money group.
   */
  function MonthRowAt(s: string, p: nat, byName: bool): (r: Option<RowMatch>)
    ensures r.Some? ==> r.value.start == p && Within(r.value, s) && |r.value.groups| == 3
    ensures r.Some? ==> MoneyAt(s, r.value.groups[2])
  {
    var k := if byName then 3 else 2;
    var monthOk :=
      if byName then p + 3 <= |s| && All(s[p..p + 3], IsWordChar)
      else MaskAt(s, p, "##");
    if !(WordStart(s, p) && monthOk && MaskAt(s, p + k, "/####") && p + k + 5 < |s| && IsSpace(s[p + k + 5])) then None
    else match SpaceThenDesc(s, p + k + 5, Span(s, p + k + 5, IsSpace), true)
      case Some((desc, value)) => Some(Row3(s, p, Group(p, p + k + 5), desc, value, value.end))
      case None => None
  }

  /** Dated amount: `(\d{2}\/\d{2}\/\d{4})\s+(?:R\$\s*)?(G)`. */
  function DatedAmountAt(s: string, p: nat): (r: Option<RowMatch>)
    ensures r.Some? ==> r.value.start == p && Within(r.value, s) && |r.value.groups| == 2
    ensures r.Some? ==> MoneyAt(s, r.value.groups[1])
  {
    if !FullDateThenSpace(s, p) then None
    else match ValueAt(s, p + 10 + Span(s, p + 10, IsSpace), true)
      case Some(value) => Some(Row2(s, p, Group(p, p + 10), value, value.end))
      case None => None
  }

  /** The shape `pattern` matched starting exactly at `p`. */
  function RowAt(pattern: RowPattern, s: string, p: nat): (r: Option<RowMatch>)
    ensures r.Some? ==> r.value.start == p && Within(r.value, s) && |r.value.groups| == GroupCount(pattern)
    ensures r.Some? ==> FieldsFit(pattern, r.value) && ValueShaped(pattern, s, r.value)
  {
    match pattern
    case ReferenceRow => ReferenceRowAt(s, p)
    case DatedRow => DatedRowAt(s, p)
    case AmountThenName => AmountThenNameAt(s, p)
    case MonthNameRow => MonthRowAt(s, p, true)
    case MonthRow => MonthRowAt(s, p, false)
    case DatedAmount => DatedAmountAt(s, p)
  }

  /** `m` describes a pattern's matches: a match found at `q` starts there and ends after it, by `last`. */
  ghost predicate Advances(m: nat -> Option<RowMatch>, last: nat) {
    forall q: nat :: m(q).Some? ==> m(q).value.start == q && q < m(q).value.end <= last
  }

  /** Nothing matches at any position in `a..b` (`b` excluded). */
  ghost predicate NoMatchIn(m: nat -> Option<RowMatch>, a: nat, b: nat) {
    forall q: nat :: a <= q < b ==> m(q).None?
  }

  /** Every match was found by `m` at its start, from `from` on, each ending before the next starts. */
  ghost predicate FoundInOrder(m: nat -> Option<RowMatch>, from: nat, ms: seq<RowMatch>) {
    (forall i :: 0 <= i < |ms| ==> from <= ms[i].start && m(ms[i].start) == Some(ms[i]))
    && forall i :: 0 <= i < |ms| - 1 ==> ms[i].end <= ms[i + 1].start
  }

  /** Nothing matches before the first match, between consecutive matches, or after the last one (up to `last`). */
  ghost predicate NoneSkipped(m: nat -> Option<RowMatch>, from: nat, last: nat, ms: seq<RowMatch>) {
    NoMatchIn(m, from, if |ms| == 0 then last + 1 else ms[0].start)
    && (forall i :: 0 <= i < |ms| - 1 ==> NoMatchIn(m, ms[i].end, ms[i + 1].start))
    && (|ms| > 0 ==> NoMatchIn(m, ms[|ms| - 1].end, last + 1))
  }

  /**
   The matches a global `exec` loop finds from `from` when `m` says what
   matches at each position: each search starts where the previous match
   ended. The matches come in order without overlapping, and nothing matches
   anywhere the loop skipped.
   */
  function ExecAll(m: nat -> Option<RowMatch>, last: nat, from: nat): (ms: seq<RowMatch>)
    requires from <= last && Advances(m, last)
    ensures FoundInOrder(m, from, ms) && NoneSkipped(m, from, last, ms)
    decreases last - from
  {
    match FirstFrom(from, last, m)
    case None => []
    case Some(h) =>
      var rest := ExecAll(m, last, h.value.end);
      var ms := [h.value] + rest;
      ExecStep(m, from, last, h.value, rest);
      ms
  }

  lemma ExecStep(m: nat -> Option<RowMatch>, from: nat, last: nat, first: RowMatch, rest: seq<RowMatch>)
    requires from <= first.start < first.end <= last && m(first.start) == Some(first)
    requires NoMatchIn(m, from, first.start)
    requires FoundInOrder(m, first.end, rest) && NoneSkipped(m, first.end, last, rest)
    ensures FoundInOrder(m, from, [first] + rest) && NoneSkipped(m, from, last, [first] + rest)
  {
    var ms := [first] + rest;
    assert forall i :: 1 <= i < |ms| ==> ms[i] == rest[i - 1];
    if |rest| > 0 {
      assert NoMatchIn(m, ms[0].end, ms[1].start);
    }
  }

  /** What the shape matches at each position. */
  function Matcher(pattern: RowPattern, s: string): (m: nat -> Option<RowMatch>)
    ensures forall q: nat :: m(q) == RowAt(pattern, s, q)
    ensures Advances(m, |s|)
  {
    (q: nat) => RowAt(pattern, s, q)
  }

  /** The matches of one shape over the whole text. */
  function MatchesOf(pattern: RowPattern, s: string): (ms: seq<RowMatch>)
    ensures FoundInOrder(Matcher(pattern, s), 0, ms) && NoneSkipped(Matcher(pattern, s), 0, |s|, ms)
  {
    ExecAll(Matcher(pattern, s), |s|, 0)
  }

  // ---------------------------------------------------------------------------
  // Items

  /** A debt row read from the document. */
  datatype DebtItem = DebtItem(dueDate: Date, description: string, amount: real)

  /** `Number(t)` for the texts a date group splits into: an all-digit text (after trimming) reads as its value; the empty text reads as 0. */
  function NumberOf(t: string): Option<int> {
    var u := Trim(t);
    if u == "" then Some(0) else if All(u, IsDigit) then Some(DigitsValue(u)) else None
  }

  /** The Portuguese month abbreviations and their month indexes. */
  const MonthMap: map<string, int> := map[
    "jan" := 0, "fev" := 1, "mar" := 2, "abr" := 3, "mai" := 4, "jun" := 5,
    "jul" := 6, "ago" := 7, "set" := 8, "out" := 9, "nov" := 10, "dez" := 11]

  /** `t.toLowerCase()` on the ASCII text a month group holds. */
  function LowerString(t: string): (u: string)
    ensures |u| == |t| && forall i :: 0 <= i < |t| ==> u[i] == Lower(t[i])
  {
    seq(|t|, i requires 0 <= i < |t| => Lower(t[i]))
  }

  /** `part.toLowerCase().substring(0, 3)`. */
  function MonthKey(part: string): (key: string)
    ensures |key| == if |part| < 3 then |part| else 3
  {
    LowerString(part)[..if |part| < 3 then |part| else 3]
  }

  /**
   The month index of the first part of a `month/year` date: the index its
   lower-cased first three characters have in the month map, otherwise the
   integer it starts with, minus one.
   */
  function MonthOf(part: string): Option<int> {
    var key := MonthKey(part);
    if key in MonthMap then Some(MonthMap[key])
    else match ParseInt(part)
      case Some(v) => Some(v - 1)
      case None => None
  }

  /**
   The due date a date group reads as. `day/month/year` reads each part as
   a number and adds 2000 to a year below 100; `month/year` reads the month
   by name or number and gives the first of that month. A date whose parts
   do not read is no date.
   */
  function RowDate(t: string): Option<Date> {
    if '/' !in t then None else PartsDate(Split(t, '/'))
  }

  function PartsDate(parts: seq<string>): Option<Date> {
    if |parts| == 3 then DayMonthYear(parts[0], parts[1], parts[2])
    else if |parts| == 2 then MonthYear(parts[0], parts[1])
    else None
  }

  /** `day/month/year`: each part read as a number, 2000 added to a year below 100. */
  function DayMonthYear(day: string, month: string, year: string): Option<Date> {
    var d, m, y := NumberOf(day), NumberOf(month), NumberOf(year);
    if d.Some? && m.Some? && y.Some? then
      Some(NewDate(if y.value < 100 then y.value + 2000 else y.value, m.value - 1, d.value))
    else None
  }

  /** `month/year`: the month by name or number, the first of the month. */
  function MonthYear(month: string, year: string): Option<Date> {
    var m, y := MonthOf(month), ParseInt(year);
    if m.Some? && y.Some? then Some(NewDate(y.value, m.value, 1)) else None
  }

  /** A non-empty digit text reads through `Number` as its value. */
  lemma NumberOfDigits(ds: string)
    requires |ds| >= 1 && All(ds, IsDigit)
    ensures NumberOf(ds) == Some(DigitsValue(ds))
  {
    TrimUnspaced(ds);
  }

  lemma DigitsHaveNoSlash(ds: string)
    requires All(ds, IsDigit)
    ensures '/' !in ds
  {
    forall k | 0 <= k < |ds|
      ensures ds[k] != '/'
    {
      assert IsDigit(ds[k]);
    }
  }

  /** Three pieces without `/` joined by `/` split back into those pieces. */
  lemma SplitThree(a: string, b: string, c: string)
    requires '/' !in a && '/' !in b && '/' !in c
    ensures Split(a + "/" + b + "/" + c, '/') == [a, b, c]
    ensures '/' in a + "/" + b + "/" + c
  {
    var rest := b + "/" + c;
    JoinedAt(a, b, c);
    hide *;
    SplitFirst(a, '/', rest);
    SplitTwo(b, c);
  }

  lemma JoinedAt(a: string, b: string, c: string)
    ensures a + "/" + b + "/" + c == a + ['/'] + (b + "/" + c)
    ensures (a + "/" + b + "/" + c)[|a|] == '/'
  {
  }

  /** Two pieces without `/` joined by `/` split back into those pieces. */
  lemma SplitTwo(a: string, b: string)
    requires '/' !in a && '/' !in b
    ensures Split(a + "/" + b, '/') == [a, b]
    ensures '/' in a + "/" + b
  {
    var t := a + "/" + b;
    assert t == a + ['/'] + b;
    assert t[|a|] == '/';
    SplitFirst(a, '/', b);
    SplitWhole(b, '/');
  }

  /** Digit parts read as their values. */
  lemma DayMonthYearOfDigits(day: string, month: string, year: string)
    requires |day| >= 1 && |month| >= 1 && |year| >= 1
    requires All(day, IsDigit) && All(month, IsDigit) && All(year, IsDigit)
    ensures var y := DigitsValue(year);
      DayMonthYear(day, month, year)
        == Some(NewDate(if y < 100 then y + 2000 else y, DigitsValue(month) - 1, DigitsValue(day)))
  {
    hide *;
    NumberOfDigits(day);
    NumberOfDigits(month);
    NumberOfDigits(year);
    DayMonthYearOf(day, month, year, DigitsValue(day), DigitsValue(month), DigitsValue(year));
  }

  lemma DayMonthYearOf(day: string, month: string, year: string, d: int, m: int, y: int)
    requires NumberOf(day) == Some(d) && NumberOf(month) == Some(m) && NumberOf(year) == Some(y)
    ensures DayMonthYear(day, month, year) == Some(NewDate(if y < 100 then y + 2000 else y, m - 1, d))
  {
    hide NumberOf, NewDate;
  }

  /** Three parts without `/` joined by `/` read as a day-month-year date. */
  lemma RowDateOfThree(day: string, month: string, year: string)
    requires '/' !in day && '/' !in month && '/' !in year
    ensures RowDate(day + "/" + month + "/" + year) == DayMonthYear(day, month, year)
  {
    SplitThree(day, month, year);
  }

  /** Two parts without `/` joined by `/` read as a month-year date. */
  lemma RowDateOfTwo(month: string, year: string)
    requires '/' !in month && '/' !in year
    ensures RowDate(month + "/" + year) == MonthYear(month, year)
  {
    SplitTwo(month, year);
  }

  /**
   `day/month/year` in digits reads as that day of that month (indexed from
   0), the year taken 2000 later when it is below 100.
   */
  lemma ThreePartDate(day: string, month: string, year: string)
    requires |day| >= 1 && |month| >= 1 && |year| >= 1
    requires All(day, IsDigit) && All(month, IsDigit) && All(year, IsDigit)
    ensures var y := DigitsValue(year);
      RowDate(day + "/" + month + "/" + year)
        == Some(NewDate(if y < 100 then y + 2000 else y, DigitsValue(month) - 1, DigitsValue(day)))
  {
    DigitsHaveNoSlash(day);
    DigitsHaveNoSlash(month);
    DigitsHaveNoSlash(year);
    RowDateOfThree(day, month, year);
    DayMonthYearOfDigits(day, month, year);
  }

  /** A non-empty string of decimal digits. */
  predicate IsNumeral(s: string) {
    |s| >= 1 && All(s, IsDigit)
  }

  /** `mm/yyyy` (any number of digits) reads as the first of month `mm` (counted from 1) of year `yyyy`. */
  lemma NumericMonthDate(month: string, year: string)
    requires IsNumeral(month) && IsNumeral(year)
    ensures RowDate(month + "/" + year) == Some(NewDate(DigitsValue(year), DigitsValue(month) - 1, 1))
  {
    DigitsRowDateOfTwo(month, year);
    NumericMonthYear(month, year);
  }

  /** A month in digits is no month name, so it is read as a number. */
  lemma NumericMonthYear(month: string, year: string)
    requires IsNumeral(month) && IsNumeral(year)
    ensures MonthYear(month, year) == Some(NewDate(DigitsValue(year), DigitsValue(month) - 1, 1))
  {
    ParseIntOfDigits(month);
    ParseIntOfDigits(year);
    DigitKeyUnmapped(month);
    NumberedMonthYear(month, year, DigitsValue(month), DigitsValue(year));
  }

  /** A month part that is no month name and reads as the integer `mv` gives month `mv - 1`. */
  lemma NumberedMonthYear(month: string, year: string, mv: int, yv: int)
    requires MonthKey(month) !in MonthMap && ParseInt(month) == Some(mv) && ParseInt(year) == Some(yv)
    ensures MonthYear(month, year) == Some(NewDate(yv, mv - 1, 1))
  {
  }

  lemma DigitKeyUnmapped(month: string)
    requires IsNumeral(month)
    ensures MonthKey(month) !in MonthMap
  {
    assert IsDigit(MonthKey(month)[0]);
  }

  lemma DigitsRowDateOfTwo(month: string, year: string)
    requires All(month, IsDigit) && All(year, IsDigit)
    ensures RowDate(month + "/" + year) == MonthYear(month, year)
  {
    DigitsHaveNoSlash(month);
    DigitsHaveNoSlash(year);
    RowDateOfTwo(month, year);
  }

  lemma NamedRowDateOfTwo(name: string, year: string)
    requires |name| == 3 && LowerString(name) in MonthMap && All(year, IsDigit)
    ensures RowDate(name + "/" + year) == MonthYear(name, year)
  {
    var key := LowerString(name);
    assert '/' !in key;
    forall k | 0 <= k < 3
      ensures name[k] != '/'
    {
      assert key[k] == Lower(name[k]);
    }
    DigitsHaveNoSlash(year);
    RowDateOfTwo(name, year);
  }

  /** Once the month and the year have read, the date is the first of that month. */
  lemma MonthYearOf(month: string, year: string, mv: int, yv: int)
    requires MonthOf(month) == Some(mv) && ParseInt(year) == Some(yv)
    ensures MonthYear(month, year) == Some(NewDate(yv, mv, 1))
  {
  }

  /** `mmm/yyyy` with a month abbreviation (in any case) reads as the first of that month. */
  lemma NamedMonthDate(name: string, year: string)
    requires |name| == 3 && LowerString(name) in MonthMap
    requires |year| >= 1 && All(year, IsDigit)
    ensures RowDate(name + "/" + year) == Some(NewDate(DigitsValue(year), MonthMap[LowerString(name)], 1))
  {
    NamedRowDateOfTwo(name, year);
    NamedMonthYear(name, year, MonthMap[LowerString(name)], DigitsValue(year));
  }

  /** The value-level step of `NamedMonthDate`, with the two values named. */
  lemma NamedMonthYear(name: string, year: string, mv: int, yv: int)
    requires |name| == 3 && LowerString(name) in MonthMap && mv == MonthMap[LowerString(name)]
    requires |year| >= 1 && All(year, IsDigit) && yv == DigitsValue(year)
    ensures MonthYear(name, year) == Some(NewDate(yv, mv, 1))
  {
    NamedMonth(name);
    ParseIntOfDigits(year);
    MonthYearOf(name, year, mv, yv);
  }

  lemma NamedMonth(name: string)
    requires |name| == 3 && LowerString(name) in MonthMap
    ensures MonthOf(name) == Some(MonthMap[LowerString(name)])
  {
    assert MonthKey(name) == LowerString(name);
  }

  function DescriptionOf(pattern: RowPattern, s: string, m: RowMatch): string
    requires Within(m, s) && FieldsFit(pattern, m)
  {
    match FieldsOf(pattern).description
    case Fixed(text) => text
    case FromGroup(k, fallback) =>
      var t := Trim(GroupText(s, m, k));
      if t == "" && fallback.Some? then fallback.value else t
  }

  /** The item a match gives: kept only when the amount reads as a positive number and the date reads. */
  function ItemOf(pattern: RowPattern, s: string, m: RowMatch): (r: Option<DebtItem>)
    requires Within(m, s) && FieldsFit(pattern, m)
    ensures r.Some? ==> r.value.amount > 0.0
    ensures r.Some? ==> Some(r.value.dueDate) == RowDate(GroupText(s, m, FieldsOf(pattern).date))
  {
    var f := FieldsOf(pattern);
    var dateText, valueText := GroupText(s, m, f.date), GroupText(s, m, f.value);
    if dateText == "" || valueText == "" then None
    else match ParseFloat(Normalise(valueText))
      case None => None
      case Some(amount) =>
        if amount <= 0.0 then None
        else match RowDate(dateText)
          case None => None
          case Some(d) => Some(DebtItem(d, DescriptionOf(pattern, s, m), amount))
  }

  /**
   A match of a shape keeps its item exactly when its amount, read in
   cents, is positive and its date reads; the item's amount is that reading.
   */
  lemma ItemKept(pattern: RowPattern, s: string, m: RowMatch)
    requires RowAt(pattern, s, m.start) == Some(m)
    ensures var f := FieldsOf(pattern);
      var value := CaptureValue(GroupText(s, m, f.value));
      && (ItemOf(pattern, s, m).Some? <==> value > 0.0 && RowDate(GroupText(s, m, f.date)).Some?)
      && (ItemOf(pattern, s, m).Some? ==> ItemOf(pattern, s, m).value.amount == value)
  {
    var valueText := GroupText(s, m, FieldsOf(pattern).value);
    assert MoneyAt(s, m.groups[FieldsOf(pattern).value - 1]);
    GroupedParses(valueText);
    ItemOfReads(pattern, s, m, CaptureValue(valueText));
  }

  lemma ItemOfReads(pattern: RowPattern, s: string, m: RowMatch, value: real)
    requires Within(m, s) && FieldsFit(pattern, m)
    requires GroupText(s, m, FieldsOf(pattern).value) != ""
    requires ParseFloat(Normalise(GroupText(s, m, FieldsOf(pattern).value))) == Some(value)
    ensures ItemOf(pattern, s, m).Some? <==> value > 0.0 && RowDate(GroupText(s, m, FieldsOf(pattern).date)).Some?
    ensures ItemOf(pattern, s, m).Some? ==> ItemOf(pattern, s, m).value.amount == value
  {
    var dateText := GroupText(s, m, FieldsOf(pattern).date);
    if RowDate(dateText).Some? {
      RowDateHasSlash(dateText);
    }
  }

  lemma RowDateHasSlash(t: string)
    requires RowDate(t).Some?
    ensures t != ""
  {
  }

  /** The items of a sequence of matches, in order. */
  function ItemsFrom(pattern: RowPattern, s: string, ms: seq<RowMatch>): (items: seq<DebtItem>)
    requires forall i :: 0 <= i < |ms| ==> Within(ms[i], s) && FieldsFit(pattern, ms[i])
    ensures |items| <= |ms|
    ensures forall i :: 0 <= i < |items| ==> items[i].amount > 0.0
  {
    if |ms| == 0 then []
    else
      var rest := ItemsFrom(pattern, s, ms[1..]);
      match ItemOf(pattern, s, ms[0])
      case Some(item) => [item] + rest
      case None => rest
  }

  /** The items one shape yields over the whole text. */
  function ItemsOf(pattern: RowPattern, s: string): (items: seq<DebtItem>)
    ensures forall i :: 0 <= i < |items| ==> items[i].amount > 0.0
  {
    var ms := MatchesOf(pattern, s);
    assert forall i :: 0 <= i < |ms| ==> Within(ms[i], s) && FieldsFit(pattern, ms[i]) by {
      forall i | 0 <= i < |ms| ensures Within(ms[i], s) && FieldsFit(pattern, ms[i]) {
        assert Matcher(pattern, s)(ms[i].start) == Some(ms[i]);
        assert RowAt(pattern, s, ms[i].start) == Some(ms[i]);
      }
    }
    ItemsFrom(pattern, s, ms)
  }

  // ---------------------------------------------------------------------------
  // Accumulation

  /** The items of every shape, in table order. Scanning is pure, so computing them all up front changes nothing. */
  function ShapeItems(s: string): (found: seq<seq<DebtItem>>)
    ensures |found| == |RowTable|
    ensures forall k :: 0 <= k < |found| ==> found[k] == ItemsOf(RowTable[k], s)
  {
    seq(|RowTable|, k requires 0 <= k < |RowTable| => ItemsOf(RowTable[k], s))
  }

  /** Reference: the items of the first `k` shapes, concatenated in table order. */
  function Collected(found: seq<seq<DebtItem>>, k: nat): seq<DebtItem>
    requires k <= |found|
  {
    if k == 0 then [] else Collected(found, k - 1) + found[k - 1]
  }

  /** None of the running totals after `a..b` shapes (`b` excluded) held more than one item. */
  ghost predicate AtMostOneUntil(found: seq<seq<DebtItem>>, a: nat, b: nat)
    requires b <= |found|
  {
    forall i :: a <= i < b ==> |Collected(found, i)| <= 1
  }

  /** The items gathered and how many shapes were scanned to gather them. */
  datatype RowScan = RowScan(items: seq<DebtItem>, used: nat)

  /** The parser's loop from shape `k` on, with `acc` gathered so far: stop once more than one item is held. */
  function CollectLoop(found: seq<seq<DebtItem>>, k: nat, acc: seq<DebtItem>): (r: RowScan)
    requires k <= |found| && acc == Collected(found, k) && |acc| <= 1
    ensures k <= r.used <= |found| && r.items == Collected(found, r.used)
    ensures r.used == |found| || |r.items| > 1
    ensures AtMostOneUntil(found, k, r.used)
    decreases |found| - k
  {
    if k == |found| then RowScan(acc, k)
    else
      var next := acc + found[k];
      if |next| > 1 then RowScan(next, k + 1) else CollectLoop(found, k + 1, next)
  }

  /**
   The debt items of a text: the shapes are scanned in table order and the
   scan stops after the first shape that brings the total above one item.
   */
  function CollectRows(s: string): (r: RowScan)
    ensures 1 <= r.used <= |RowTable| && r.items == Collected(ShapeItems(s), r.used)
    ensures r.used == |RowTable| || |r.items| > 1
    ensures AtMostOneUntil(ShapeItems(s), 0, r.used)
  {
    CollectLoop(ShapeItems(s), 0, [])
  }

  /** Every gathered item has a positive amount. */
  lemma {:induction false} CollectedPositive(s: string, k: nat)
    requires k <= |RowTable|
    ensures forall i :: 0 <= i < |Collected(ShapeItems(s), k)| ==> Collected(ShapeItems(s), k)[i].amount > 0.0
  {
    hide ItemsOf, ShapeItems;
    if k > 0 {
      CollectedPositive(s, k - 1);
      var found := ShapeItems(s);
      var a: seq<DebtItem>, b: seq<DebtItem> := Collected(found, k - 1), found[k - 1];
      var ab := a + b;
      assert Collected(found, k) == ab;
      forall i | 0 <= i < |ab| ensures ab[i].amount > 0.0 {
        if i >= |a| { assert ab[i] == b[i - |a|]; }
      }
    }
  }

  /** The sum of the items' amounts. */
  function Sum(items: seq<DebtItem>): real {
    if |items| == 0 then 0.0 else items[0].amount + Sum(items[1..])
  }

  /** A non-empty list of positive amounts sums to a positive total. */
  lemma {:induction false} SumPositive(items: seq<DebtItem>)
    requires |items| > 0 && forall i :: 0 <= i < |items| ==> items[i].amount > 0.0
    ensures Sum(items) > 0.0
    decreases |items|
  {
    if |items| > 1 {
      SumPositive(items[1..]);
    }
  }
}

/**
 The text stage of the PDF parser: from the text a PDF yields to a parsed
 document. Extracting the text from the PDF bytes happens outside this model;
 the input here is that text.

 The text is cut into trimmed, non-empty lines. The condominium's name comes
 from the first ten lines, the debtor's name and unit from a line-by-line
 scan with three recognisers (a `unit - NAME` row, a labelled name, a
 labelled unit), then a fallback for the name; the amount, due date and
 document number come from the leaf extractors, and the debt items from the
 row table.
 */
module PdfParser {
  import opened Wrappers
  import opened Chars
  import opened Numbers
  import opened Scan
  import opened Dates
  import opened Amounts
  import opened Extractors
  import opened DebtRows
  import opened Documents

  // ---------------------------------------------------------------------------
  // Lines

  /** `text.split('\n').map(l => l.trim()).filter(Boolean)`. */
  function Lines(text: string): (ls: seq<string>)
    ensures forall i :: 0 <= i < |ls| ==> ls[i] != "" && Trim(ls[i]) == ls[i]
  {
    KeptLines(Split(text, '\n'))
  }

  /** The trimmed pieces that are not empty, in order. */
  function KeptLines(pieces: seq<string>): (ls: seq<string>)
    ensures forall i :: 0 <= i < |ls| ==> ls[i] != "" && Trim(ls[i]) == ls[i]
  {
    if |pieces| == 0 then []
    else
      var t := Trim(pieces[0]);
      if t == "" then KeptLines(pieces[1..])
      else
        TrimUnspaced(t);
        [t] + KeptLines(pieces[1..])
  }

  /** The line a piece of text without a line break contributes: its trim, unless that is empty. */
  function LineOf(piece: string): seq<string> {
    if Trim(piece) == "" then [] else [Trim(piece)]
  }

  /** Text without a line break is at most one line. */
  lemma LinesOfOne(a: string)
    requires '\n' !in a
    ensures Lines(a) == LineOf(a)
  {
    SplitWhole(a, '\n');
    assert KeptLines([a]) == LineOf(a) + KeptLines([]);
  }

  /** A line break splits the lines: those before it, then those after it. */
  lemma LinesOfJoin(a: string, b: string)
    requires '\n' !in a
    ensures Lines(a + "\n" + b) == LineOf(a) + Lines(b)
  {
    assert a + "\n" + b == a + ['\n'] + b;
    SplitFirst(a, '\n', b);
    var pieces := [a] + Split(b, '\n');
    assert pieces[1..] == Split(b, '\n');
  }

  // ---------------------------------------------------------------------------
  // Condominium name

  const CondoKeywords: seq<string> :=
    ["CONDOMINIO", "RESIDENCIAL", "EDIFICIO", "CHACARA", "VILA", "LOTEAMENTO", "CONJUNTO", "EMPRESARIAL", "ASSOCIACAO"]

  /** `[A-Z0-9]`, case-sensitive. */
  predicate IsCodeChar(c: char) {
    IsAsciiUpper(c) || IsDigit(c)
  }

  /** `s.replace(/^[A-Z0-9]+\s+/, '')`: a leading code and the white space after it are dropped. */
  function StripCode(s: string): (r: string)
    ensures r == s || (|r| + 2 <= |s| && r == s[|s| - |r|..] && IsCodeChar(s[0]) && IsSpace(s[|s| - |r| - 1]))
  {
    var n := Span(s, 0, IsCodeChar);
    if n >= 1 && n < |s| && IsSpace(s[n]) then s[n + Span(s, n, IsSpace)..] else s
  }

  /** A code, white space, then text that starts with no white space: the text is what is left. */
  lemma StripCodeOf(code: string, gap: string, rest: string)
    requires |code| >= 1 && All(code, IsCodeChar)
    requires |gap| >= 1 && All(gap, IsSpace)
    requires |rest| == 0 || !IsSpace(rest[0])
    ensures StripCode(code + gap + rest) == rest
  {
    var s := code + gap + rest;
    assert s == code + (gap + rest);
    assert !IsCodeChar(gap[0]) by { assert IsSpace(gap[0]); }
    SpanOfPrefix(code, gap + rest, 0, IsCodeChar);
    assert s == (code + gap) + rest;
    assert All((code + gap)[|code|..], IsSpace) by {
      assert (code + gap)[|code|..] == gap;
    }
    SpanOfPrefix(code + gap, rest, |code|, IsSpace);
    assert s[|code + gap|..] == rest;
  }

  /** `s.replace(/\(\d+\)$/, '')`: a count in parentheses at the very end is dropped. */
  function StripCount(s: string): (r: string)
    ensures r == s || (|r| + 3 <= |s| && s[..|r|] == r && s[|r|] == '(' && s[|s| - 1] == ')' && All(s[|r| + 1..|s| - 1], IsDigit))
  {
    if |s| >= 3 && s[|s| - 1] == ')' then
      var k := SpanBack(s, |s| - 1, IsDigit);
      if k >= 1 && k + 2 <= |s| && s[|s| - 2 - k] == '(' then
        assert s[|s| - 1 - k..|s| - 1] == s[|s[..|s| - 2 - k]| + 1..|s| - 1];
        s[..|s| - 2 - k]
      else s
    else s
  }

  /** Text followed by a count in parentheses: the count is what goes. */
  lemma StripCountOf(r: string, ds: string)
    requires |ds| >= 1 && All(ds, IsDigit)
    ensures StripCount(r + "(" + ds + ")") == r
  {
    var s := r + "(" + ds + ")";
    var k := |ds|;
    assert s[|s| - 1] == ')';
    assert s[|s| - 2 - k] == '(';
    SpanBackExact(s, |s| - 1, k, IsDigit);
    assert s[..|s| - 2 - k] == r;
  }

  /** A run of exactly `n` characters satisfying `p` ending before `j`, with none before it, has span `n`. */
  lemma {:induction false} SpanBackExact(s: string, j: nat, n: nat, p: char -> bool)
    requires n <= j <= |s|
    requires forall k :: j - n <= k < j ==> p(s[k])
    requires n == j || !p(s[j - n - 1])
    ensures SpanBack(s, j, p) == n
    decreases n
  {
    if n > 0 {
      SpanBackExact(s, j - 1, n - 1, p);
    }
  }

  /** The name a line offers for the condominium: it names a condominium keyword and is more than five characters once its code and count are dropped. */
  function CondoCandidate(line: string): Option<string> {
    if ContainsAny(UpperString(line), CondoKeywords) then
      var name := Trim(StripCount(StripCode(line)));
      if |name| > 5 then Some(name) else None
    else None
  }

  /** Only the first ten lines are looked at. */
  function CondoBound(lines: seq<string>): nat {
    if |lines| < 10 then |lines| else 10
  }

  /** The condominium's name: the offer of the first of the first ten lines that makes one. */
  function CondoName(lines: seq<string>): (r: Option<string>)
    ensures r.Some? ==> exists i :: 0 <= i < CondoBound(lines) && CondoCandidate(lines[i]) == r
                               && forall j :: 0 <= j < i ==> CondoCandidate(lines[j]).None?
    ensures r.None? ==> forall i :: 0 <= i < CondoBound(lines) ==> CondoCandidate(lines[i]).None?
  {
    CondoFrom(lines, 0)
  }

  function CondoFrom(lines: seq<string>, i: nat): (r: Option<string>)
    requires i <= CondoBound(lines)
    ensures r.Some? ==> exists k :: i <= k < CondoBound(lines) && CondoCandidate(lines[k]) == r
                               && forall j :: i <= j < k ==> CondoCandidate(lines[j]).None?
    ensures r.None? ==> forall k :: i <= k < CondoBound(lines) ==> CondoCandidate(lines[k]).None?
    decreases CondoBound(lines) - i
  {
    if i == CondoBound(lines) then None
    else match CondoCandidate(lines[i])
      case Some(name) => Some(name)
      case None => CondoFrom(lines, i + 1)
  }

  /** Lines after the tenth never name the condominium. */
  lemma CondoOnlyFirstTen(lines: seq<string>, more: seq<string>)
    requires |lines| >= 10
    ensures CondoName(lines + more) == CondoName(lines)
  {
    CondoFromPrefix(lines, more, 0);
  }

  lemma {:induction false} CondoFromPrefix(lines: seq<string>, more: seq<string>, i: nat)
    requires |lines| >= 10 && i <= 10
    ensures CondoFrom(lines + more, i) == CondoFrom(lines, i)
    decreases 10 - i
  {
    if i < 10 {
      assert (lines + more)[i] == lines[i];
      CondoFromPrefix(lines, more, i + 1);
    }
  }

  // ---------------------------------------------------------------------------
  // The `unit - NAME` line

  /** The two groups of a `unit - NAME` line, before trimming. */
  datatype DebtorRow = DebtorRow(unit: string, name: string)

  /** `\s+-\s+`. */
  predicate IsSpacedDash(m: string) {
    exists k :: 0 < k < |m| - 1 && m[k] == '-' && All(m[..k], IsSpace) && All(m[k + 1..], IsSpace)
  }

  /**
   `line.match(/^(\d+[A-Z0-9\s\/]*?)\s+-\s+([A-ZÁÀÂÃÉÊÍÓÔÕÚÇ\s]{5,})$/i)`.
   The dash is not a unit character, so it is the first character after the
   run of unit characters; the lazy unit group ends where the white space
   before the dash starts. The name group takes all of the rest, giving back
   leading white space only when fewer than five characters would be left.
   */
  function DebtorRowOf(s: string): Option<DebtorRow> {
    var d := Span(s, 0, IsDigit);
    if d == 0 then None else DebtorRowDash(s, d + Span(s, d, IsUnitChar))
  }

  /** The rest of the match once the unit characters end at `e`, where the dash must be. */
  function DebtorRowDash(s: string, e: nat): Option<DebtorRow>
    requires e <= |s|
  {
    if e == |s| || s[e] != '-' then None
    else DebtorRowSplit(s, e, SpanBack(s, e, IsSpace), Span(s, e + 1, IsSpace))
  }

  /** The two groups around the dash at `e`, with `back` spaces before it and `w` after it. */
  function DebtorRowSplit(s: string, e: nat, back: nat, w: nat): Option<DebtorRow>
    requires back <= e < |s|
  {
    if back == 0 || w == 0 || !All(s[e + 1..], IsNameOrSpace) || |s| - e - 2 < 5 then None
    else Some(DebtorRow(s[..e - back], s[if e + 1 + w <= |s| - 5 then e + 1 + w else |s| - 5..]))
  }

  /**
   What a `unit - NAME` line is made of: a unit that starts with a digit,
   a dash between white space, and a name of at least five letters or
   spaces running to the end.
   */
  predicate RowShape(s: string, u: string, n: string) {
    && |u| >= 1 && IsDigit(u[0]) && All(u, IsUnitChar)
    && |n| >= 5 && All(n, IsNameOrSpace)
    && |u| + |n| < |s| && s == u + s[|u|..|s| - |n|] + n && IsSpacedDash(s[|u|..|s| - |n|])
  }

  /** Every `unit - NAME` line the recogniser accepts has that shape, with the groups it returns. */
  lemma DebtorRowShape(s: string)
    requires DebtorRowOf(s).Some?
    ensures RowShape(s, DebtorRowOf(s).value.unit, DebtorRowOf(s).value.name)
  {
    hide Span, SpanBack, DebtorRowOf, IsSpace, IsDigit, IsUnitChar, IsNameOrSpace, All;
    var d := Span(s, 0, IsDigit);
    var e := d + Span(s, d, IsUnitChar);
    DebtorRowOfSome(s, d, e);
    var back := SpanBack(s, e, IsSpace);
    var c := e + 1;
    var w := Span(s, c, IsSpace);
    var b := if c + w <= |s| - 5 then c + w else |s| - 5;
    UnitGroupShape(s, d, e, back);
    NameGroupShape(s, c, b);
    DashShape(s, e, back, c, b);
    var u, n := DebtorRowOf(s).value.unit, DebtorRowOf(s).value.name;
    assert u == s[..e - back] && n == s[b..];
    hide *;
    RowShapeOf(s, e - back, b, u, n);
  }

  /** The shape, once the three slices are known. */
  lemma RowShapeOf(s: string, x: nat, b: nat, u: string, n: string)
    requires x < b <= |s| && u == s[..x] && n == s[b..]
    requires |s[..x]| >= 1 && IsDigit(s[..x][0]) && All(s[..x], IsUnitChar)
    requires |s[b..]| >= 5 && All(s[b..], IsNameOrSpace)
    requires IsSpacedDash(s[x..b])
    ensures RowShape(s, u, n)
  {
    ThreeSlices(s, x, b);
  }

  /** Three consecutive slices make up the whole. */
  lemma ThreeSlices(s: string, x: nat, b: nat)
    requires x <= b <= |s|
    ensures |s[..x]| == x && |s| - |s[b..]| == b
    ensures s == s[..x] + s[x..b] + s[b..]
  {
  }

  lemma UnitGroupShape(s: string, d: nat, e: nat, back: nat)
    requires 1 <= d <= e < |s| && d == Span(s, 0, IsDigit) && e == d + Span(s, d, IsUnitChar)
    requires back == SpanBack(s, e, IsSpace)
    ensures d <= e - back
    ensures var u := s[..e - back]; |u| >= 1 && IsDigit(u[0]) && All(u, IsUnitChar)
  {
    assert IsDigit(s[d - 1]);
  }

  lemma NameGroupShape(s: string, c: nat, b: nat)
    requires c <= b <= |s| - 5 && All(s[c..], IsNameOrSpace)
    ensures |s[b..]| >= 5 && All(s[b..], IsNameOrSpace)
  {
    assert forall k :: 0 <= k < |s[b..]| ==> s[b..][k] == s[c..][k + b - c];
  }

  lemma DashShape(s: string, e: nat, back: nat, c: nat, b: nat)
    requires back <= e < |s| && s[e] == '-' && c == e + 1 && c < b <= |s|
    requires forall k :: e - back <= k < e ==> IsSpace(s[k])
    requires forall k :: c <= k < b ==> IsSpace(s[k])
    requires back >= 1
    ensures IsSpacedDash(s[e - back..b])
  {
    var m := s[e - back..b];
    assert m[back] == '-';
    assert All(m[..back], IsSpace);
    assert All(m[back + 1..], IsSpace);
  }

  /** A unit, ` - ` and a name make a `unit - NAME` line that gives back that unit and that name. */
  lemma DebtorRowOfJoin(u: string, n: string)
    requires |u| >= 1 && IsDigit(u[0]) && All(u, IsUnitChar) && !IsSpace(u[|u| - 1])
    requires |n| >= 5 && All(n, IsNameOrSpace) && !IsSpace(n[0])
    ensures DebtorRowOf(u + " - " + n) == Some(DebtorRow(u, n))
  {
    var s := u + " - " + n;
    JoinUnitSpan(u, n);
    JoinSpaces(u, n);
    var d := Span(s, 0, IsDigit);
    hide *;
    DebtorRowAt(s, d, |u| + 1, 1, 1);
  }

  lemma DebtorRowOfSome(s: string, d: nat, e: nat)
    requires DebtorRowOf(s).Some?
    requires d == Span(s, 0, IsDigit) && e == d + Span(s, d, IsUnitChar)
    ensures 1 <= d <= e < |s| && s[e] == '-'
    ensures var back, w := SpanBack(s, e, IsSpace), Span(s, e + 1, IsSpace);
      && back >= 1 && w >= 1 && All(s[e + 1..], IsNameOrSpace) && |s| - e - 2 >= 5
      && DebtorRowOf(s) == Some(DebtorRow(s[..e - back], s[if e + 1 + w <= |s| - 5 then e + 1 + w else |s| - 5..]))
  {
    hide Span, SpanBack, All, IsNameOrSpace, IsUnitChar, IsSpace, IsDigit;
  }

  /** The reading of a `unit - NAME` line once its runs are known. */
  lemma DebtorRowAt(s: string, d: nat, e: nat, back: nat, w: nat)
    requires 1 <= d <= e < |s| && d == Span(s, 0, IsDigit) && e == d + Span(s, d, IsUnitChar) && s[e] == '-'
    requires back == SpanBack(s, e, IsSpace) && back >= 1
    requires w == Span(s, e + 1, IsSpace) && w >= 1
    requires All(s[e + 1..], IsNameOrSpace) && |s| - e - 2 >= 5
    ensures DebtorRowOf(s) == Some(DebtorRow(s[..e - back], s[if e + 1 + w <= |s| - 5 then e + 1 + w else |s| - 5..]))
  {
    hide Span, SpanBack, All, IsNameOrSpace, IsUnitChar, IsSpace, IsDigit;
    assert A: DebtorRowOf(s) == DebtorRowDash(s, e);
    assert B: DebtorRowDash(s, e) == DebtorRowSplit(s, e, back, w);
    assert C: DebtorRowSplit(s, e, back, w) == Some(DebtorRow(s[..e - back], s[if e + 1 + w <= |s| - 5 then e + 1 + w else |s| - 5..]));
  }

  lemma JoinUnitSpan(u: string, n: string)
    requires |u| >= 1 && IsDigit(u[0]) && All(u, IsUnitChar)
    ensures var s := u + " - " + n; var d := Span(s, 0, IsDigit);
      1 <= d <= |u| && d + Span(s, d, IsUnitChar) == |u| + 1
  {
    var s := u + " - " + n;
    var d := Span(s, 0, IsDigit);
    assert s[0] == u[0] && !IsDigit(s[|u|]);
    assert 1 <= d <= |u|;
    assert s == (u + " ") + ("- " + n);
    assert All((u + " ")[d..], IsUnitChar) by {
      forall k | d <= k < |u| + 1 ensures IsUnitChar((u + " ")[k]) {
        if k < |u| { assert (u + " ")[k] == u[k]; }
      }
    }
    SpanOfPrefix(u + " ", "- " + n, d, IsUnitChar);
  }

  lemma JoinSpaces(u: string, n: string)
    requires |u| >= 1 && !IsSpace(u[|u| - 1])
    requires |n| >= 5 && All(n, IsNameOrSpace) && !IsSpace(n[0])
    ensures var s := u + " - " + n; var e := |u| + 1;
      && e < |s| && s[e] == '-' && SpanBack(s, e, IsSpace) == 1 && Span(s, e + 1, IsSpace) == 1
      && All(s[e + 1..], IsNameOrSpace) && |s| - e - 2 == |n|
      && s[..e - 1] == u && s[e + 2..] == n
  {
    var s := u + " - " + n;
    var e := |u| + 1;
    assert s[e] == '-' && s[e - 1] == ' ' && s[e - 2] == u[|u| - 1];
    SpanBackExact(s, e, 1, IsSpace);
    assert s[e + 1] == ' ' && s[e + 2] == n[0];
    SpanExact(s, e + 1, 1, IsSpace);
    assert s[e + 1..] == " " + n;
    assert All(s[e + 1..], IsNameOrSpace) by {
      forall k | 0 <= k < |n| + 1 ensures IsNameOrSpace((" " + n)[k]) {
        if k > 0 { assert (" " + n)[k] == n[k - 1]; }
      }
    }
    assert s[..e - 1] == u && s[e + 2..] == n;
  }

  // ---------------------------------------------------------------------------
  // Labelled names and units

  const NameLabels: seq<string> :=
    ["Devedor", "Proprietário", "Morador", "Condômino", "Nome", "Cliente", "Sacado", "Favorecido", "Responsável"]

  const UnitLabels: seq<string> :=
    ["Unidade", "Apto", "Apartamento", "Sala", "Lote", "Unid", "Apt", "Loja", "Box", "Casa", "Bloco", "Quadra", "Qd", "Lt"]

  /**
   The two labelled patterns, both case-insensitive: a label, `\s*[:=]?\s*`,
   then a group of at least five name letters or spaces
   (`[A-ZÁÀÂÃÉÊÍÓÔÕÚÇ\s]{5,}`), or a group of a digit run and unit
   characters (`\d+[A-Z\d\s\/]*`).
   */
  datatype LabelKind = NameLabel | UnitLabel

  function LabelsOf(kind: LabelKind): seq<string> {
    match kind
    case NameLabel => NameLabels
    case UnitLabel => UnitLabels
  }

  /** What the capture group of each kind holds. */
  predicate GroupShape(kind: LabelKind, s: string, g: Group) {
    && g.start <= g.end <= |s|
    && match kind
       case NameLabel => g.end - g.start >= 5 && forall k :: g.start <= k < g.end ==> IsNameOrSpace(s[k])
       case UnitLabel => g.start < g.end && IsDigit(s[g.start]) && forall k :: g.start <= k < g.end ==> IsUnitChar(s[k])
  }

  /** `:` or `=`, the optional separator after a label. */
  predicate IsSeparator(c: char) {
    c == ':' || c == '='
  }

  /**
   The name group after a label ending at `q`, where `w` spaces follow the
   label. The group takes every name letter and space up to the first other
   character; it starts after the white space that follows the separator, or
   earlier, inside that white space, when fewer than five characters would
   be left.
   */
  function NameGroupFrom(s: string, q: nat): (r: Option<Group>)
    requires q <= |s|
    ensures r.Some? ==> q <= r.value.start && GroupShape(NameLabel, s, r.value)
  {
    var w := Span(s, q, IsSpace);
    if q + w < |s| && IsSeparator(s[q + w]) then NameAfterSeparator(s, q, w) else NameWithoutSeparator(s, q, w)
  }

  /**
   After a separator: when the text after it is too short, the group falls
   back to the last five of the spaces before the separator.
   */
  function NameAfterSeparator(s: string, q: nat, w: nat): (r: Option<Group>)
    requires q + w < |s|
    requires forall k :: q <= k < q + w ==> IsSpace(s[k])
    ensures r.Some? ==> q <= r.value.start && GroupShape(NameLabel, s, r.value)
  {
    var after := q + w + 1;
    var e := after + Span(s, after, IsNameOrSpace);
    if e - after >= 5 then
      var g := after + Span(s, after, IsSpace);
      Some(Group(if g <= e - 5 then g else e - 5, e))
    else if w >= 5 then Some(Group(q + w - 5, q + w))
    else None
  }

  function NameWithoutSeparator(s: string, q: nat, w: nat): (r: Option<Group>)
    requires q + w <= |s|
    ensures r.Some? ==> q <= r.value.start && GroupShape(NameLabel, s, r.value)
  {
    var e := q + Span(s, q, IsNameOrSpace);
    if e - q >= 5 then Some(Group(if q + w <= e - 5 then q + w else e - 5, e)) else None
  }

  /** The unit group after a label ending at `q`: it must start, past the white space and separator, with a digit. */
  function UnitGroupFrom(s: string, q: nat): (r: Option<Group>)
    requires q <= |s|
    ensures r.Some? ==> q <= r.value.start && GroupShape(UnitLabel, s, r.value)
  {
    var w := Span(s, q, IsSpace);
    var st := if q + w < |s| && IsSeparator(s[q + w]) then q + w + 1 + Span(s, q + w + 1, IsSpace) else q + w;
    if st < |s| && IsDigit(s[st]) then Some(Group(st, st + Span(s, st, IsUnitChar))) else None
  }

  function GroupAfter(kind: LabelKind, s: string, q: nat): (r: Option<Group>)
    requires q <= |s|
    ensures r.Some? ==> q <= r.value.start && GroupShape(kind, s, r.value)
  {
    match kind
    case NameLabel => NameGroupFrom(s, q)
    case UnitLabel => UnitGroupFrom(s, q)
  }

  /** One alternative of a labelled pattern at `p`: the label, then the group. */
  function AlternativeAt(kind: LabelKind, s: string, p: nat, word: string): (r: Option<Group>)
    ensures r.Some? ==> StartsAtFold(s, p, word) && GroupShape(kind, s, r.value)
  {
    if StartsAtFold(s, p, word) then GroupAfter(kind, s, p + |word|) else None
  }

  /** The group of the first alternative of `labels` that is written at `p` and followed by a group. */
  function LabelledAt(kind: LabelKind, s: string, p: nat, labels: seq<string>): (r: Option<Group>)
    ensures r.Some? ==> exists k :: 0 <= k < |labels| && AlternativeAt(kind, s, p, labels[k]) == r
    ensures r.None? ==> forall k :: 0 <= k < |labels| ==> AlternativeAt(kind, s, p, labels[k]).None?
    decreases |labels|
  {
    if |labels| == 0 then None
    else
      var here := AlternativeAt(kind, s, p, labels[0]);
      if here.Some? then here
      else
        var r := LabelledAt(kind, s, p, labels[1..]);
        assert forall k :: 1 <= k < |labels| ==> labels[k] == labels[1..][k - 1];
        r
  }

  lemma LabelledAtShape(kind: LabelKind, s: string, p: nat, labels: seq<string>)
    ensures LabelledAt(kind, s, p, labels).Some? ==> GroupShape(kind, s, LabelledAt(kind, s, p, labels).value)
  {
    var r := LabelledAt(kind, s, p, labels);
    if r.Some? {
      var k :| 0 <= k < |labels| && AlternativeAt(kind, s, p, labels[k]) == r;
    }
  }

  /** The group of the leftmost match of a labelled pattern. */
  function LabelledGroup(kind: LabelKind, s: string): (r: Option<Group>)
    ensures r.Some? ==> GroupShape(kind, s, r.value)
  {
    match FirstFrom(0, |s|, p => LabelledAt(kind, s, p, LabelsOf(kind)))
    case Some(hit) =>
      LabelledAtShape(kind, s, hit.pos, LabelsOf(kind));
      Some(hit.value)
    case None => None
  }

  /** The text of a capture group. */
  function CaptureText(kind: LabelKind, s: string, g: Group): (t: string)
    requires GroupShape(kind, s, g)
    ensures kind == NameLabel ==> |t| >= 5 && All(t, IsNameOrSpace)
    ensures kind == UnitLabel ==> |t| >= 1 && IsDigit(t[0]) && All(t, IsUnitChar)
  {
    s[g.start..g.end]
  }

  /** `line.match(pattern)` for a labelled pattern: the text of the group of the leftmost match. */
  function LabelledText(kind: LabelKind, s: string): (r: Option<string>)
    ensures r.Some? && kind == NameLabel ==> |r.value| >= 5 && All(r.value, IsNameOrSpace)
    ensures r.Some? && kind == UnitLabel ==> |r.value| >= 1 && IsDigit(r.value[0]) && All(r.value, IsUnitChar)
  {
    match LabelledGroup(kind, s)
    case Some(g) => Some(CaptureText(kind, s, g))
    case None => None
  }

  /** The alternatives are tried in order: the first one that succeeds decides. */
  lemma {:induction false} LabelledAtFirst(kind: LabelKind, s: string, p: nat, labels: seq<string>, k: nat)
    requires k < |labels| && AlternativeAt(kind, s, p, labels[k]).Some?
    requires forall j :: 0 <= j < k ==> AlternativeAt(kind, s, p, labels[j]).None?
    ensures LabelledAt(kind, s, p, labels) == AlternativeAt(kind, s, p, labels[k])
    decreases k
  {
    if k > 0 {
      var tail := labels[1..];
      assert tail[k - 1] == labels[k];
      assert forall j :: 0 <= j < k - 1 ==> tail[j] == labels[j + 1];
      LabelledAtFirst(kind, s, p, tail, k - 1);
    }
  }

  /** The leftmost position where a labelled pattern matches decides the group. */
  lemma LabelledGroupAt(kind: LabelKind, s: string, p: nat)
    requires p <= |s| && LabelledAt(kind, s, p, LabelsOf(kind)).Some?
    requires forall q :: 0 <= q < p ==> LabelledAt(kind, s, q, LabelsOf(kind)).None?
    ensures LabelledGroup(kind, s) == LabelledAt(kind, s, p, LabelsOf(kind))
  {
    var m := (q: nat) => LabelledAt(kind, s, q, LabelsOf(kind));
    assert m(p).Some?;
    var r := FirstFrom(0, |s|, m);
    assert r.Some? && r.value.pos == p;
  }

  lemma LabelledTextOf(kind: LabelKind, s: string, g: Group)
    requires LabelledGroup(kind, s) == Some(g)
    ensures g.start <= g.end <= |s| && LabelledText(kind, s) == Some(s[g.start..g.end])
  {
  }

  /** A line that starts with a label: the first alternative that succeeds there gives the text. */
  lemma LabelledTextAtStart(kind: LabelKind, s: string, k: nat, g: Group)
    requires k < |LabelsOf(kind)| && AlternativeAt(kind, s, 0, LabelsOf(kind)[k]) == Some(g)
    requires forall j :: 0 <= j < k ==> AlternativeAt(kind, s, 0, LabelsOf(kind)[j]).None?
    ensures g.start <= g.end <= |s| && LabelledText(kind, s) == Some(s[g.start..g.end])
  {
    LabelledAtFirst(kind, s, 0, LabelsOf(kind), k);
    LabelledGroupAt(kind, s, 0);
    LabelledTextOf(kind, s, g);
  }

  /** A labelled name is read back: `Nome: ` followed by a name of at least five letters and spaces. */
  lemma NameLabelledText(n: string)
    requires |n| >= 5 && All(n, IsNameOrSpace) && !IsSpace(n[0])
    ensures LabelledText(NameLabel, "Nome: " + n) == Some(n)
  {
    var s := "Nome: " + n;
    hide *;
    NomeAlternative(n);
    NomeFirstLabel(n);
    LabelledTextAtStart(NameLabel, s, 4, Group(6, |s|));
    assert s[6..|s|] == n;
  }

  lemma NomeAlternative(n: string)
    requires |n| >= 5 && All(n, IsNameOrSpace) && !IsSpace(n[0])
    ensures 4 < |LabelsOf(NameLabel)| && AlternativeAt(NameLabel, "Nome: " + n, 0, LabelsOf(NameLabel)[4]) == Some(Group(6, |n| + 6))
  {
    assert LabelsOf(NameLabel)[4] == "Nome";
    var s := "Nome: " + n;
    assert s[4] == ':' && s[5] == ' ' && s[6] == n[0];
    SpanExact(s, 4, 0, IsSpace);
    SpanExact(s, 5, 1, IsSpace);
    assert forall k :: 5 <= k < |s| ==> IsNameOrSpace(s[k]) by {
      forall k | 5 <= k < |s| ensures IsNameOrSpace(s[k]) {
        if k > 5 { assert s[k] == n[k - 6]; }
      }
    }
    SpanExact(s, 5, |s| - 5, IsNameOrSpace);
    assert StartsAtFold(s, 0, "Nome");
    hide Span, IsSpace, IsNameOrSpace;
    assert NameGroupFrom(s, 4) == Some(Group(6, |s|));
  }

  lemma NomeFirstLabel(n: string)
    ensures forall j :: 0 <= j < 4 ==> AlternativeAt(NameLabel, "Nome: " + n, 0, LabelsOf(NameLabel)[j]).None?
  {
    var s := "Nome: " + n;
    forall j | 0 <= j < 4 ensures AlternativeAt(NameLabel, s, 0, LabelsOf(NameLabel)[j]).None? {
      assert !FoldEq(s[0], NameLabels[j][0]);
    }
  }

  /** A labelled unit is read back: `Apto ` followed by a digit and unit characters. */
  lemma UnitLabelledText(u: string)
    requires |u| >= 1 && IsDigit(u[0]) && All(u, IsUnitChar)
    ensures LabelledText(UnitLabel, "Apto " + u) == Some(u)
  {
    var s := "Apto " + u;
    hide *;
    AptoAlternative(u);
    LabelledTextAtStart(UnitLabel, s, 1, Group(5, |s|));
    assert s[5..|s|] == u;
  }

  lemma AptoAlternative(u: string)
    requires |u| >= 1 && IsDigit(u[0]) && All(u, IsUnitChar)
    ensures 1 < |LabelsOf(UnitLabel)| && AlternativeAt(UnitLabel, "Apto " + u, 0, LabelsOf(UnitLabel)[1]) == Some(Group(5, |u| + 5))
    ensures AlternativeAt(UnitLabel, "Apto " + u, 0, LabelsOf(UnitLabel)[0]).None?
  {
    assert LabelsOf(UnitLabel)[1] == "Apto";
    assert !FoldEq('A', LabelsOf(UnitLabel)[0][0]);
    AptoUnitGroup(u);
    hide UnitGroupFrom, StartsAtFold;
    assert AlternativeAt(UnitLabel, "Apto " + u, 0, "Apto") == Some(Group(5, |u| + 5));
  }

  /** After `Apto` and one space, the unit group is the whole of `u`. */
  lemma AptoUnitGroup(u: string)
    requires |u| >= 1 && IsDigit(u[0]) && All(u, IsUnitChar)
    ensures StartsAtFold("Apto " + u, 0, "Apto")
    ensures UnitGroupFrom("Apto " + u, 4) == Some(Group(5, |u| + 5))
  {
    var s := "Apto " + u;
    assert s[4] == ' ' && s[5] == u[0];
    SpanExact(s, 4, 1, IsSpace);
    assert forall k :: 5 <= k < |s| ==> IsUnitChar(s[k]) by {
      forall k | 5 <= k < |s| ensures IsUnitChar(s[k]) {
        assert s[k] == u[k - 5];
      }
    }
    SpanExact(s, 5, |s| - 5, IsUnitChar);
    assert StartsAtFold(s, 0, "Apto");
    hide Span, IsSpace, IsUnitChar;
    assert UnitGroupFrom(s, 4) == Some(Group(5, |s|));
  }

  // ---------------------------------------------------------------------------
  // The scan over the lines

  /** The debtor's name and unit as the scan has found them so far. */
  datatype Found = Found(name: Option<string>, unit: Option<string>)

  /** A debtor row sets both name and unit, unless a name is already known. */
  function RowStep(f: Found, row: Option<DebtorRow>): (g: Found)
    ensures Present(f.name) || row.None? ==> g == f
    ensures !Present(f.name) && row.Some? ==> g == Found(Some(Trim(row.value.name)), Some(Trim(row.value.unit)))
  {
    match row
    case Some(r) => if Present(f.name) then f else Found(Some(Trim(r.name)), Some(Trim(r.unit)))
    case None => f
  }

  /**
   A labelled name: the text up to the first line break and the first dash,
   trimmed, when it is longer than three characters and no name is known.
   */
  function NameStep(f: Found, capture: Option<string>): (g: Found)
    ensures g.unit == f.unit
    ensures Present(f.name) || capture.None? ==> g == f
    ensures g.name != f.name ==> g.name == Some(Trim(FirstPiece(FirstPiece(capture.value, '\n'), '-'))) && |g.name.value| > 3
    ensures !Present(f.name) && capture.Some? && |Trim(FirstPiece(FirstPiece(capture.value, '\n'), '-'))| > 3 ==>
              g.name == Some(Trim(FirstPiece(FirstPiece(capture.value, '\n'), '-')))
  {
    match capture
    case Some(text) =>
      var name := Trim(FirstPiece(FirstPiece(text, '\n'), '-'));
      if !Present(f.name) && |name| > 3 then Found(Some(name), f.unit) else f
    case None => f
  }

  /** A labelled unit, trimmed, when no unit is known. */
  function UnitStep(f: Found, capture: Option<string>): (g: Found)
    ensures g.name == f.name
    ensures Present(f.unit) || capture.None? ==> g == f
    ensures !Present(f.unit) && capture.Some? ==> g.unit == Some(Trim(capture.value))
  {
    match capture
    case Some(text) => if Present(f.unit) then f else Found(f.name, Some(Trim(text)))
    case None => f
  }

  /** The three tests of one line, in the order the loop body runs them. */
  function LineStep(f: Found, line: string): Found {
    UnitStep(NameStep(RowStep(f, DebtorRowOf(line)), LabelledText(NameLabel, line)), LabelledText(UnitLabel, line))
  }

  /** The loop over all lines, from what is known before it. */
  function ScanLines(f: Found, lines: seq<string>): Found
    decreases |lines|
  {
    if |lines| == 0 then f else ScanLines(LineStep(f, lines[0]), lines[1..])
  }

  lemma LineStepParts(f: Found, line: string)
    ensures LineStep(f, line) == UnitStep(NameStep(RowStep(f, DebtorRowOf(line)), LabelledText(NameLabel, line)), LabelledText(UnitLabel, line))
  {
    hide DebtorRowOf, LabelledText;
  }

  /** Once a name is known it is never replaced, and once a unit is known as well nothing changes. */
  lemma LineStepKeepsName(f: Found, line: string)
    requires Present(f.name)
    ensures LineStep(f, line).name == f.name
    ensures Present(f.unit) ==> LineStep(f, line) == f
  {
    LineStepParts(f, line);
    hide DebtorRowOf, LabelledText, LineStep;
  }

  /**
   An earlier unit is only replaced by the unit of a debtor row, and only
   while no name is known: a labelled unit never overwrites one.
   */
  lemma LineStepUnit(f: Found, line: string)
    requires Present(f.unit)
    ensures LineStep(f, line).unit != f.unit ==>
              !Present(f.name) && DebtorRowOf(line).Some?
              && LineStep(f, line).unit == Some(Trim(DebtorRowOf(line).value.unit))
  {
    hide DebtorRowOf, LabelledText, Trim;
    var row := DebtorRowOf(line);
    if row.Some? {
      RowUnitPresent(line);
    }
    LineStepParts(f, line);
    var a := RowStep(f, row);
    var b := NameStep(a, LabelledText(NameLabel, line));
    hide *;
    assert Present(a.unit) && b.unit == a.unit;
  }

  /** The unit a debtor row yields is present once trimmed: it starts with a digit. */
  lemma RowUnitPresent(line: string)
    requires DebtorRowOf(line).Some?
    ensures Present(Some(Trim(DebtorRowOf(line).value.unit)))
  {
    hide DebtorRowOf;
    var unit := DebtorRowOf(line).value.unit;
    DebtorRowShape(line);
    assert |unit| > 0 && !IsSpace(unit[0]) by {
      assert IsDigit(unit[0]);
    }
    hide *;
    TrimKeepsFirst(unit);
  }

  /** On a line that is a debtor row, the row wins over the labels while no name is known. */
  lemma LineStepRow(f: Found, line: string)
    requires !Present(f.name) && DebtorRowOf(line).Some?
    requires Present(Some(Trim(DebtorRowOf(line).value.name)))
    ensures LineStep(f, line).name == Some(Trim(DebtorRowOf(line).value.name))
  {
    var row := DebtorRowOf(line);
    LineStepParts(f, line);
    var a := RowStep(f, row);
    var b := NameStep(a, LabelledText(NameLabel, line));
    hide *;
    assert Present(a.name) && b == a;
  }

  /** The scan splits at any point into the scan of the head and the scan of the rest. */
  lemma {:induction false} ScanLinesAppend(f: Found, a: seq<string>, b: seq<string>)
    ensures ScanLines(f, a + b) == ScanLines(ScanLines(f, a), b)
    decreases |a|
  {
    hide LineStep;
    if |a| > 0 {
      assert (a + b)[0] == a[0] && (a + b)[1..] == a[1..] + b;
      ScanLinesAppend(LineStep(f, a[0]), a[1..], b);
    } else {
      assert a + b == b;
    }
  }

  /** The first name found is the one the scan returns. */
  lemma {:induction false} ScanLinesKeepsName(f: Found, lines: seq<string>)
    requires Present(f.name)
    ensures ScanLines(f, lines).name == f.name
    decreases |lines|
  {
    hide LineStep;
    if |lines| > 0 {
      LineStepKeepsName(f, lines[0]);
      ScanLinesKeepsName(LineStep(f, lines[0]), lines[1..]);
    }
  }

  /** The name found within the first lines is the name of the whole scan. */
  lemma ScanPrefixName(f: Found, lines: seq<string>, i: nat)
    requires i <= |lines| && Present(ScanLines(f, lines[..i]).name)
    ensures ScanLines(f, lines).name == ScanLines(f, lines[..i]).name
  {
    hide *;
    assert lines == lines[..i] + lines[i..];
    ScanLinesAppend(f, lines[..i], lines[i..]);
    ScanLinesKeepsName(ScanLines(f, lines[..i]), lines[i..]);
  }

  // ---------------------------------------------------------------------------
  // The fallback name

  /** Words that rule a line out as a name, matched case-sensitively. */
  const ExcludedWords: seq<string> :=
    ["DEMONSTRATIVO", "RELATÓRIO", "INADIMPLÊNCIA", "DOCUMENTO", "TOTAL", "SUBTOTAL", "VENCIMENTO", "UNIDADE", "PÁGINA", "PAGINA"]

  /** `[A-ZÁÀÂÃÉÊÍÓÔÕÚÇ\s\-]`, case-sensitive. */
  predicate IsFallbackChar(c: char) {
    IsNameCapital(c) || IsSpace(c) || c == '-'
  }

  /** A whole line of 8 to 50 capitals, spaces and dashes that names no condominium and holds no excluded word. */
  predicate IsFallbackLine(line: string) {
    && 8 <= |line| <= 50
    && All(line, IsFallbackChar)
    && !ContainsAny(UpperString(line), CondoKeywords)
    && !ContainsAny(line, ExcludedWords)
  }

  /** The first line that looks like a name in capitals, trimmed. */
  function FallbackName(lines: seq<string>): (r: Option<string>)
    ensures r.Some? ==> exists i :: 0 <= i < |lines| && IsFallbackLine(lines[i]) && r.value == Trim(lines[i])
                               && forall j :: 0 <= j < i ==> !IsFallbackLine(lines[j])
    ensures r.None? ==> forall i :: 0 <= i < |lines| ==> !IsFallbackLine(lines[i])
    decreases |lines|
  {
    if |lines| == 0 then None
    else if IsFallbackLine(lines[0]) then Some(Trim(lines[0]))
    else
      var r := FallbackName(lines[1..]);
      assert forall i :: 1 <= i < |lines| ==> lines[i] == lines[1..][i - 1];
      r
  }

  /** The debtor's name: the scan's, or when it found none, the fallback. */
  function DebtorName(lines: seq<string>): (r: Option<string>)
    ensures Present(ScanLines(Found(None, None), lines).name) ==> r == ScanLines(Found(None, None), lines).name
    ensures !Present(ScanLines(Found(None, None), lines).name) && FallbackName(lines).Some? ==> r == FallbackName(lines)
    ensures r.None? ==> FallbackName(lines).None?
  {
    var scanned := ScanLines(Found(None, None), lines).name;
    if Present(scanned) then scanned else OrElse(FallbackName(lines), scanned)
  }

  // ---------------------------------------------------------------------------
  // The whole text

  /** Why `parsePDF` throws. */
  datatype PdfError =
    | NoDigitalText      // fewer than 50 characters once trimmed: a scan without OCR or a protected file
    | NothingRecognised  // neither a debtor's name nor a debt item

  /** The amount: the one found in the text, or when that is absent or zero and there are items, their sum. */
  function AmountOf(found: Option<real>, items: seq<DebtItem>): (r: Option<real>)
    ensures |items| == 0 ==> r == found
    ensures found.Some? && found.value != 0.0 ==> r == found
    ensures |items| > 0 && (found.None? || found.value == 0.0) ==> r == Some(Sum(items))
  {
    if |items| > 0 && (found.None? || found.value == 0.0) then Some(Sum(items)) else found
  }

  /**
   `parsePDF` from the text the PDF library returns. With `fixed` false the
   amount is read by `extractAmount` as written; with `fixed` true a
   dotted-decimal amount is read as the decimal it spells.
   */
  function ParsePdfText(text: string, fixed: bool): (r: Result<ParsedDocument, PdfError>)
  {
    if |Trim(text)| < 50 then Failure(NoDigitalText)
    else
      var lines := Lines(text);
      var items := CollectRows(text).items;
      var name := DebtorName(lines);
      if !Present(name) && |items| == 0 then Failure(NothingRecognised)
      else
        Success(ParsedDocument(
          debtorName := name,
          amount := AmountOf(ExtractAmountBy(text, AmountPatterns, fixed), items),
          dueDate := ExtractDate(text),
          unit := ScanLines(Found(None, None), lines).unit,
          condominiumName := CondoName(lines),
          cpfCnpj := ExtractCpfCnpj(text),
          debtItems := if |items| > 0 then Some(items) else None))
  }

  /** Only a text of fewer than 50 characters, once trimmed, is refused as having no digital text. */
  lemma ParsePdfTextTooShort(text: string, fixed: bool)
    ensures ParsePdfText(text, fixed) == Failure(NoDigitalText) <==> |Trim(text)| < 50
  {
  }

  /** A long enough text fails to parse exactly when neither a name nor an item is found. */
  lemma ParsePdfTextNothing(text: string, fixed: bool)
    requires |Trim(text)| >= 50
    ensures ParsePdfText(text, fixed).Failure? <==> !Present(DebtorName(Lines(text))) && |CollectRows(text).items| == 0
    ensures ParsePdfText(text, fixed).Success? ==> Present(ParsePdfText(text, fixed).value.debtorName) || ParsePdfText(text, fixed).value.debtItems.Some?
  {
  }

  /** With items, the amount is present and not zero: the text's own, or else the items' positive sum. */
  lemma AmountOfItems(found: Option<real>, items: seq<DebtItem>)
    requires |items| > 0 && forall i :: 0 <= i < |items| ==> items[i].amount > 0.0
    ensures AmountOf(found, items).Some? && AmountOf(found, items).value != 0.0
  {
    SumPositive(items);
  }

  /** Items come with a positive amount: when the text's own amount is missing or zero, their positive sum. */
  lemma ParsePdfTextAmount(text: string, fixed: bool)
    requires ParsePdfText(text, fixed).Success? && ParsePdfText(text, fixed).value.debtItems.Some?
    ensures var doc := ParsePdfText(text, fixed).value;
      && |doc.debtItems.value| > 0
      && (forall i :: 0 <= i < |doc.debtItems.value| ==> doc.debtItems.value[i].amount > 0.0)
      && doc.amount.Some? && doc.amount.value != 0.0
  {
    var items := CollectRows(text).items;
    CollectedPositive(text, CollectRows(text).used);
    hide Lines, CollectRows, DebtorName, ExtractAmountBy, ExtractDate, ScanLines, CondoName, ExtractCpfCnpj, Trim, Collected, ShapeItems;
    AmountOfItems(ExtractAmountBy(text, AmountPatterns, fixed), items);
  }

  /** The two readings of the amount change nothing else in the document, nor whether it parses. */
  lemma ParsePdfTextReadings(text: string)
    ensures ParsePdfText(text, false).Success? <==> ParsePdfText(text, true).Success?
    ensures ParsePdfText(text, false).Failure? ==> ParsePdfText(text, false) == ParsePdfText(text, true)
    ensures ParsePdfText(text, false).Success? ==>
      ParsePdfText(text, false).value.(amount := ParsePdfText(text, true).value.amount) == ParsePdfText(text, true).value
  {
  }

  /** The fallback is consulted only when the scan found no name. */
  lemma FallbackOnlyWithoutName(lines: seq<string>)
    ensures DebtorName(lines) != ScanLines(Found(None, None), lines).name ==>
              !Present(ScanLines(Found(None, None), lines).name) && DebtorName(lines) == FallbackName(lines)
  {
  }
}

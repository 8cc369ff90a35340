/**
 The CPF/CNPJ input mask of the debtor form (src/components/DebtorForm.tsx).
 Whatever is typed is reduced to its first fourteen digits and punctuated
 by a chain of single (non-global) regular-expression replacements: the CPF
 chain when there are at most eleven digits, the CNPJ chain otherwise. Each
 replacement inserts one separator at the first place its pattern matches.
 */
module CpfMask {
  import opened Wrappers
  import opened Chars
  import opened Scan
  import opened Extractors

  /** `s[p..p+n]` exists and is all digits: `\d{n}` matches at `p`. */
  predicate DigitsAt(s: string, p: nat, n: nat) {
    p + n <= |s| && forall k :: p <= k < p + n ==> IsDigit(s[k])
  }

  /** `c` inserted in front of position `i`. */
  function InsertAt(s: string, i: nat, c: char): (r: string)
    requires i <= |s|
    ensures |r| == |s| + 1 && r[i] == c
    ensures forall k :: 0 <= k < i ==> r[k] == s[k]
    ensures forall k :: i < k < |r| ==> r[k] == s[k - 1]
  {
    s[..i] + [c] + s[i..]
  }

  /**
   `s.replace(re, …)` for a pattern whose replacement puts `c` between its
   two groups: `m(q)` says where the first group ends when the pattern
   matches at `q`. Only the leftmost match is replaced.
   */
  function ReplaceFirst(s: string, m: nat -> Option<int>, c: char): string {
    match FirstFrom(0, |s|, m)
    case Some(h) => if 0 <= h.value <= |s| then InsertAt(s, h.value, c) else s
    case None => s
  }

  /** The leftmost match decides: a match at `q` with none before it is the one replaced. */
  lemma ReplaceFirstAt(s: string, m: nat -> Option<int>, c: char, q: nat)
    requires q <= |s| && m(q).Some? && 0 <= m(q).value <= |s|
    requires forall p: nat :: p < q ==> m(p).None?
    ensures ReplaceFirst(s, m, c) == InsertAt(s, m(q).value, c)
  {
    var r := FirstFrom(0, |s|, m);
    assert r.Some? && r.value.pos == q;
  }

  /** Without a match the text is left alone. */
  lemma ReplaceFirstNone(s: string, m: nat -> Option<int>, c: char)
    requires forall p: nat :: p <= |s| ==> m(p).None?
    ensures ReplaceFirst(s, m, c) == s
  {
  }

  // ---------------------------------------------------------------------------
  // The five patterns

  /** `/(\d{n})(\d)/`, replaced by `'$1' + c + '$2'`. */
  function RunMatch(s: string, n: nat): nat -> Option<int> {
    (q: nat) => if DigitsAt(s, q, n + 1) then Some(q + n) else None
  }

  /** `/(\d{3})(\d{1,2})$/`: three digits, then one or two, then the end of the text. */
  function TailMatch(s: string): nat -> Option<int> {
    (q: nat) => if q + 4 <= |s| <= q + 5 && DigitsAt(s, q, |s| - q) then Some(q + 3) else None
  }

  /** `/^(\d{2})(\d)/`: only at the start. */
  function HeadMatch(s: string): nat -> Option<int> {
    (q: nat) => if q == 0 && DigitsAt(s, 0, 3) then Some(2) else None
  }

  /** `/^(\d{2})\.(\d{3})(\d)/`: only at the start. */
  function HeadGroupMatch(s: string): nat -> Option<int> {
    (q: nat) => if q == 0 && DigitsAt(s, 0, 2) && DigitsAt(s, 3, 4) && s[2] == '.' then Some(6) else None
  }

  /** `/\.(\d{3})(\d)/`: a dot, then four digits. */
  function DotMatch(s: string): nat -> Option<int> {
    (q: nat) => if q < |s| && s[q] == '.' && DigitsAt(s, q + 1, 4) then Some(q + 4) else None
  }

  /** `s.slice(0, n)`. */
  function Take(s: string, n: nat): (r: string)
    ensures |r| == if |s| <= n then |s| else n
    ensures r == s[..|r|]
  {
    if |s| <= n then s else s[..n]
  }

  /** The CPF chain, on at most eleven digits. */
  function CpfChain(digits: string): string {
    var s1 := ReplaceFirst(digits, RunMatch(digits, 3), '.');
    var s2 := ReplaceFirst(s1, RunMatch(s1, 3), '.');
    ReplaceFirst(s2, TailMatch(s2), '-')
  }

  /** The CNPJ chain, on twelve to fourteen digits. */
  function CnpjChain(digits: string): string {
    var s1 := ReplaceFirst(digits, HeadMatch(digits), '.');
    var s2 := ReplaceFirst(s1, HeadGroupMatch(s1), '.');
    var s3 := ReplaceFirst(s2, DotMatch(s2), '/');
    ReplaceFirst(s3, RunMatch(s3, 4), '-')
  }

  /** The mask on the digits already taken from the input. */
  function MaskDigits(digits: string): string {
    if |digits| <= 11 then CpfChain(digits) else CnpjChain(digits)
  }

  /** `formatCpfCnpj(value)`. */
  function FormatCpfCnpj(value: string): string {
    MaskDigits(Take(OnlyDigits(value), 14))
  }

  // ---------------------------------------------------------------------------
  // What the mask produces

  /**
   The punctuation the mask gives to a string `d` of digits, by length: the
   CPF separators `###.###.###-##` for up to eleven digits, the CNPJ
   separators `##.###.###/####-##` from twelve on, each one present once a
   digit follows it.
   */
  function Layout(d: string): string
    requires |d| <= 14
  {
    if |d| <= 3 then d
    else if |d| <= 6 then InsertAt(d, 3, '.')
    else if |d| <= 9 then InsertAt(InsertAt(d, 3, '.'), 7, '.')
    else if |d| <= 11 then InsertAt(InsertAt(InsertAt(d, 3, '.'), 7, '.'), 11, '-')
    else if |d| == 12 then InsertAt(InsertAt(InsertAt(d, 2, '.'), 6, '.'), 10, '/')
    else InsertAt(InsertAt(InsertAt(InsertAt(d, 2, '.'), 6, '.'), 10, '/'), 15, '-')
  }

  /** Up to three digits: no pattern matches. */
  lemma CpfChainShort(d: string)
    requires All(d, IsDigit) && |d| <= 3
    ensures CpfChain(d) == Layout(d)
  {
    ReplaceFirstNone(d, RunMatch(d, 3), '.');
    ReplaceFirstNone(d, TailMatch(d), '-');
  }

  /** The first `/(\d{3})(\d)/` on four or more digits: a dot after the third. */
  lemma FirstDot(d: string)
    requires All(d, IsDigit) && 4 <= |d|
    ensures ReplaceFirst(d, RunMatch(d, 3), '.') == InsertAt(d, 3, '.')
  {
    assert DigitsAt(d, 0, 4);
    ReplaceFirstAt(d, RunMatch(d, 3), '.', 0);
  }

  /** `s` is all digits but for the separators at the positions in `seps`. */
  predicate DigitsBut(s: string, seps: set<nat>) {
    (forall k :: 0 <= k < |s| && k !in seps ==> IsDigit(s[k]))
    && (forall k :: k in seps ==> k < |s| && !IsDigit(s[k]))
  }

  /** A window of digits cannot cover a separator. */
  lemma SeparatorBreaks(s: string, p: nat, n: nat, sep: nat)
    requires sep < |s| && !IsDigit(s[sep]) && p <= sep < p + n
    ensures !DigitsAt(s, p, n)
  {
  }

  /** Inserting a separator shifts the ones after it. */
  lemma InsertSeparator(s: string, seps: set<nat>, i: nat, c: char)
    requires DigitsBut(s, seps) && i <= |s| && !IsDigit(c)
    requires forall k :: k in seps ==> k < i
    ensures DigitsBut(InsertAt(s, i, c), seps + {i})
  {
  }

  /** Four to six digits: one dot, and the second search finds no four digits in a row. */
  lemma CpfChainMiddle(d: string)
    requires All(d, IsDigit) && 4 <= |d| <= 6
    ensures CpfChain(d) == Layout(d)
  {
    FirstDot(d);
    var s1 := InsertAt(d, 3, '.');
    hide InsertAt;
    InsertSeparator(d, {}, 3, '.');
    assert !IsDigit(s1[3]);
    forall p: nat | p <= |s1| ensures RunMatch(s1, 3)(p).None? {
      if p <= 3 { SeparatorBreaks(s1, p, 4, 3); }
    }
    ReplaceFirstNone(s1, RunMatch(s1, 3), '.');
    forall p: nat | p <= |s1| ensures TailMatch(s1)(p).None? {
      if p + 4 <= |s1| { SeparatorBreaks(s1, p, |s1| - p, 3); }
    }
    ReplaceFirstNone(s1, TailMatch(s1), '-');
  }

  /** The second `/(\d{3})(\d)/` on `###.` and four or more digits: a dot after the next three. */
  lemma SecondDot(s1: string)
    requires |s1| >= 8 && DigitsBut(s1, {3})
    ensures ReplaceFirst(s1, RunMatch(s1, 3), '.') == InsertAt(s1, 7, '.')
  {
    hide InsertAt;
    assert !IsDigit(s1[3]);
    forall p: nat | p < 4 ensures RunMatch(s1, 3)(p).None? {
      SeparatorBreaks(s1, p, 4, 3);
    }
    assert DigitsAt(s1, 4, 4);
    ReplaceFirstAt(s1, RunMatch(s1, 3), '.', 4);
  }

  /** Seven to nine digits: two dots, and no four-or-five digit tail. */
  lemma CpfChainLong(d: string)
    requires All(d, IsDigit) && 7 <= |d| <= 9
    ensures CpfChain(d) == Layout(d)
  {
    FirstDot(d);
    var s1 := InsertAt(d, 3, '.');
    InsertSeparator(d, {}, 3, '.');
    SecondDot(s1);
    var s2 := InsertAt(s1, 7, '.');
    InsertSeparator(s1, {3}, 7, '.');
    hide InsertAt;
    assert !IsDigit(s2[7]);
    forall p: nat | p <= |s2| ensures TailMatch(s2)(p).None? {
      if p + 4 <= |s2| { SeparatorBreaks(s2, p, |s2| - p, 7); }
    }
    ReplaceFirstNone(s2, TailMatch(s2), '-');
  }

  /** Ten or eleven digits: two dots and a hyphen before the last one or two. */
  lemma CpfChainFull(d: string)
    requires All(d, IsDigit) && 10 <= |d| <= 11
    ensures CpfChain(d) == Layout(d)
  {
    FirstDot(d);
    var s1 := InsertAt(d, 3, '.');
    InsertSeparator(d, {}, 3, '.');
    SecondDot(s1);
    var s2 := InsertAt(s1, 7, '.');
    InsertSeparator(s1, {3}, 7, '.');
    hide InsertAt;
    assert !IsDigit(s2[7]);
    forall p: nat | p < 8 ensures TailMatch(s2)(p).None? {
      if p + 4 <= |s2| { SeparatorBreaks(s2, p, |s2| - p, 7); }
    }
    assert DigitsAt(s2, 8, |s2| - 8);
    ReplaceFirstAt(s2, TailMatch(s2), '-', 8);
  }

  /** The CNPJ chain up to the slash: `##.###.###/` then the remaining digits. */
  lemma CnpjSlash(d: string)
    requires All(d, IsDigit) && 12 <= |d| <= 14
    ensures var s1 := ReplaceFirst(d, HeadMatch(d), '.');
      var s2 := ReplaceFirst(s1, HeadGroupMatch(s1), '.');
      ReplaceFirst(s2, DotMatch(s2), '/') == InsertAt(InsertAt(InsertAt(d, 2, '.'), 6, '.'), 10, '/')
  {
    assert DigitsAt(d, 0, 3);
    ReplaceFirstAt(d, HeadMatch(d), '.', 0);
    var s1 := InsertAt(d, 2, '.');
    InsertSeparator(d, {}, 2, '.');
    var s2 := InsertAt(s1, 6, '.');
    InsertSeparator(s1, {2}, 6, '.');
    hide InsertAt;
    assert s1[2] == '.' && DigitsAt(s1, 0, 2) && DigitsAt(s1, 3, 4);
    ReplaceFirstAt(s1, HeadGroupMatch(s1), '.', 0);
    assert s2[2] == '.' && s2[6] == '.';
    forall p: nat | p < 6 ensures DotMatch(s2)(p).None? {
      if p == 2 { SeparatorBreaks(s2, 3, 4, 6); }
    }
    assert DigitsAt(s2, 7, 4);
    ReplaceFirstAt(s2, DotMatch(s2), '/', 6);
  }

  /** The CNPJ separators up to the slash are the only non-digits. */
  lemma CnpjSeparators(d: string)
    requires All(d, IsDigit) && 12 <= |d| <= 14
    ensures var s3 := InsertAt(InsertAt(InsertAt(d, 2, '.'), 6, '.'), 10, '/');
      |s3| == |d| + 3 && DigitsBut(s3, {2, 6, 10})
  {
    InsertSeparator(d, {}, 2, '.');
    InsertSeparator(InsertAt(d, 2, '.'), {2}, 6, '.');
    InsertSeparator(InsertAt(InsertAt(d, 2, '.'), 6, '.'), {2, 6}, 10, '/');
  }

  /** The last `/(\d{4})(\d)/`: a hyphen after the fourth digit past the slash, once a fifth one follows. */
  lemma HyphenStep(s3: string)
    requires 15 <= |s3| <= 17 && DigitsBut(s3, {2, 6, 10})
    ensures ReplaceFirst(s3, RunMatch(s3, 4), '-') == if |s3| == 15 then s3 else InsertAt(s3, 15, '-')
  {
    NoFiveDigitsBefore(s3);
    if |s3| == 15 {
      ReplaceFirstNone(s3, RunMatch(s3, 4), '-');
    } else {
      assert DigitsAt(s3, 11, 5);
      ReplaceFirstAt(s3, RunMatch(s3, 4), '-', 11);
    }
  }

  /** Twelve to fourteen digits: the CNPJ layout, with the hyphen once five digits follow the slash. */
  lemma CnpjChainLayout(d: string)
    requires All(d, IsDigit) && 12 <= |d| <= 14
    ensures CnpjChain(d) == Layout(d)
  {
    CnpjSlash(d);
    CnpjSeparators(d);
    HyphenStep(InsertAt(InsertAt(InsertAt(d, 2, '.'), 6, '.'), 10, '/'));
  }

  /** In `##.###.###/` and at most four digits, no five digits in a row start before the slash's successor. */
  lemma NoFiveDigitsBefore(s: string)
    requires 15 <= |s| && DigitsBut(s, {2, 6, 10})
    ensures forall p: nat :: p < 11 || |s| < p + 5 ==> RunMatch(s, 4)(p).None?
  {
    assert !IsDigit(s[2]) && !IsDigit(s[6]) && !IsDigit(s[10]);
    forall p: nat | p < 11 ensures !DigitsAt(s, p, 5) {
      if p <= 2 { SeparatorBreaks(s, p, 5, 2); }
      else if p <= 6 { SeparatorBreaks(s, p, 5, 6); }
      else { SeparatorBreaks(s, p, 5, 10); }
    }
  }

  /** On any string of at most fourteen digits the mask gives the layout of its length. */
  lemma MaskDigitsLayout(d: string)
    requires All(d, IsDigit) && |d| <= 14
    ensures MaskDigits(d) == Layout(d)
  {
    if |d| <= 3 { CpfChainShort(d); }
    else if |d| <= 6 { CpfChainMiddle(d); }
    else if |d| <= 9 { CpfChainLong(d); }
    else if |d| <= 11 { CpfChainFull(d); }
    else { CnpjChainLayout(d); }
  }

  /** The digits kept from what was typed: its first fourteen. */
  lemma KeptDigits(value: string)
    ensures All(Take(OnlyDigits(value), 14), IsDigit)
  {
    var d := Take(OnlyDigits(value), 14);
    assert forall i :: 0 <= i < |d| ==> d[i] == OnlyDigits(value)[i];
  }

  /**
   `formatCpfCnpj` puts the layout on the first fourteen digits of whatever
   was typed, and on nothing else.
   */
  lemma FormatCpfCnpjLayout(value: string)
    ensures FormatCpfCnpj(value) == Layout(Take(OnlyDigits(value), 14))
  {
    KeptDigits(value);
    MaskDigitsLayout(Take(OnlyDigits(value), 14));
  }

  /** A separator that is not a digit disappears when the digits are taken. */
  lemma OnlyDigitsInsert(s: string, i: nat, c: char)
    requires i <= |s| && !IsDigit(c)
    ensures OnlyDigits(InsertAt(s, i, c)) == OnlyDigits(s)
  {
    hide *;
    var a, b := s[..i], s[i..];
    InsertAtParts(s, i, c);
    OnlyDigitsAppend(a + [c], b);
    OnlyDigitsAppend(a, [c]);
    OnlyDigitsAppend(a, b);
    OnlyDigitsSeparator(c);
  }

  lemma InsertAtParts(s: string, i: nat, c: char)
    requires i <= |s|
    ensures InsertAt(s, i, c) == s[..i] + [c] + s[i..] && s == s[..i] + s[i..]
  {
  }

  lemma OnlyDigitsSeparator(c: char)
    requires !IsDigit(c)
    ensures OnlyDigits([c]) == []
  {
    assert OnlyDigits([c]) == [] + OnlyDigits([c][1..]);
  }

  /** Removing the punctuation from the layout gives the digits back. */
  lemma LayoutDigits(d: string)
    requires All(d, IsDigit) && |d| <= 14
    ensures OnlyDigits(Layout(d)) == d
  {
    OnlyDigitsOf(d);
    if 3 < |d| <= 11 {
      OnlyDigitsInsert(d, 3, '.');
      if 6 < |d| {
        OnlyDigitsInsert(InsertAt(d, 3, '.'), 7, '.');
        if 9 < |d| {
          OnlyDigitsInsert(InsertAt(InsertAt(d, 3, '.'), 7, '.'), 11, '-');
        }
      }
    } else if 11 < |d| {
      OnlyDigitsInsert(d, 2, '.');
      OnlyDigitsInsert(InsertAt(d, 2, '.'), 6, '.');
      OnlyDigitsInsert(InsertAt(InsertAt(d, 2, '.'), 6, '.'), 10, '/');
      if 12 < |d| {
        OnlyDigitsInsert(InsertAt(InsertAt(InsertAt(d, 2, '.'), 6, '.'), 10, '/'), 15, '-');
      }
    }
  }

  /** The digits of the formatted text are the first fourteen digits typed: the mask only adds punctuation. */
  lemma FormatCpfCnpjDigits(value: string)
    ensures OnlyDigits(FormatCpfCnpj(value)) == Take(OnlyDigits(value), 14)
  {
    FormatCpfCnpjLayout(value);
    KeptDigits(value);
    LayoutDigits(Take(OnlyDigits(value), 14));
  }

  /** Formatting a formatted value changes nothing, so the field is stable as the user keeps typing. */
  lemma FormatCpfCnpjIdempotent(value: string)
    ensures FormatCpfCnpj(FormatCpfCnpj(value)) == FormatCpfCnpj(value)
  {
    FormatCpfCnpjDigits(value);
    var d := Take(OnlyDigits(value), 14);
    assert Take(d, 14) == d;
  }

  /** The mask a layout of `n` digits follows: the CPF mask up to eleven digits, the CNPJ mask after. */
  function MaskFor(n: nat): string {
    if n <= 11 then CpfMask else CnpjMask
  }

  /** The characters the layout of `n` digits has: the digits and the separators before the last digit. */
  function LayoutLength(n: nat): nat {
    if n <= 3 then n
    else if n <= 6 then n + 1
    else if n <= 9 then n + 2
    else if n <= 11 then n + 3
    else if n == 12 then n + 3
    else n + 4
  }

  /** A text fits a mask when its separators stand where the mask's do, with the mask's characters. */
  lemma FitsMaskBy(t: string, mask: string, seps: set<nat>)
    requires |t| == |mask| && DigitsBut(t, seps)
    requires forall k :: 0 <= k < |mask| ==> (mask[k] == '#' <==> k !in seps)
    requires forall k :: k in seps ==> t[k] == mask[k]
    ensures FitsMask(t, mask)
  {
  }

  /** Where the CPF mask has its separators. */
  lemma CpfMaskShape(n: nat)
    requires n <= 14
    ensures forall k :: 0 <= k < n ==> (CpfMask[..n][k] == '#' <==> k !in {3, 7, 11})
    ensures n <= 3 || CpfMask[..n][3] == '.'
    ensures n <= 7 || CpfMask[..n][7] == '.'
    ensures n <= 11 || CpfMask[..n][11] == '-'
  {
    assert forall k :: 0 <= k < n ==> CpfMask[..n][k] == CpfMask[k];
  }

  /** Where the CNPJ mask has its separators. */
  lemma CnpjMaskShape(n: nat)
    requires n <= 18
    ensures forall k :: 0 <= k < n ==> (CnpjMask[..n][k] == '#' <==> k !in {2, 6, 10, 15})
    ensures n <= 2 || CnpjMask[..n][2] == '.'
    ensures n <= 6 || CnpjMask[..n][6] == '.'
    ensures n <= 10 || CnpjMask[..n][10] == '/'
    ensures n <= 15 || CnpjMask[..n][15] == '-'
  {
    assert forall k :: 0 <= k < n ==> CnpjMask[..n][k] == CnpjMask[k];
  }

  /** Inserting a separator keeps the separators already in place. */
  lemma InsertKeeps(s: string, i: nat, c: char, seps: set<nat>)
    requires i <= |s| && forall k :: k in seps ==> k < i
    ensures forall k :: k in seps ==> InsertAt(s, i, c)[k] == s[k]
    ensures InsertAt(s, i, c)[i] == c
  {
  }

  /** The CPF layouts: the CPF mask filled from the left, cut after the last digit. */
  lemma CpfLayoutFits(d: string)
    requires All(d, IsDigit) && |d| <= 11
    ensures |Layout(d)| == LayoutLength(|d|) && FitsMask(Layout(d), CpfMask[..LayoutLength(|d|)])
  {
    var n := |d|;
    var m := LayoutLength(n);
    CpfMaskShape(m);
    if n <= 3 {
      FitsMaskBy(d, CpfMask[..m], {});
    } else {
      InsertSeparator(d, {}, 3, '.');
      InsertKeeps(d, 3, '.', {});
      var s1 := InsertAt(d, 3, '.');
      if n <= 6 {
        hide InsertAt;
        FitsMaskBy(s1, CpfMask[..m], {3});
      } else {
        InsertSeparator(s1, {3}, 7, '.');
        InsertKeeps(s1, 7, '.', {3});
        var s2 := InsertAt(s1, 7, '.');
        if n <= 9 {
          hide InsertAt;
          FitsMaskBy(s2, CpfMask[..m], {3, 7});
        } else {
          InsertSeparator(s2, {3, 7}, 11, '-');
          InsertKeeps(s2, 11, '-', {3, 7});
          hide InsertAt;
          FitsMaskBy(InsertAt(s2, 11, '-'), CpfMask[..m], {3, 7, 11});
        }
      }
    }
  }

  /** The CNPJ layouts: the CNPJ mask filled from the left, cut after the last digit. */
  lemma CnpjLayoutFits(d: string)
    requires All(d, IsDigit) && 12 <= |d| <= 14
    ensures |Layout(d)| == LayoutLength(|d|) && FitsMask(Layout(d), CnpjMask[..LayoutLength(|d|)])
  {
    var m := LayoutLength(|d|);
    CnpjMaskShape(m);
    CnpjSeparators(d);
    var s1 := InsertAt(d, 2, '.');
    var s2 := InsertAt(s1, 6, '.');
    var s3 := InsertAt(s2, 10, '/');
    assert s3[2] == '.' && s3[6] == '.' && s3[10] == '/';
    if |d| == 12 {
      FitsMaskBy(s3, CnpjMask[..m], {2, 6, 10});
    } else {
      InsertSeparator(s3, {2, 6, 10}, 15, '-');
      var s4 := InsertAt(s3, 15, '-');
      assert s4[2] == '.' && s4[6] == '.' && s4[10] == '/';
      FitsMaskBy(s4, CnpjMask[..m], {2, 6, 10, 15});
    }
  }

  /**
   The formatted text is a prefix of the CPF or CNPJ mask with digits in
   place of `#`: the whole CPF mask for eleven digits, the whole CNPJ mask
   for fourteen or more.
   */
  lemma FormatCpfCnpjFitsMask(value: string)
    ensures var n := |Take(OnlyDigits(value), 14)|;
      FitsMask(FormatCpfCnpj(value), MaskFor(n)[..LayoutLength(n)])
    ensures |OnlyDigits(value)| == 11 ==> FitsMask(FormatCpfCnpj(value), CpfMask)
    ensures |OnlyDigits(value)| >= 14 ==> FitsMask(FormatCpfCnpj(value), CnpjMask)
  {
    hide FormatCpfCnpj, Layout, InsertAt, OnlyDigits, Take;
    FormatCpfCnpjLayout(value);
    KeptDigits(value);
    var d := Take(OnlyDigits(value), 14);
    if |d| <= 11 { CpfLayoutFits(d); } else { CnpjLayoutFits(d); }
    assert CpfMask[..14] == CpfMask && CnpjMask[..18] == CnpjMask;
  }

  /** A complete CPF or CNPJ typed into the form is read back by the document extractor as it is shown. */
  lemma FormatCpfCnpjReadsBack(value: string)
    requires |OnlyDigits(value)| == 11 || |OnlyDigits(value)| >= 14
    ensures ExtractCpfCnpj(FormatCpfCnpj(value)) == Some(FormatCpfCnpj(value))
  {
    FormatCpfCnpjFitsMask(value);
    CpfCnpjReadsBack(FormatCpfCnpj(value));
  }

  // ---------------------------------------------------------------------------
  // The form

  /** The debtor being edited; `id` and `block` are optional. */
  datatype Debtor = Debtor(
    id: Option<string>,
    name: string,
    unit: string,
    block: Option<string>,
    condominiumName: string,
    cpfCnpj: string)

  /** `keyof Debtor`. */
  datatype DebtorField = Id | Name | Unit | Block | CondominiumName | CpfCnpj

  /** The value of a field, `None` for an optional field left out. */
  function Get(d: Debtor, field: DebtorField): Option<string> {
    match field
    case Id => d.id
    case Name => Some(d.name)
    case Unit => Some(d.unit)
    case Block => d.block
    case CondominiumName => Some(d.condominiumName)
    case CpfCnpj => Some(d.cpfCnpj)
  }

  /** What a field holds after `value` is typed into it: the CPF/CNPJ field is masked, the others keep it as typed. */
  function Entered(field: DebtorField, value: string): string {
    if field == CpfCnpj then FormatCpfCnpj(value) else value
  }

  /**
   `handleChange(field, value)`: the debtor passed to `onChange`, a copy
   with one field replaced, by the masked value for the CPF/CNPJ field and
   by the value as typed for every other field.
   */
  function HandleChange(d: Debtor, field: DebtorField, value: string): Debtor {
    match field
    case Id => d.(id := Some(value))
    case Name => d.(name := value)
    case Unit => d.(unit := value)
    case Block => d.(block := Some(value))
    case CondominiumName => d.(condominiumName := value)
    case CpfCnpj => d.(cpfCnpj := Entered(field, value))
  }

  /** The edited field takes the entered value and every other field keeps its own. */
  lemma HandleChangeFields(d: Debtor, field: DebtorField, value: string)
    ensures var r := HandleChange(d, field, value);
      && Get(r, field) == Some(Entered(field, value))
      && forall f :: f != field ==> Get(r, f) == Get(d, f)
  {
    hide FormatCpfCnpj;
  }

  /** Editing the CPF/CNPJ field leaves it holding only the digits typed, at most fourteen, with mask punctuation. */
  lemma HandleChangeCpfCnpj(d: Debtor, value: string)
    ensures var r := HandleChange(d, CpfCnpj, value);
      && OnlyDigits(r.cpfCnpj) == Take(OnlyDigits(value), 14)
      && HandleChange(r, CpfCnpj, r.cpfCnpj) == r
  {
    hide FormatCpfCnpj;
    FormatCpfCnpjDigits(value);
    FormatCpfCnpjIdempotent(value);
  }
}

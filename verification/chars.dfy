/**
 Character classes and string primitives shared by every recogniser.

 Characters are Unicode scalar values; JavaScript strings are UTF-16, so a
 character outside the Basic Multilingual Plane counts once here and twice in
 JavaScript's `length`.
 */
module Chars {

  /** JavaScript's `\s`: white space plus line terminators. `String.prototype.trim` strips exactly this set. */
  predicate IsSpace(c: char) {
    || c == ' ' || c == '\t' || c == '\n' || c == '\r' || c == '\U{000B}' || c == '\U{000C}'
    || c == '\U{00A0}' || c == '\U{1680}' || ('\U{2000}' <= c <= '\U{200A}')
    || c == '\U{2028}' || c == '\U{2029}' || c == '\U{202F}' || c == '\U{205F}'
    || c == '\U{3000}' || c == '\U{FEFF}'
  }

  /** The characters a regular-expression `.` does not match. */
  predicate IsLineTerminator(c: char) {
    c == '\n' || c == '\r' || c == '\U{2028}' || c == '\U{2029}'
  }

  /** `\d`: ASCII digits only. */
  predicate IsDigit(c: char) {
    '0' <= c <= '9'
  }

  predicate IsAsciiUpper(c: char) {
    'A' <= c <= 'Z'
  }

  predicate IsAsciiLower(c: char) {
    'a' <= c <= 'z'
  }

  /** `\w`: ASCII letters, digits and underscore. */
  predicate IsWordChar(c: char) {
    IsAsciiUpper(c) || IsAsciiLower(c) || IsDigit(c) || c == '_'
  }

  /** The accented capitals the name patterns list: `ÁÀÂÃÉÊÍÓÔÕÚÇ`. */
  predicate IsAccentedCapital(c: char) {
    c in "ÁÀÂÃÉÊÍÓÔÕÚÇ"
  }

  /** The class `[A-ZÁÀÂÃÉÊÍÓÔÕÚÇ]` matched case-sensitively. */
  predicate IsNameCapital(c: char) {
    IsAsciiUpper(c) || IsAccentedCapital(c)
  }

  /**
   Single-character upper-casing for ASCII and Latin-1 letters. This is the
   canonicalisation a case-insensitive (non-Unicode) JavaScript regular
   expression applies; it never maps a non-ASCII letter onto an ASCII one.
   */
  function Upper(c: char): (u: char)
    ensures IsAsciiLower(c) ==> IsAsciiUpper(u)
    ensures !IsAsciiLower(c) && c < '\U{00B5}' ==> u == c
  {
    if IsAsciiLower(c) then (c as int - 32) as char
    else if '\U{00E0}' <= c <= '\U{00FE}' && c != '\U{00F7}' then (c as int - 32) as char
    else if c == '\U{00FF}' then '\U{0178}'
    else if c == '\U{00B5}' then '\U{039C}'
    else c
  }

  /** ASCII lower-casing (`toLowerCase` on `\w` characters). */
  function Lower(c: char): char {
    if IsAsciiUpper(c) then (c as int + 32) as char else c
  }

  /** Case-insensitive character equality of a `/i` regular expression. */
  predicate FoldEq(a: char, b: char) {
    Upper(a) == Upper(b)
  }

  /** `[A-ZÁÀÂÃÉÊÍÓÔÕÚÇ]` under the `/i` flag. */
  predicate IsNameLetterFold(c: char) {
    IsNameCapital(Upper(c))
  }

  /** `[A-Z0-9\s\/]` under the `/i` flag (the unit-token class). */
  predicate IsUnitChar(c: char) {
    IsAsciiUpper(Upper(c)) || IsDigit(c) || IsSpace(c) || c == '/'
  }

  /** `[A-ZÁÀÂÃÉÊÍÓÔÕÚÇ\s]` under the `/i` flag (the name class). */
  predicate IsNameOrSpace(c: char) {
    IsNameLetterFold(c) || IsSpace(c)
  }

  /**
   `String.prototype.toUpperCase` on ASCII and Latin-1 letters, plus three
   letters whose upper case is ASCII: `ß` becomes `SS`, dotless `ı` becomes
   `I` and long `ſ` becomes `S`. Every other character is kept as it is,
   including the others whose upper case holds ASCII letters: the Latin
   ligatures `ﬀ` to `ﬆ` (`ﬁ` becomes `FI`), `ŉ`, `ǰ` and `ẖ` to `ẚ`.
   */
  function UpperString(s: string): (u: string)
    ensures |u| >= |s|
    decreases |s|
  {
    if |s| == 0 then ""
    else
      var c := s[0];
      var head := if c == 'ß' then "SS" else if c == '\U{0131}' then "I" else if c == '\U{017F}' then "S" else [Upper(c)];
      head + UpperString(s[1..])
  }

  predicate All(s: string, p: char -> bool) {
    forall i :: 0 <= i < |s| ==> p(s[i])
  }

  /** Length of the longest run of characters satisfying `p` starting at `i`. */
  function Span(s: string, i: nat, p: char -> bool): (n: nat)
    requires i <= |s|
    ensures i + n <= |s|
    ensures forall k :: i <= k < i + n ==> p(s[k])
    ensures i + n == |s| || !p(s[i + n])
    decreases |s| - i
  {
    if i == |s| || !p(s[i]) then 0 else 1 + Span(s, i + 1, p)
  }

  /** Length of the longest run of characters satisfying `p` ending just before `j`. */
  function SpanBack(s: string, j: nat, p: char -> bool): (n: nat)
    requires j <= |s|
    ensures n <= j
    ensures forall k :: j - n <= k < j ==> p(s[k])
    ensures n == j || !p(s[j - n - 1])
  {
    if j == 0 || !p(s[j - 1]) then 0 else 1 + SpanBack(s, j - 1, p)
  }

  /** `s.trim()`. */
  function Trim(s: string): (t: string)
    ensures |t| <= |s|
    ensures |t| > 0 ==> !IsSpace(t[0]) && !IsSpace(t[|t| - 1])
  {
    var a := Span(s, 0, IsSpace);
    var b := |s| - SpanBack(s, |s|, IsSpace);
    if a >= b then "" else s[a..b]
  }

  /** Trimming removes white space from the two ends only: what is left is a slice with only white space around it. */
  lemma TrimIsSlice(s: string)
    ensures exists a, b :: 0 <= a <= b <= |s| && Trim(s) == s[a..b] && All(s[..a], IsSpace) && All(s[b..], IsSpace)
  {
    var a := Span(s, 0, IsSpace);
    var b := |s| - SpanBack(s, |s|, IsSpace);
    if a >= b {
      assert All(s[..|s|], IsSpace);
      assert s[|s|..] == "";
      assert Trim(s) == s[|s|..|s|];
    } else {
      assert All(s[..a], IsSpace) && All(s[b..], IsSpace);
    }
  }

  /** A text that starts with a character other than white space keeps that character when trimmed. */
  lemma TrimKeepsFirst(s: string)
    requires |s| > 0 && !IsSpace(s[0])
    ensures |Trim(s)| > 0 && Trim(s)[0] == s[0]
  {
    TrimIsSlice(s);
    var a, b :| 0 <= a <= b <= |s| && Trim(s) == s[a..b] && All(s[..a], IsSpace) && All(s[b..], IsSpace);
    assert a == 0 by {
      assert !IsSpace(s[..|s|][0]);
    }
    assert b > 0 by {
      assert !IsSpace(s[0..][0]);
    }
  }

  /** `s` holds `w` at position `i`. */
  predicate StartsAt(s: string, i: nat, w: string) {
    i + |w| <= |s| && s[i..i + |w|] == w
  }

  /** `s` holds `w` at position `i`, ignoring case as a `/i` pattern does. */
  predicate StartsAtFold(s: string, i: nat, w: string) {
    i + |w| <= |s| && forall k :: 0 <= k < |w| ==> FoldEq(s[i + k], w[k])
  }

  /** `s.includes(w)`. */
  predicate Contains(s: string, w: string) {
    exists i :: 0 <= i <= |s| - |w| && StartsAt(s, i, w)
  }

  predicate ContainsAny(s: string, ws: seq<string>) {
    exists k :: 0 <= k < |ws| && Contains(s, ws[k])
  }

  function NotSep(sep: char): char -> bool {
    c => c != sep
  }

  /** `parts.join(sep)`: the pieces with `sep` between consecutive ones. */
  function Join(parts: seq<string>, sep: char): string
    requires |parts| >= 1
    decreases |parts|
  {
    if |parts| == 1 then parts[0] else parts[0] + [sep] + Join(parts[1..], sep)
  }

  /** `s.split(sep)`: the pieces between occurrences of `sep`, in order; joined back with `sep` they give `s`. */
  function Split(s: string, sep: char): (parts: seq<string>)
    ensures |parts| >= 1
    ensures forall k :: 0 <= k < |parts| ==> sep !in parts[k]
    ensures Join(parts, sep) == s
    decreases |s|
  {
    var n := Span(s, 0, NotSep(sep));
    if n == |s| then
      assert forall k :: 0 <= k < |s| ==> s[k] != sep;
      [s]
    else
      assert forall k :: 0 <= k < n ==> s[..n][k] != sep;
      var rest := Split(s[n + 1..], sep);
      assert ([s[..n]] + rest)[1..] == rest;
      assert s == s[..n] + [sep] + s[n + 1..];
      [s[..n]] + rest
  }

  /** Pieces without `sep`, joined with `sep`, split back into the same pieces. */
  lemma {:induction false} SplitOfJoin(parts: seq<string>, sep: char)
    requires |parts| >= 1 && forall k :: 0 <= k < |parts| ==> sep !in parts[k]
    ensures Split(Join(parts, sep), sep) == parts
    decreases |parts|
  {
    if |parts| == 1 {
      SplitWhole(parts[0], sep);
    } else {
      SplitOfJoin(parts[1..], sep);
      SplitFirst(parts[0], sep, Join(parts[1..], sep));
    }
  }

  /** Text without `sep` splits into itself. */
  lemma SplitWhole(a: string, sep: char)
    requires sep !in a
    ensures Split(a, sep) == [a]
  {
    SpanExact(a, 0, |a|, NotSep(sep));
  }

  /** A first piece without `sep`, then `sep`: the piece comes first and the rest splits on. */
  lemma SplitFirst(a: string, sep: char, rest: string)
    requires sep !in a
    ensures Split(a + [sep] + rest, sep) == [a] + Split(rest, sep)
  {
    var s := a + [sep] + rest;
    SpanExact(s, 0, |a|, NotSep(sep));
    assert s[..|a|] == a && s[|a| + 1..] == rest;
  }

  /** Text that neither starts nor ends with white space is its own trim. */
  lemma TrimUnspaced(s: string)
    requires |s| > 0 && !IsSpace(s[0]) && !IsSpace(s[|s| - 1])
    ensures Trim(s) == s
  {
    assert s[0..|s|] == s;
  }

  /** `s.split(sep)[0]`: everything before the first `sep`. */
  function FirstPiece(s: string, sep: char): string {
    Split(s, sep)[0]
  }
  /** `s.replace(/\D/g, '')`: the digits of `s`, in order. */
  function OnlyDigits(s: string): (ds: string)
    ensures All(ds, IsDigit) && |ds| <= |s|
  {
    if |s| == 0 then "" else (if IsDigit(s[0]) then [s[0]] else "") + OnlyDigits(s[1..])
  }

  lemma {:induction false} OnlyDigitsAppend(a: string, b: string)
    ensures OnlyDigits(a + b) == OnlyDigits(a) + OnlyDigits(b)
    decreases |a|
  {
    if |a| > 0 {
      assert (a + b)[1..] == a[1..] + b;
      OnlyDigitsAppend(a[1..], b);
    } else {
      assert a + b == b;
    }
  }

  /** A string of digits is its own digit string; one without digits has an empty one. */
  lemma {:induction false} OnlyDigitsOf(s: string)
    ensures All(s, IsDigit) ==> OnlyDigits(s) == s
    ensures (forall i :: 0 <= i < |s| ==> !IsDigit(s[i])) ==> OnlyDigits(s) == ""
    decreases |s|
  {
    if |s| > 0 {
      OnlyDigitsOf(s[1..]);
      assert s == [s[0]] + s[1..];
    }
  }

  /** A run of exactly `n` characters satisfying `p`, followed by one that does not, has span `n`. */
  lemma {:induction false} SpanExact(s: string, i: nat, n: nat, p: char -> bool)
    requires i + n <= |s|
    requires forall k :: i <= k < i + n ==> p(s[k])
    requires i + n == |s| || !p(s[i + n])
    ensures Span(s, i, p) == n
    decreases n
  {
    if n > 0 {
      SpanExact(s, i + 1, n - 1, p);
    }
  }

  /** A character of the Basic Multilingual Plane: one UTF-16 code unit. */
  predicate InBmp(c: char) {
    c < '\U{10000}'
  }

  /** JavaScript's `length`: UTF-16 code units, two for each character outside the Basic Multilingual Plane. */
  function Utf16Length(s: string): (n: nat)
    ensures |s| <= n <= 2 * |s|
    ensures n == |s| <==> All(s, InBmp)
  {
    if |s| == 0 then 0
    else
      var rest := Utf16Length(s[1..]);
      assert All(s, InBmp) <==> InBmp(s[0]) && All(s[1..], InBmp) by {
        assert forall i :: 1 <= i < |s| ==> s[i] == s[1..][i - 1];
      }
      (if InBmp(s[0]) then 1 else 2) + rest
  }

  /** Every character the name class `[A-ZÁÀÂÃÉÊÍÓÔÕÚÇ\s]` admits under `/i` is in the Basic Multilingual Plane. */
  lemma NameClassInBmp(c: char)
    requires IsNameOrSpace(c)
    ensures InBmp(c)
  {
  }

  /** A text of the name class has the same length in UTF-16 units as in characters. */
  lemma NameTextLength(s: string)
    requires All(s, IsNameOrSpace)
    ensures Utf16Length(s) == |s|
  {
    forall i | 0 <= i < |s| ensures InBmp(s[i]) {
      NameClassInBmp(s[i]);
    }
  }
}

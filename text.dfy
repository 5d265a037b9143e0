/**
 * The Kotlin string operations the app's code uses, over `string` = `seq<char>`:
 * `isWhitespace`, `isBlank`, `trim`, `contains`, `substringAfter`, `toLowerCase`,
 * decimal formatting of integers and `%.0f` rounding.
 */
module Text {

  /** Kotlin's `Char.isWhitespace()`: Java's `Character.isWhitespace` or `Character.isSpaceChar`. */
  predicate IsWhitespace(c: char) {
    || ('\t' <= c <= '\r')
    || ('\U{1C}' <= c <= '\U{1F}')
    || c == ' ' || c == '\U{A0}' || c == '\U{1680}'
    || ('\U{2000}' <= c <= '\U{200A}')
    || c == '\U{2028}' || c == '\U{2029}' || c == '\U{202F}' || c == '\U{205F}' || c == '\U{3000}'
  }

  /** Kotlin's `isBlank()`: empty, or whitespace only. */
  predicate IsBlank(s: string) {
    forall i | 0 <= i < |s| :: IsWhitespace(s[i])
  }

  /** Removes the leading whitespace: the longest suffix of `s` that does not start with whitespace. */
  function DropLeading(s: string): (r: string)
    ensures |r| <= |s| && r == s[|s| - |r|..]
    ensures r == [] || !IsWhitespace(r[0])
    ensures forall i | 0 <= i < |s| - |r| :: IsWhitespace(s[i])
    decreases |s|
  {
    if s != [] && IsWhitespace(s[0]) then DropLeading(s[1..]) else s
  }

  /** Removes the trailing whitespace: the longest prefix of `s` that does not end with whitespace. */
  function DropTrailing(s: string): (r: string)
    ensures |r| <= |s| && r == s[..|r|]
    ensures r == [] || !IsWhitespace(r[|r| - 1])
    ensures forall i | |r| <= i < |s| :: IsWhitespace(s[i])
    decreases |s|
  {
    if s != [] && IsWhitespace(s[|s| - 1]) then DropTrailing(s[..|s| - 1]) else s
  }

  /** Kotlin's `trim()`. */
  function Trim(s: string): (r: string)
    ensures r == [] <==> IsBlank(s)
    ensures r != [] ==> !IsWhitespace(r[0]) && !IsWhitespace(r[|r| - 1])
    ensures forall c | c in r :: c in s
  {
    var lead := DropLeading(s);
    var r := DropTrailing(lead);
    assert forall c | c in r :: c in lead;
    r
  }

  /** A suffix of `s` after whitespace, cut before whitespace, is an infix of `s` with only
      whitespace around it. */
  lemma TrimmedInfix(s: string, lead: string, r: string)
    requires |lead| <= |s| && lead == s[|s| - |lead|..]
    requires forall i | 0 <= i < |s| - |lead| :: IsWhitespace(s[i])
    requires |r| <= |lead| && r == lead[..|r|]
    requires forall i | |r| <= i < |lead| :: IsWhitespace(lead[i])
    ensures IsTrimmedAt(s, r, |s| - |lead|)
  {
    var a := |s| - |lead|;
    assert s[a..a + |r|] == r;
    var before, after := s[..a], s[a + |r|..];
    forall i | 0 <= i < |before| ensures IsWhitespace(before[i]) {
      assert before[i] == s[i];
    }
    forall i | 0 <= i < |after| ensures IsWhitespace(after[i]) {
      assert after[i] == lead[|r| + i];
    }
  }

  /** `trim()` is the infix of the text left once a whitespace prefix and a whitespace
      suffix are removed. */
  lemma TrimIsInfix(s: string)
    ensures exists a | 0 <= a <= |s| - |Trim(s)| :: IsTrimmedAt(s, Trim(s), a)
  {
    var lead := DropLeading(s);
    assert Trim(s) == DropTrailing(lead);
    TrimmedInfix(s, lead, Trim(s));
    assert IsTrimmedAt(s, Trim(s), |s| - |lead|);
  }

  /** `r` is the infix of `s` at `a`, with only whitespace before and after it. */
  predicate IsTrimmedAt(s: string, r: string, a: nat) {
    a + |r| <= |s| && r == s[a..a + |r|] && IsBlank(s[..a]) && IsBlank(s[a + |r|..])
  }

  /** `p` occurs in `s` starting at index `i`. */
  predicate OccursAt(s: string, p: string, i: nat) {
    i + |p| <= |s| && s[i..i + |p|] == p
  }

  /** The first index at or after `from` where `p` occurs in `s`, or -1. */
  function IndexOfFrom(s: string, p: string, from: nat): (r: int)
    ensures r == -1 || (from <= r && OccursAt(s, p, r))
    ensures forall j | from <= j && (r == -1 || j < r) :: !OccursAt(s, p, j)
    decreases |s| - from
  {
    if from + |p| > |s| then -1
    else if s[from..from + |p|] == p then from
    else IndexOfFrom(s, p, from + 1)
  }

  /** Kotlin's `indexOf(p)`: the first occurrence of `p` in `s`, or -1. */
  function IndexOf(s: string, p: string): int {
    IndexOfFrom(s, p, 0)
  }

  /** Kotlin's `contains(p)`. */
  predicate Contains(s: string, p: string) {
    IndexOf(s, p) >= 0
  }

  /** Kotlin's `substringAfter(p)`: the text after the first occurrence of `p`, or `s` itself
      when `p` does not occur. */
  function SubstringAfter(s: string, p: string): (r: string)
    ensures Contains(s, p) ==> OccursAt(s, p, IndexOf(s, p)) && r == s[IndexOf(s, p) + |p|..]
    ensures !Contains(s, p) ==> r == s
  {
    var i := IndexOf(s, p);
    if i >= 0 then s[i + |p|..] else s
  }

  /** A string lacking some character of `p` cannot contain `p`. */
  lemma MissingCharNotContained(s: string, p: string, c: char)
    requires c in p && c !in s
    ensures !Contains(s, p)
  {
  }

  /** An occurrence at a known index makes `contains` true. */
  lemma OccurrenceContained(s: string, p: string, i: nat)
    requires OccursAt(s, p, i)
    ensures Contains(s, p)
  {
    assert IndexOf(s, p) >= 0 || !OccursAt(s, p, i);
  }

  predicate IsUpper(c: char) { 'A' <= c <= 'Z' }

  /** `Char.lowercaseChar()` on the ASCII letters; other characters are kept. */
  function LowerChar(c: char): (d: char)
    ensures !IsUpper(d)
    ensures !IsUpper(c) ==> d == c
  {
    if IsUpper(c) then (c as int + 32) as char else c
  }

  /** No ASCII upper-case letter in `s`. */
  predicate IsLowercase(s: string) {
    forall i | 0 <= i < |s| :: !IsUpper(s[i])
  }

  /** `toLowerCase()`, on ASCII letters. */
  function ToLower(s: string): (r: string)
    ensures |r| == |s| && IsLowercase(r)
    ensures forall i | 0 <= i < |s| :: r[i] == LowerChar(s[i])
  {
    seq(|s|, i requires 0 <= i < |s| => LowerChar(s[i]))
  }

  function DigitChar(d: nat): (c: char)
    requires d < 10
    ensures '0' <= c <= '9'
  {
    ('0' as int + d) as char
  }

  /** Decimal notation of a natural number, as `Int.toString()` writes it. */
  function NatToDecimal(n: nat): (s: string)
    ensures |s| > 0
    ensures forall i | 0 <= i < |s| :: '0' <= s[i] <= '9'
    ensures s[0] == '0' <==> n == 0
  {
    if n < 10 then [DigitChar(n)] else NatToDecimal(n / 10) + [DigitChar(n % 10)]
  }

  /** The value of a string of decimal digits. */
  function DecimalValue(s: string): nat
    requires forall i | 0 <= i < |s| :: '0' <= s[i] <= '9'
  {
    if s == [] then 0 else 10 * DecimalValue(s[..|s| - 1]) + (s[|s| - 1] as int - '0' as int)
  }

  /** Reading back the decimal notation gives the number. */
  lemma {:induction false} DecimalRoundTrip(n: nat)
    ensures DecimalValue(NatToDecimal(n)) == n
  {
    var s := NatToDecimal(n);
    if n >= 10 {
      DecimalRoundTrip(n / 10);
      assert s[..|s| - 1] == NatToDecimal(n / 10);
    }
  }

  /** `String.format("%.0f", x)` for a non-negative `x`: the nearest integer, halves rounded up. */
  function RoundHalfUp(x: real): (n: nat)
    requires x >= 0.0
    ensures n as real - 0.5 <= x < n as real + 0.5
  {
    (x + 0.5).Floor
  }
}

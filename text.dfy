/** The string operations of JavaScript that the application uses, on
    `string` = `seq<char>` (Unicode scalar values): `toLowerCase`, `includes`,
    `trim`, `String(n)`, the UTF-16 `length`, and the whitespace class shared by
    `trim` and the regular-expression escape `\s`. */
module Text {

  /** Case folding restricted to ASCII: 'A'..'Z' become 'a'..'z', every
      other character is left as it is. */
  function LowerChar(c: char): (r: char) {
    if 'A' <= c <= 'Z' then (c as int + 32) as char else c
  }

  function Lower(s: string): (r: string)
    ensures |r| == |s|
  {
    seq(|s|, i requires 0 <= i < |s| => LowerChar(s[i]))
  }

  /** Lower-casing twice is lower-casing once. */
  lemma LowerIdempotent(s: string)
    ensures Lower(Lower(s)) == Lower(s)
  {
    forall i | 0 <= i < |s|
      ensures Lower(Lower(s))[i] == Lower(s)[i]
    {
      assert Lower(s)[i] == LowerChar(s[i]);
    }
  }

  /** `String.prototype.includes`: `needle` occurs in `hay` as a contiguous piece. */
  predicate Includes(hay: string, needle: string) {
    exists i | 0 <= i <= |hay| - |needle| :: OccursAt(hay, needle, i)
  }

  predicate OccursAt(hay: string, needle: string, i: nat)
    requires i + |needle| <= |hay|
  {
    hay[i..i + |needle|] == needle
  }

  predicate StartsWith(s: string, prefix: string) {
    |prefix| <= |s| && s[..|prefix|] == prefix
  }

  /** The WhiteSpace and LineTerminator code points of ECMA-262 (2023
      edition), sections 12.2 and 12.3: what `trim` removes and what `\s`
      matches. */
  predicate IsJsWhitespace(c: char) {
    || c == '\t' || c == '\n' || c == '\U{B}' || c == '\U{C}' || c == '\r' || c == ' '
    || c == '\U{A0}' || c == '\U{1680}' || ('\U{2000}' <= c <= '\U{200A}')
    || c == '\U{2028}' || c == '\U{2029}' || c == '\U{202F}' || c == '\U{205F}'
    || c == '\U{3000}' || c == '\U{FEFF}'
  }

  ghost predicate AllWhitespace(s: string) {
    All(s, IsJsWhitespace)
  }

  /** Neither the first nor the last character is whitespace. */
  predicate NoOuterWhitespace(s: string) {
    s == [] || (!IsJsWhitespace(s[0]) && !IsJsWhitespace(s[|s| - 1]))
  }

  /** `r` is a piece of `s` with only whitespace before and after it. */
  ghost predicate FramedByWhitespace(r: string, s: string) {
    exists i :: 0 <= i <= |s| - |r| && r == s[i..i + |r|]
                && AllWhitespace(s[..i]) && AllWhitespace(s[i + |r|..])
  }

  /** `String.prototype.trim`: `s` with whitespace removed from both ends.
      The result is the piece of `s` between a whitespace-only prefix and a
      whitespace-only suffix, and it neither starts nor ends with whitespace. */
  function Trim(s: string): (r: string)
    ensures FramedByWhitespace(r, s)
    ensures NoOuterWhitespace(r)
  {
    var r := Strip(s, IsJsWhitespace);
    var i := LeadingCount(s, IsJsWhitespace);
    assert 0 <= i <= |s| - |r| && r == s[i..i + |r|] && AllWhitespace(s[..i]) && AllWhitespace(s[i + |r|..]);
    r
  }

  /** Trimming twice is trimming once. */
  lemma TrimIdempotent(s: string)
    ensures Trim(Trim(s)) == Trim(s)
  {
    StripIdempotent(s, IsJsWhitespace);
  }

  /** Trimming leaves nothing exactly when the string is all whitespace. */
  lemma TrimBlank(s: string)
    ensures Trim(s) == [] <==> AllWhitespace(s)
  {
    StripEmpty(s, IsJsWhitespace);
  }

  // ---- Dropping a kind of element at either end, for any element type ----

  ghost predicate All<T>(s: seq<T>, p: T -> bool) {
    forall k :: 0 <= k < |s| ==> p(s[k])
  }

  /** How many leading elements satisfy `p`. */
  function LeadingCount<T>(s: seq<T>, p: T -> bool): (n: nat)
    ensures n <= |s|
    ensures forall k :: 0 <= k < n ==> p(s[k])
    ensures n < |s| ==> !p(s[n])
  {
    if s != [] && p(s[0]) then
      var n := 1 + LeadingCount(s[1..], p);
      assert forall k :: 1 <= k < n ==> s[1..][k - 1] == s[k];
      n
    else 0
  }

  /** Where the run of trailing elements satisfying `p` starts, not looking
      below position `lo`. */
  function TrailingStart<T>(s: seq<T>, p: T -> bool, lo: nat): (m: nat)
    requires lo <= |s|
    ensures lo <= m <= |s|
    ensures forall k :: m <= k < |s| ==> p(s[k])
    ensures lo < m ==> !p(s[m - 1])
  {
    if lo < |s| && p(s[|s| - 1]) then
      var m := TrailingStart(s[..|s| - 1], p, lo);
      assert forall k :: m <= k < |s| - 1 ==> s[..|s| - 1][k] == s[k];
      m
    else |s|
  }

  /** Both ends dropped: the factor of `s` between the leading and the
      trailing run of `p`-elements. */
  function Strip<T>(s: seq<T>, p: T -> bool): (r: seq<T>)
    ensures var i := LeadingCount(s, p);
      && i + |r| <= |s| && r == s[i..i + |r|]
      && All(s[..i], p) && All(s[i + |r|..], p)
    ensures r == [] || (!p(r[0]) && !p(r[|r| - 1]))
  {
    var n := LeadingCount(s, p);
    var m := TrailingStart(s, p, n);
    assert forall k :: 0 <= k < n ==> s[..n][k] == s[k];
    assert forall k :: 0 <= k < |s| - m ==> s[m..][k] == s[m + k];
    s[n..m]
  }

  lemma StripIdempotent<T>(s: seq<T>, p: T -> bool)
    ensures Strip(Strip(s, p), p) == Strip(s, p)
  {
    var r := Strip(s, p);
    assert LeadingCount(r, p) == 0;
    assert TrailingStart(r, p, 0) == |r|;
    assert r[0..|r|] == r;
  }

  lemma StripEmpty<T>(s: seq<T>, p: T -> bool)
    ensures Strip(s, p) == [] <==> All(s, p)
  {
    var n := LeadingCount(s, p);
    var m := TrailingStart(s, p, n);
    if All(s, p) {
      assert n == |s|;
    }
  }

  /** JavaScript's `length`: the number of UTF-16 code units, two for every
      character outside the Basic Multilingual Plane. */
  function Utf16Length(s: string): (n: nat)
    ensures |s| <= n <= 2 * |s|
    ensures (forall k :: 0 <= k < |s| ==> s[k] as int <= 0xFFFF) ==> n == |s|
  {
    if s == [] then 0
    else (if s[0] as int > 0xFFFF then 2 else 1) + Utf16Length(s[1..])
  }

  predicate IsDigit(c: char) {
    '0' <= c <= '9'
  }

  function DigitChar(d: nat): (c: char)
    requires d < 10
  {
    ('0' as int + d) as char
  }

  /** `String(n)` for an integer 0 <= n < 10^21 (from 10^21 on, JavaScript
      switches to exponent notation): its decimal numeral. */
  function NatToDecimal(n: nat): (r: string)
    ensures r != [] && forall k :: 0 <= k < |r| ==> IsDigit(r[k])
    ensures n < 10 <==> |r| == 1
    decreases n
  {
    if n < 10 then [DigitChar(n)]
    else NatToDecimal(n / 10) + [DigitChar(n % 10)]
  }

  /** The value of a numeral. */
  function DecimalValue(s: string): (n: nat)
    requires forall k :: 0 <= k < |s| ==> IsDigit(s[k])
  {
    if s == [] then 0
    else
      assert IsDigit(s[|s| - 1]);
      DecimalValue(s[..|s| - 1]) * 10 + (s[|s| - 1] as int - '0' as int)
  }

  /** Reading back the numeral `String(n)` gives `n`. */
  lemma {:induction false} DecimalRoundTrip(n: nat)
    ensures DecimalValue(NatToDecimal(n)) == n
    decreases n
  {
    if n >= 10 {
      var r := NatToDecimal(n);
      assert r[..|r| - 1] == NatToDecimal(n / 10);
      DecimalRoundTrip(n / 10);
    }
  }

  /** Distinct numbers have distinct numerals. */
  lemma DecimalInjective(m: nat, n: nat)
    requires NatToDecimal(m) == NatToDecimal(n)
    ensures m == n
  {
    DecimalRoundTrip(m);
    DecimalRoundTrip(n);
  }
}

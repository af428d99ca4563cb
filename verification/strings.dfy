/** The string primitives the catalogue relies on, written out over `seq<char>`:
    `String.prototype.trim`, ASCII digits and decimal rendering of numbers,
    a character-by-character string order standing for JavaScript's default one (the
    two differ only for characters above U+FFFF, which JavaScript compares by UTF-16
    code unit), and `String.prototype.replace`
    with a string pattern, which replaces the leftmost occurrence only. */
module Strings {
  import opened Wrappers

  /** The characters `trim` removes: the ECMAScript WhiteSpace and LineTerminator characters. */
  predicate IsWhitespace(c: char) {
    || c == '\U{9}' || c == '\U{A}' || c == '\U{B}' || c == '\U{C}' || c == '\U{D}' || c == ' '
    || c == '\U{A0}' || c == '\U{1680}' || ('\U{2000}' <= c <= '\U{200A}')
    || c == '\U{2028}' || c == '\U{2029}' || c == '\U{202F}' || c == '\U{205F}'
    || c == '\U{3000}' || c == '\U{FEFF}'
  }

  /** Every character of `s` is whitespace (in particular, the empty string is blank). */
  predicate IsBlank(s: string) {
    forall k :: 0 <= k < |s| ==> IsWhitespace(s[k])
  }

  /** Number of whitespace characters at the start of `s`. */
  function LeadingSpace(s: string): (n: nat)
    ensures n <= |s|
    ensures IsBlank(s[..n])
    ensures n < |s| ==> !IsWhitespace(s[n])
  {
    if |s| == 0 || !IsWhitespace(s[0]) then 0
    else
      var n := 1 + LeadingSpace(s[1..]);
      assert forall k :: 1 <= k < n ==> s[k] == s[1..][k - 1];
      n
  }

  /** Number of whitespace characters at the end of `s`. */
  function TrailingSpace(s: string): (n: nat)
    ensures n <= |s|
    ensures IsBlank(s[|s| - n..])
    ensures n < |s| ==> !IsWhitespace(s[|s| - 1 - n])
  {
    if |s| == 0 || !IsWhitespace(s[|s| - 1]) then 0
    else
      var init := s[..|s| - 1];
      var n := 1 + TrailingSpace(init);
      assert forall k :: |s| - n <= k < |s| - 1 ==> s[k] == init[k];
      n
  }

  /** `s.trim()`: `s` without its leading and trailing whitespace. */
  function Trim(s: string): (r: string)
    ensures r == "" <==> IsBlank(s)
    ensures r != "" ==> !IsWhitespace(r[0]) && !IsWhitespace(r[|r| - 1])
    ensures exists i :: 0 <= i <= |s| - |r| && s[i..i + |r|] == r
                        && IsBlank(s[..i]) && IsBlank(s[i + |r|..])
  {
    var a := LeadingSpace(s);
    if a == |s| then
      assert s[..a] == s;
      TrimWitness(s, "", 0);
      ""
    else
      var b := TrailingSpace(s);
      TrimMiddle(s, a, b);
      s[a..|s| - b]
  }

  /** With non-whitespace at `a` after a blank prefix, and a maximal blank suffix of
      length `b`, the slice between them is the trim. */
  lemma TrimMiddle(s: string, a: nat, b: nat)
    requires a < |s| && b <= |s|
    requires IsBlank(s[..a]) && !IsWhitespace(s[a])
    requires IsBlank(s[|s| - b..]) && (b < |s| ==> !IsWhitespace(s[|s| - 1 - b]))
    ensures a < |s| - b
    ensures !IsBlank(s)
    ensures var r := s[a..|s| - b];
            && !IsWhitespace(r[0]) && !IsWhitespace(r[|r| - 1])
            && exists i :: 0 <= i <= |s| - |r| && s[i..i + |r|] == r
                           && IsBlank(s[..i]) && IsBlank(s[i + |r|..])
  {
    if a >= |s| - b {
      assert false;
    }
    var r := s[a..|s| - b];
    assert r[0] == s[a] && r[|r| - 1] == s[|s| - 1 - b];
    assert s[a + |r|..] == s[|s| - b..];
    TrimWitness(s, r, a);
  }

  lemma TrimWitness(s: string, r: string, i: nat)
    requires i <= |s| - |r| && s[i..i + |r|] == r && IsBlank(s[..i]) && IsBlank(s[i + |r|..])
    ensures exists i :: 0 <= i <= |s| - |r| && s[i..i + |r|] == r
                        && IsBlank(s[..i]) && IsBlank(s[i + |r|..])
  {
  }

  /** A string with no whitespace at either end is its own trim. */
  lemma TrimOfTrimmed(s: string)
    requires s == "" || (!IsWhitespace(s[0]) && !IsWhitespace(s[|s| - 1]))
    ensures Trim(s) == s
  {
    if s != "" {
      assert LeadingSpace(s) == 0;
      assert TrailingSpace(s) == 0;
      assert s[0..|s|] == s;
    }
  }

  /** Trimming is idempotent. */
  lemma TrimIdempotent(s: string)
    ensures Trim(Trim(s)) == Trim(s)
  {
    TrimOfTrimmed(Trim(s));
  }

  // ---------------------------------------------------------------------------
  // Digits and decimal numbers

  /** The regular-expression class `\d`: ASCII digits only. */
  predicate IsDigit(c: char) {
    '0' <= c <= '9'
  }

  predicate AllDigits(s: string) {
    forall k :: 0 <= k < |s| ==> IsDigit(s[k])
  }

  function DigitValue(c: char): nat
    requires IsDigit(c)
  {
    c as int - '0' as int
  }

  function DigitChar(d: nat): (c: char)
    requires d < 10
    ensures IsDigit(c) && DigitValue(c) == d
  {
    ('0' as int + d) as char
  }

  /** The number a string of decimal digits denotes. */
  function DigitsValue(s: string): nat
    requires AllDigits(s)
  {
    if |s| == 0 then 0 else 10 * DigitsValue(s[..|s| - 1]) + DigitValue(s[|s| - 1])
  }

  /** The decimal rendering of a natural number, as template literals produce it:
      digits only, no leading zero, denoting `n`. */
  function NatToDecimal(n: nat): (r: string)
    ensures |r| > 0 && AllDigits(r)
    ensures DigitsValue(r) == n
    ensures r[0] == '0' ==> r == "0"
    decreases n
  {
    if n < 10 then [DigitChar(n)]
    else
      var high := NatToDecimal(n / 10);
      var r := high + [DigitChar(n % 10)];
      assert r[..|r| - 1] == high;
      r
  }

  /** The decimal rendering of an integer: a minus sign before the digits of a negative one. */
  function IntToDecimal(i: int): (r: string)
    ensures |r| > 0
    ensures r[0] == '-' <==> i < 0
    ensures i < 0 ==> AllDigits(r[1..]) && DigitsValue(r[1..]) == -i
    ensures i >= 0 ==> AllDigits(r) && DigitsValue(r) == i
    ensures i >= 0 ==> r == NatToDecimal(i)
    ensures i < 0 ==> r == "-" + NatToDecimal(-i)
  {
    if i < 0 then
      var r := "-" + NatToDecimal(-i);
      assert r[1..] == NatToDecimal(-i);
      r
    else NatToDecimal(i)
  }

  /** Length of the run of digits in `s` starting at index `k` (the greedy `\d+`). */
  function DigitRun(s: string, k: nat): (n: nat)
    requires k <= |s|
    ensures k + n <= |s|
    ensures AllDigits(s[k..k + n])
    ensures k + n < |s| ==> !IsDigit(s[k + n])
    decreases |s| - k
  {
    if k == |s| || !IsDigit(s[k]) then 0
    else
      var n := 1 + DigitRun(s, k + 1);
      assert forall j :: k + 1 <= j < k + n ==> s[j] == s[k + 1..k + n][j - k - 1];
      n
  }

  /** The greedy run is exactly `m` long when `m` digits are followed by the end of
      the string or a non-digit. */
  lemma {:induction false} DigitRunExact(s: string, k: nat, m: nat)
    requires k + m <= |s|
    requires AllDigits(s[k..k + m])
    requires k + m == |s| || !IsDigit(s[k + m])
    ensures DigitRun(s, k) == m
    decreases m
  {
    if m > 0 {
      assert IsDigit(s[k..k + m][0]);
      assert s[k + 1..k + m] == s[k..k + m][1..];
      DigitRunExact(s, k + 1, m - 1);
    }
  }

  // ---------------------------------------------------------------------------
  // Default string order

  /** `a` sorts no later than `b` under `Array.prototype.sort` without a comparator:
      lexicographic on characters, a proper prefix first. */
  predicate StrLe(a: string, b: string) {
    |a| == 0 || (|b| > 0 && (a[0] < b[0] || (a[0] == b[0] && StrLe(a[1..], b[1..]))))
  }

  lemma {:induction false} StrLeTotal(a: string, b: string)
    ensures StrLe(a, b) || StrLe(b, a)
  {
    if |a| > 0 && |b| > 0 && a[0] == b[0] {
      StrLeTotal(a[1..], b[1..]);
    }
  }

  lemma {:induction false} StrLeTransitive(a: string, b: string, c: string)
    requires StrLe(a, b) && StrLe(b, c)
    ensures StrLe(a, c)
  {
    if |a| > 0 && a[0] == b[0] && b[0] == c[0] {
      StrLeTransitive(a[1..], b[1..], c[1..]);
    }
  }

  lemma {:induction false} StrLeAntisymmetric(a: string, b: string)
    requires StrLe(a, b) && StrLe(b, a)
    ensures a == b
  {
    if |a| > 0 {
      StrLeAntisymmetric(a[1..], b[1..]);
      assert a == [a[0]] + a[1..];
      assert b == [b[0]] + b[1..];
    }
  }

  // ---------------------------------------------------------------------------
  // Leftmost occurrence and `replace`

  predicate OccursAt(s: string, pat: string, i: nat) {
    i + |pat| <= |s| && s[i..i + |pat|] == pat
  }

  /** The leftmost occurrence of `pat` in `s` at or after index `i`. */
  function FindFrom(s: string, pat: string, i: nat): (r: Option<nat>)
    requires i <= |s|
    ensures r.Some? ==> i <= r.value && OccursAt(s, pat, r.value)
    ensures r.Some? ==> forall j: nat :: i <= j < r.value ==> !OccursAt(s, pat, j)
    ensures r.None? ==> forall j: nat :: i <= j ==> !OccursAt(s, pat, j)
    decreases |s| - i
  {
    if OccursAt(s, pat, i) then Some(i)
    else if i == |s| then None
    else FindFrom(s, pat, i + 1)
  }

  /** `s.replace(pat, rep)` with a string pattern: the leftmost occurrence of `pat`
      is replaced by `rep`; without an occurrence `s` is returned as it is. `rep` is
      inserted literally, which agrees with JavaScript for a `rep` without `$`
      (the app's only replacement text is "512x512"). */
  function ReplaceFirst(s: string, pat: string, rep: string): (r: string)
    ensures (forall j: nat :: !OccursAt(s, pat, j)) ==> r == s
    ensures forall i: nat :: OccursAt(s, pat, i) && (forall j: nat :: j < i ==> !OccursAt(s, pat, j))
                             ==> r == s[..i] + rep + s[i + |pat|..]
  {
    match FindFrom(s, pat, 0)
    case None => s
    case Some(i) => s[..i] + rep + s[i + |pat|..]
  }
}

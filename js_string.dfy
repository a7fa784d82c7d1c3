/** The JavaScript string built-ins the reminder core relies on, with the
    edge cases of the language standard written out: `trim`, the ASCII-only
    case folding of a regular expression with the `i` flag and without the
    `u` flag, `substring` with clamped indices, `indexOf`/`replace` with a
    string pattern, and `Number.prototype.toString` on non-negative integers.
    A JavaScript string is a sequence of UTF-16 code units; here it is a
    `string`, and every character the core compares is in the Basic
    Multilingual Plane. */
module JsString {

  /** The characters `String.prototype.trim` removes: WhiteSpace (TAB, VT, FF,
      SP, NBSP, ZWNBSP and the category Zs) and LineTerminator (LF, CR, LS, PS). */
  predicate IsSpace(c: char) {
    var n := c as int;
    n == 0x09 || n == 0x0A || n == 0x0B || n == 0x0C || n == 0x0D || n == 0x20
    || n == 0xA0 || n == 0x1680 || (0x2000 <= n <= 0x200A)
    || n == 0x2028 || n == 0x2029 || n == 0x202F || n == 0x205F
    || n == 0x3000 || n == 0xFEFF
  }

  predicate AllSpace(s: string) {
    forall i :: 0 <= i < |s| ==> IsSpace(s[i])
  }

  /** A string `trim` leaves as it is: empty, or with no white space at either end. */
  predicate IsTrimmed(s: string) {
    s == [] || (!IsSpace(s[0]) && !IsSpace(s[|s| - 1]))
  }

  /** The first position at or after `from` that does not hold white space
      (`|s|` when there is none). */
  function SkipSpace(s: string, from: nat): (k: nat)
    requires from <= |s|
    decreases |s| - from
    ensures from <= k <= |s|
    ensures forall i :: from <= i < k ==> IsSpace(s[i])
    ensures k < |s| ==> !IsSpace(s[k])
  {
    if from == |s| || !IsSpace(s[from]) then from else SkipSpace(s, from + 1)
  }

  /** The position just after the last character before `to` that is not white
      space (0 when there is none). */
  function SkipSpaceBack(s: string, to: nat): (k: nat)
    requires to <= |s|
    ensures k <= to
    ensures forall i :: k <= i < to ==> IsSpace(s[i])
    ensures k > 0 ==> !IsSpace(s[k - 1])
  {
    if to == 0 || !IsSpace(s[to - 1]) then to else SkipSpaceBack(s, to - 1)
  }

  /** `String.prototype.trim`: what is left once white space is removed from
      both ends; TrimSlice says where in `s` it lies. */
  function Trim(s: string): (r: string)
    ensures IsTrimmed(r)
    ensures r == [] <==> AllSpace(s)
  {
    var a := SkipSpace(s, 0);
    var b := SkipSpaceBack(s, |s|);
    if a < b then s[a..b] else []
  }

  /** The trimmed string is the slice of `s` at offset `a`, with only white
      space on either side of it. */
  lemma TrimSlice(s: string) returns (a: nat)
    ensures OccursAt(s, Trim(s), a)
    ensures AllSpace(s[..a]) && AllSpace(s[a + |Trim(s)|..])
  {
    a := SkipSpace(s, 0);
    var b := SkipSpaceBack(s, |s|);
    if a >= b {
      a := 0;
      assert AllSpace(s);
      assert s[|Trim(s)|..] == s;
    } else {
      assert s[a + |Trim(s)|..] == s[b..];
    }
  }

  /** The trimmed `s.substring(0, end)` is a slice of `s` ending at or before `end`. */
  lemma TrimBeforeSlice(s: string, end: nat) returns (a: nat)
    ensures var m := Trim(Before(s, end));
            OccursAt(s, m, a) && a + |m| <= end
  {
    var before := Before(s, end);
    a := TrimSlice(before);
    var m := Trim(before);
    assert m == before[a..a + |m|];
  }

  /** The trimmed `s.substring(start)` is a slice of `s` beginning at or after `start`. */
  lemma TrimAfterSlice(s: string, start: nat) returns (a: nat)
    requires start <= |s|
    ensures var m := Trim(After(s, start));
            OccursAt(s, m, a) && start <= a
  {
    var after := After(s, start);
    assert after == s[start..];
    var b := TrimSlice(after);
    var m := Trim(after);
    assert m == after[b..b + |m|];
    a := start + b;
  }

  /** Trimming a trimmed string changes nothing, and nothing else is left unchanged. */
  lemma TrimFixed(s: string)
    ensures Trim(s) == s <==> IsTrimmed(s)
  {
    if IsTrimmed(s) && s != [] {
      assert SkipSpace(s, 0) == 0;
      assert SkipSpaceBack(s, |s|) == |s|;
    }
  }

  /** One trailing space goes, and a trimmed string is what is left. */
  lemma TrimOneSpace(s: string)
    requires s != [] && IsTrimmed(s)
    ensures Trim(s + " ") == s
  {
    var t := s + " ";
    assert SkipSpace(t, 0) == 0;
    assert SkipSpaceBack(t, |s|) == |s|;
    assert SkipSpaceBack(t, |t|) == |s|;
    assert t[..|s|] == s;
  }

  /** The lower-case form of an ASCII letter; every other character is its own
      form. Without the `u` flag, the `i` flag canonicalises with toUpperCase
      but never maps a non-ASCII character onto an ASCII one, so for an ASCII
      pattern this folding decides the same matches. */
  function FoldAscii(c: char): char {
    if 'A' <= c <= 'Z' then (c as int + 32) as char else c
  }

  /** `s` begins with `pattern`, letters compared without regard to ASCII case
      (an anchored `^pattern` regular expression with the `i` flag). */
  predicate StartsWithIgnoringCase(s: string, pattern: string) {
    |pattern| <= |s| && forall i :: 0 <= i < |pattern| ==> FoldAscii(s[i]) == FoldAscii(pattern[i])
  }

  function Min(a: int, b: int): int {
    if a <= b then a else b
  }

  /** `s.substring(0, end)` for a non-negative `end`: the index is clamped to the length. */
  function Before(s: string, end: nat): (r: string)
    ensures |r| <= |s| && r == s[..|r|]
    ensures end <= |s| ==> |r| == end
    ensures |s| <= end ==> r == s
  {
    s[..Min(end, |s|)]
  }

  /** `s.substring(start)` for a non-negative `start`: the index is clamped to the length. */
  function After(s: string, start: nat): (r: string)
    ensures |r| <= |s| && r == s[|s| - |r|..]
    ensures start <= |s| ==> |r| == |s| - start
    ensures |s| <= start ==> r == []
  {
    s[Min(start, |s|)..]
  }

  predicate OccursAt(s: string, pattern: string, k: nat) {
    k + |pattern| <= |s| && s[k..k + |pattern|] == pattern
  }

  /** An occurrence in a suffix of `s` is an occurrence in `s`, shifted by
      where the suffix starts. */
  lemma OccursInSuffix(s: string, k: nat, x: string, b: nat)
    requires k <= |s| && OccursAt(s[k..], x, b)
    ensures OccursAt(s, x, k + b)
  {
    assert s[k..][b..b + |x|] == s[k + b..k + b + |x|];
  }

  /** The trimmed suffix of `s` from `k` on is a slice of `s`. */
  lemma TrimSuffixSlice(s: string, k: nat) returns (a: nat)
    requires k <= |s|
    ensures OccursAt(s, Trim(s[k..]), a)
  {
    var b := TrimSlice(s[k..]);
    OccursInSuffix(s, k, Trim(s[k..]), b);
    a := k + b;
  }

  /** `s.indexOf(pattern, from)` for a `from` within the string (`replace`
      searches from 0): the least position at or after `from` where `pattern`
      occurs, or -1. JavaScript clamps a `from` beyond the end to the length,
      which this function does not. */
  function IndexOfFrom(s: string, pattern: string, from: nat): (k: int)
    decreases |s| - from
    ensures k == -1 || (from <= k && OccursAt(s, pattern, k))
    ensures forall j: nat :: from <= j && (k == -1 || j < k) ==> !OccursAt(s, pattern, j)
  {
    if from + |pattern| > |s| then -1
    else if s[from..from + |pattern|] == pattern then from
    else IndexOfFrom(s, pattern, from + 1)
  }

  function IndexOf(s: string, pattern: string): int {
    IndexOfFrom(s, pattern, 0)
  }

  /** `s.replace(pattern, '')` with a string pattern: the first occurrence is
      cut out; without one the string is returned unchanged. */
  function ReplaceFirst(s: string, pattern: string): (r: string)
    ensures |r| == |s| || |r| == |s| - |pattern|
    ensures |r| < |s| ==> IndexOf(s, pattern) >= 0
  {
    var k := IndexOf(s, pattern);
    if k < 0 then s else s[..k] + s[k + |pattern|..]
  }

  /** Without an occurrence `replace` changes nothing; with one, exactly the
      leftmost occurrence is cut out. */
  lemma ReplaceFirstCutsLeftmost(s: string, pattern: string)
    ensures IndexOf(s, pattern) == -1 ==> ReplaceFirst(s, pattern) == s
    ensures IndexOf(s, pattern) >= 0 ==>
              var k := IndexOf(s, pattern);
              OccursAt(s, pattern, k) && ReplaceFirst(s, pattern) == s[..k] + s[k + |pattern|..]
              && forall j: nat :: j < k ==> !OccursAt(s, pattern, j)
  {
  }

  /** Cutting a string out of itself leaves nothing, and trimming nothing leaves nothing. */
  lemma ReplaceWhole(s: string)
    ensures Trim(ReplaceFirst(s, s)) == []
  {
    assert OccursAt(s, s, 0);
    assert AllSpace([]);
  }

  predicate IsDigits(s: string) {
    forall i :: 0 <= i < |s| ==> '0' <= s[i] <= '9'
  }

  function DigitChar(d: nat): char
    requires d < 10
  {
    ('0' as int + d) as char
  }

  /** `Number.prototype.toString` on a non-negative integer below 10^21 (the
      id counter stays far below that, and below 2^53, where every integer is
      exact): its decimal digits, without leading zeros. */
  function DecimalString(n: nat): (s: string)
    ensures s != [] && IsDigits(s)
    ensures s[0] == '0' ==> n == 0
  {
    if n < 10 then [DigitChar(n)] else DecimalString(n / 10) + [DigitChar(n % 10)]
  }

  /** The number a string of decimal digits denotes. */
  function DecimalValue(s: string): nat
    requires IsDigits(s)
  {
    if s == [] then 0 else 10 * DecimalValue(s[..|s| - 1]) + (s[|s| - 1] as int - '0' as int)
  }

  /** Reading back the decimal form of a number gives the number. */
  lemma {:induction false} DecimalRoundTrip(n: nat)
    ensures DecimalValue(DecimalString(n)) == n
  {
    if n >= 10 {
      DecimalRoundTrip(n / 10);
      var s := DecimalString(n);
      assert s[..|s| - 1] == DecimalString(n / 10);
    }
  }

  /** Distinct numbers have distinct decimal forms. */
  lemma DecimalStringInjective(m: nat, n: nat)
    ensures DecimalString(m) == DecimalString(n) <==> m == n
  {
    DecimalRoundTrip(m);
    DecimalRoundTrip(n);
  }
}

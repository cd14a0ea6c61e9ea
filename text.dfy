/**
 * The string operations the scorers apply to words: Python's `str.lower`,
 * `str.strip` and `str.isalpha`, restricted to what the lexicons hold
 * (lower-casing and letters are the ASCII ones; whitespace is Python's full set).
 */
module Text {

  predicate IsUpper(c: char) { 'A' <= c <= 'Z' }

  predicate IsLetter(c: char) { 'a' <= c <= 'z' || 'A' <= c <= 'Z' }

  /** The characters Python's `str.strip()` removes when given no argument. */
  predicate IsSpace(c: char)
  {
    var n := c as int;
    (9 <= n <= 13) || (28 <= n <= 32) || n == 0x85 || n == 0xA0 || n == 0x1680
    || (0x2000 <= n <= 0x200A) || n == 0x2028 || n == 0x2029 || n == 0x202F
    || n == 0x205F || n == 0x3000
  }

  function LowerChar(c: char): (d: char)
    ensures !IsUpper(d)
    ensures IsUpper(c) ==> d as int == c as int + 32
    ensures !IsUpper(c) ==> d == c
  {
    if IsUpper(c) then (c as int + 32) as char else c
  }

  /** `s.lower()`: every upper-case letter replaced by its lower-case partner, nothing else touched. */
  function Lower(s: string): (r: string)
    ensures |r| == |s|
    ensures forall i {:trigger r[i]} :: 0 <= i < |r| ==> !IsUpper(r[i])
    ensures forall i {:trigger r[i]} :: 0 <= i < |r| && !IsUpper(s[i]) ==> r[i] == s[i]
    ensures forall i {:trigger r[i]} :: 0 <= i < |r| && IsUpper(s[i]) ==> r[i] as int == s[i] as int + 32
  {
    if s == [] then [] else [LowerChar(s[0])] + Lower(s[1..])
  }

  /** The number of whitespace characters at the start of `s`. */
  function LeadingSpaces(s: string): (k: nat)
    ensures k <= |s|
    ensures forall i :: 0 <= i < k ==> IsSpace(s[i])
    ensures k < |s| ==> !IsSpace(s[k])
  {
    if |s| > 0 && IsSpace(s[0]) then 1 + LeadingSpaces(s[1..]) else 0
  }

  /** The number of whitespace characters at the end of `s`. */
  function TrailingSpaces(s: string): (k: nat)
    ensures k <= |s|
    ensures forall i :: |s| - k <= i < |s| ==> IsSpace(s[i])
    ensures k < |s| ==> !IsSpace(s[|s| - k - 1])
  {
    if |s| > 0 && IsSpace(s[|s| - 1]) then 1 + TrailingSpaces(s[..|s| - 1]) else 0
  }

  /** `s.strip()`: `s` without its leading and trailing whitespace. */
  function Strip(s: string): string
  {
    var a := LeadingSpaces(s);
    var t := s[a..];
    s[a..a + |t| - TrailingSpaces(t)]
  }

  /**
   * The stripped text is the longest middle part of `s` that neither starts
   * nor ends with whitespace: only whitespace is cut away, from both ends.
   */
  lemma StripTrims(s: string)
    ensures exists a, b ::
              && 0 <= a <= b <= |s| && Strip(s) == s[a..b]
              && (forall i :: 0 <= i < a ==> IsSpace(s[i]))
              && (forall i :: b <= i < |s| ==> IsSpace(s[i]))
    ensures Strip(s) != [] ==> !IsSpace(Strip(s)[0]) && !IsSpace(Strip(s)[|Strip(s)| - 1])
  {
    var a := LeadingSpaces(s);
    var t := s[a..];
    var b := a + |t| - TrailingSpaces(t);
    assert Strip(s) == s[a..b];
    assert forall i :: b <= i < |s| ==> s[i] == t[i - a];
  }

  /** `t.isalpha()`: non-empty and made of letters only. */
  predicate IsAlpha(t: string)
  {
    |t| > 0 && forall i :: 0 <= i < |t| ==> IsLetter(t[i])
  }
}

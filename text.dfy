/**
 * Character classes and the few string operations of .NET that the core relies on:
 * `Trim`, ordinal case-insensitive `Contains`, and the first `\d+` run of a text.
 * Classes are ASCII; see README for what that leaves out.
 */
module Text {

  predicate IsAsciiDigit(c: char) { '0' <= c <= '9' }
  predicate IsAsciiUpper(c: char) { 'A' <= c <= 'Z' }
  predicate IsAsciiLower(c: char) { 'a' <= c <= 'z' }
  predicate IsAsciiAlnum(c: char) { IsAsciiDigit(c) || IsAsciiUpper(c) || IsAsciiLower(c) }

  /** The whitespace that `String.Trim()` removes, restricted to ASCII. */
  predicate IsSpace(c: char) {
    c == ' ' || c == '\t' || c == '\n' || c == '\r' || c == '\U{000B}' || c == '\U{000C}'
  }

  predicate AllSpace(s: string) { forall k :: 0 <= k < |s| ==> IsSpace(s[k]) }

  /** No leading and no trailing whitespace. */
  predicate IsTrimmed(s: string) { s == [] || (!IsSpace(s[0]) && !IsSpace(s[|s| - 1])) }

  function TrimStart(s: string): (r: string)
    ensures |r| <= |s| && r == s[|s| - |r|..]
    ensures AllSpace(s[..|s| - |r|])
    ensures r == [] || !IsSpace(r[0])
  {
    if s != [] && IsSpace(s[0]) then TrimStart(s[1..]) else s
  }

  function TrimEnd(s: string): (r: string)
    ensures |r| <= |s| && r == s[..|r|]
    ensures AllSpace(s[|r|..])
    ensures r == [] || !IsSpace(r[|r| - 1])
  {
    if s != [] && IsSpace(s[|s| - 1]) then TrimEnd(s[..|s| - 1]) else s
  }

  /** `String.Trim()`: the result is the part of `s` left after removing whitespace at both ends. */
  function Trim(s: string): (r: string)
    ensures IsTrimmed(r)
    ensures exists a :: 0 <= a <= |s| - |r| && r == s[a..a + |r|] && AllSpace(s[..a]) && AllSpace(s[a + |r|..])
  {
    var t := TrimStart(s);
    var r := TrimEnd(t);
    var a := |s| - |t|;
    assert r == s[a..a + |r|];
    assert s[a + |r|..] == t[|r|..];
    r
  }

  /** Upper-casing used by `StringComparison.OrdinalIgnoreCase`: ASCII letters and the Turkish `ş`. */
  function FoldChar(c: char): char {
    if IsAsciiLower(c) then (c as int - 32) as char
    else if c == 'ş' then 'Ş'
    else c
  }

  function Fold(s: string): (r: string)
    ensures |r| == |s| && forall k :: 0 <= k < |s| ==> r[k] == FoldChar(s[k])
  {
    seq(|s|, k requires 0 <= k < |s| => FoldChar(s[k]))
  }

  /** `p` occurs in `s` at position `i`. */
  ghost predicate OccursAt(s: string, p: string, i: int) {
    0 <= i && i + |p| <= |s| && s[i..i + |p|] == p
  }

  /** Whether `p` occurs in `s` at position `i` or later. */
  function ContainsFrom(s: string, p: string, i: nat): (b: bool)
    requires i <= |s|
    ensures b <==> exists j :: i <= j && OccursAt(s, p, j)
    decreases |s| - i
  {
    if i + |p| > |s| then false
    else if s[i..i + |p|] == p then assert OccursAt(s, p, i); true
    else ContainsFrom(s, p, i + 1)
  }

  /** The window of `s` at `i` equals `p` once both are folded. */
  ghost predicate OccursFoldedAt(s: string, p: string, i: int) {
    0 <= i && i + |p| <= |s| && Fold(s[i..i + |p|]) == Fold(p)
  }

  /**
   * `s.Contains(p, StringComparison.OrdinalIgnoreCase)`: some window of `s` of the length
   * of `p` equals `p` once both are folded.
   */
  ghost predicate OccursIgnoringCase(s: string, p: string) {
    exists i :: OccursFoldedAt(s, p, i)
  }

  function ContainsIgnoringCase(s: string, p: string): (b: bool)
    ensures b <==> OccursIgnoringCase(s, p)
  {
    FoldCommutesWithWindows(s, p);
    ContainsFrom(Fold(s), Fold(p), 0)
  }

  lemma FoldCommutesWithWindows(s: string, p: string)
    ensures forall i :: OccursAt(Fold(s), Fold(p), i) <==> OccursFoldedAt(s, p, i)
  {
    forall i | 0 <= i && i + |p| <= |s|
      ensures OccursAt(Fold(s), Fold(p), i) <==> OccursFoldedAt(s, p, i)
    {
      var w := s[i..i + |p|];
      assert forall k :: 0 <= k < |p| ==> Fold(s)[i..i + |p|][k] == Fold(w)[k];
      assert Fold(s)[i..i + |p|] == Fold(w);
    }
  }

  /** Index of the first ASCII digit of `s`, or `|s|` when there is none. */
  function FirstDigitIndex(s: string): (i: nat)
    ensures i <= |s|
    ensures forall k :: 0 <= k < i ==> !IsAsciiDigit(s[k])
    ensures i < |s| ==> IsAsciiDigit(s[i])
  {
    if s == [] then 0
    else if IsAsciiDigit(s[0]) then 0
    else 1 + FirstDigitIndex(s[1..])
  }

  /** The longest prefix of `s` made of ASCII digits. */
  function LeadingDigits(s: string): (r: string)
    ensures r <= s
    ensures forall k :: 0 <= k < |r| ==> IsAsciiDigit(r[k])
    ensures |r| == |s| || !IsAsciiDigit(s[|r|])
  {
    if s != [] && IsAsciiDigit(s[0]) then [s[0]] + LeadingDigits(s[1..]) else []
  }

  /**
   * `Regex.Match(s, @"\d+").Value`: the leftmost maximal run of digits, or "" when `s`
   * holds no digit.
   */
  function FirstDigitRun(s: string): (r: string)
    ensures forall k :: 0 <= k < |r| ==> IsAsciiDigit(r[k])
    ensures r == [] <==> forall k :: 0 <= k < |s| ==> !IsAsciiDigit(s[k])
    ensures var i := FirstDigitIndex(s);
      && i + |r| <= |s| && r == s[i..i + |r|]
      && (i + |r| == |s| || !IsAsciiDigit(s[i + |r|]))
  {
    var i := FirstDigitIndex(s);
    var r := LeadingDigits(s[i..]);
    assert r == s[i..i + |r|];
    r
  }
}

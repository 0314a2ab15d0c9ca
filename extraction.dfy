/**
 * Tracking-number extraction from the content of a ticket's detail page.
 * Each carrier format is a fixed-length regular expression built from character classes,
 * so `Regex.Matches` reduces to a left-to-right scan that, at each position, either
 * matches a whole window (and resumes after it) or moves one character on.
 */
module Extraction {
  import opened Text
  import opened Wrappers

  datatype CharClass =
    | Exactly(c: char)        // a literal character
    | Either(a: char, b: char) // `[Zz]`
    | Digit                   // `\d`
    | Upper                   // `[A-Z]`
    | Alnum                   // `[0-9A-Za-z]`

  predicate InClass(c: char, k: CharClass) {
    match k
    case Exactly(x) => c == x
    case Either(x, y) => c == x || c == y
    case Digit => IsAsciiDigit(c)
    case Upper => IsAsciiUpper(c)
    case Alnum => IsAsciiAlnum(c)
  }

  /** A fixed-length pattern: one class per character. */
  type Pattern = p: seq<CharClass> | |p| > 0 witness [Digit]

  /** UPS: `1[Zz][0-9A-Za-z]{16}`. */
  const Ups: Pattern := [Exactly('1'), Either('Z', 'z'),
                         Alnum, Alnum, Alnum, Alnum, Alnum, Alnum, Alnum, Alnum,
                         Alnum, Alnum, Alnum, Alnum, Alnum, Alnum, Alnum, Alnum]
  /** Aras: `[A-Z]{2}\d{9}`. */
  const Aras: Pattern := [Upper, Upper, Digit, Digit, Digit, Digit, Digit, Digit, Digit, Digit, Digit]
  /** Yurtiçi: `\d{13}`. */
  const Yurtici: Pattern := [Digit, Digit, Digit, Digit, Digit, Digit, Digit, Digit, Digit, Digit, Digit, Digit, Digit]
  /** MNG: `MNG\d{10}`. */
  const Mng: Pattern := [Exactly('M'), Exactly('N'), Exactly('G'),
                         Digit, Digit, Digit, Digit, Digit, Digit, Digit, Digit, Digit, Digit]

  /** The window of `s` that starts at `i` matches `p`. */
  predicate FitsAt(s: string, i: nat, p: Pattern) {
    i + |p| <= |s| && forall k :: 0 <= k < |p| ==> InClass(s[i + k], p[k])
  }

  /** Some window of `s` matches `p`. */
  ghost predicate AnyFit(s: string, p: Pattern) {
    exists j: nat :: FitsAt(s, j, p)
  }

  /** Every position in `ms` is `i` or later and starts a matching window. */
  ghost predicate AllFit(s: string, p: Pattern, ms: seq<nat>, i: nat) {
    forall a :: 0 <= a < |ms| ==> i <= ms[a] && FitsAt(s, ms[a], p)
  }

  /** The positions increase by at least `n` from one to the next: windows of length `n` do not overlap. */
  ghost predicate Separated(ms: seq<nat>, n: nat) {
    forall a :: 0 <= a < |ms| - 1 ==> ms[a] + n <= ms[a + 1]
  }

  /**
   * Start positions of `Regex.Matches(s, p)` from position `i` on: every reported match
   * is a matching window at or after `i`, in increasing order, without overlap.
   */
  function MatchesFrom(s: string, p: Pattern, i: nat): (ms: seq<nat>)
    requires i <= |s|
    ensures AllFit(s, p, ms, i) && Separated(ms, |p|)
    decreases |s| - i
  {
    if i + |p| > |s| then []
    else if FitsAt(s, i, p) then
      var rest := MatchesFrom(s, p, i + |p|);
      assert forall a :: 1 <= a < |[i] + rest| ==> ([i] + rest)[a] == rest[a - 1];
      [i] + rest
    else MatchesFrom(s, p, i + 1)
  }

  /** `Regex.Matches(s, p)`: the start positions of the non-overlapping matches, left to right. */
  function Matches(s: string, p: Pattern): (ms: seq<nat>)
    ensures AllFit(s, p, ms, 0) && Separated(ms, |p|)
  {
    MatchesFrom(s, p, 0)
  }

  /** Every matching window at or after `i` overlaps, from the left, a reported match. */
  lemma {:induction false} MatchesFromComplete(s: string, p: Pattern, i: nat, j: nat)
    requires i <= |s| && i <= j
    ensures FitsAt(s, j, p) ==>
      exists a :: 0 <= a < |MatchesFrom(s, p, i)| && MatchesFrom(s, p, i)[a] <= j < MatchesFrom(s, p, i)[a] + |p|
    decreases |s| - i
  {
    var ms := MatchesFrom(s, p, i);
    if i + |p| > |s| {
    } else if FitsAt(s, i, p) {
      var rest := MatchesFrom(s, p, i + |p|);
      assert ms == [i] + rest;
      if j < i + |p| {
        assert ms[0] <= j < ms[0] + |p|;
      } else {
        MatchesFromComplete(s, p, i + |p|, j);
        if FitsAt(s, j, p) {
          var a :| 0 <= a < |rest| && rest[a] <= j < rest[a] + |p|;
          assert ms[a + 1] == rest[a];
        }
      }
    } else if j > i {
      MatchesFromComplete(s, p, i + 1, j);
    }
  }

  /** The last match is the greatest reported position. */
  lemma LastIsGreatest(ms: seq<nat>, n: nat)
    requires Separated(ms, n) && ms != []
    ensures forall a :: 0 <= a < |ms| ==> ms[a] <= ms[|ms| - 1]
  {
    forall a | 0 <= a < |ms| ensures ms[a] <= ms[|ms| - 1] {
      MonotoneMatches(ms, n, a, |ms| - 1);
    }
  }

  /**
   * Start of the last element of `Regex.Matches(s, p)`. It is a match, and no matching
   * window starts after its end; there is none exactly when no window of `s` matches.
   */
  function LastMatchAt(s: string, p: Pattern): (r: Option<nat>)
    ensures r.None? <==> !AnyFit(s, p)
    ensures r.Some? ==> var ms := Matches(s, p);
      && ms != [] && r.value == ms[|ms| - 1]
      && FitsAt(s, r.value, p)
      && forall j :: r.value + |p| <= j ==> !FitsAt(s, j, p)
  {
    var ms := Matches(s, p);
    LastMatchFacts(s, p);
    assert ms != [] ==> FitsAt(s, ms[|ms| - 1], p);
    if ms == [] then None else Some(ms[|ms| - 1])
  }

  lemma LastMatchFacts(s: string, p: Pattern)
    ensures var ms := Matches(s, p);
      && (ms == [] <==> !AnyFit(s, p))
      && (ms != [] ==> forall j :: ms[|ms| - 1] + |p| <= j ==> !FitsAt(s, j, p))
  {
    var ms := Matches(s, p);
    forall j: nat ensures FitsAt(s, j, p) ==> exists a :: 0 <= a < |ms| && ms[a] <= j < ms[a] + |p| {
      MatchesFromComplete(s, p, 0, j);
    }
    if ms != [] {
      assert FitsAt(s, ms[0], p);
      LastIsGreatest(ms, |p|);
    }
  }

  lemma {:induction false} MonotoneMatches(ms: seq<nat>, n: nat, a: nat, b: nat)
    requires Separated(ms, n)
    requires a <= b < |ms|
    ensures ms[a] <= ms[b]
    decreases b - a
  {
    if a < b {
      MonotoneMatches(ms, n, a + 1, b);
    }
  }

  /** `matches.Count > 0 ? matches[matches.Count - 1].Value : ""`; empty exactly when nothing matches. */
  function LastMatchValue(s: string, p: Pattern): (r: string)
    ensures r == "" <==> !AnyFit(s, p)
    ensures r != "" ==> |r| == |p|
  {
    match LastMatchAt(s, p)
    case None => ""
    case Some(k) => s[k..k + |p|]
  }

  /** `r` is the text of a window of `s` that matches `p`. */
  ghost predicate IsMatchOf(s: string, r: string, p: Pattern) {
    exists k: nat :: FitsAt(s, k, p) && r == s[k..k + |p|]
  }

  /**
   * The cascade of lines 434-471: each format is tried only while no number has been
   * found yet. A number found has the length of a UPS (18), Aras (11) or Yurtiçi and
   * MNG (13) number.
   */
  function ExtractTrackingNumber(content: string): (r: string)
    ensures r != "" ==> |r| == |Ups| || |r| == |Aras| || |r| == |Yurtici|
  {
    var ups := LastMatchValue(content, Ups);
    var aras := if ups == "" then LastMatchValue(content, Aras) else ups;
    var yurtici := if aras == "" then LastMatchValue(content, Yurtici) else aras;
    if yurtici == "" then LastMatchValue(content, Mng) else yurtici
  }

  /**
   * The formats are tried in the order UPS, Aras, Yurtiçi, MNG; the first one that matches
   * anywhere decides, with its last match; "" when none matches.
   */
  lemma ExtractionPrecedence(content: string)
    ensures var r := ExtractTrackingNumber(content);
      && (AnyFit(content, Ups) ==> r == LastMatchValue(content, Ups))
      && (!AnyFit(content, Ups) && AnyFit(content, Aras) ==> r == LastMatchValue(content, Aras))
      && (!AnyFit(content, Ups) && !AnyFit(content, Aras) && AnyFit(content, Yurtici) ==> r == LastMatchValue(content, Yurtici))
      && (!AnyFit(content, Ups) && !AnyFit(content, Aras) && !AnyFit(content, Yurtici) ==> r == LastMatchValue(content, Mng))
      && (r == "" <==> !AnyFit(content, Ups) && !AnyFit(content, Aras) && !AnyFit(content, Yurtici) && !AnyFit(content, Mng))
  {
  }

  /** Whenever the text holds an MNG number, it also holds an Aras-shaped code: the "NG" and the first nine digits. */
  lemma {:induction false} MngContainsAras(s: string)
    ensures AnyFit(s, Mng) ==> AnyFit(s, Aras)
  {
    if AnyFit(s, Mng) {
      var j: nat :| FitsAt(s, j, Mng);
      assert |Mng| == 13 && |Aras| == 11;
      forall k | 0 <= k < |Aras| ensures InClass(s[j + 1 + k], Aras[k]) {
        assert InClass(s[j + (k + 1)], Mng[k + 1]);
        if k < 2 {
          assert Aras[k] == Upper;
        } else {
          assert Aras[k] == Digit && Mng[k + 1] == Digit;
        }
      }
      assert FitsAt(s, j + 1, Aras);
    }
  }

  /**
   * The MNG format never decides the result: by the time it is tried, the Aras format has
   * failed, and then no MNG number can be present.
   */
  lemma MngBranchUnreachable(content: string)
    ensures LastMatchValue(content, Aras) == "" ==> LastMatchValue(content, Mng) == ""
    ensures ExtractTrackingNumber(content) == ""
      <==> !AnyFit(content, Ups) && !AnyFit(content, Aras) && !AnyFit(content, Yurtici)
  {
    MngContainsAras(content);
  }

  /** Consequently a ticket that quotes an MNG number yields "NG" and its first nine digits. */
  lemma MngNumberReadAsAras(d: string)
    requires |d| == 10 && forall k :: 0 <= k < 10 ==> IsAsciiDigit(d[k])
    ensures ExtractTrackingNumber("MNG" + d) == "NG" + d[..9]
  {
    var s := "MNG" + d;
    assert |s| == 13 && |Aras| == 11 && |Ups| == 18;
    assert !AnyFit(s, Ups);
    assert !FitsAt(s, 0, Aras) by { assert !InClass(s[0 + 2], Aras[2]); }
    assert FitsAt(s, 1, Aras);
    assert MatchesFrom(s, Aras, 12) == [];
    assert MatchesFrom(s, Aras, 1) == [1];
    assert Matches(s, Aras) == MatchesFrom(s, Aras, 1);
    assert s[1..12] == "NG" + d[..9];
  }

  /** A non-empty result is the text of a window that matches the UPS, Aras or Yurtiçi format. */
  lemma {:induction false} ExtractedIsMatch(content: string)
    ensures var r := ExtractTrackingNumber(content);
      r == "" || IsMatchOf(content, r, Ups) || IsMatchOf(content, r, Aras) || IsMatchOf(content, r, Yurtici)
  {
    MngBranchUnreachable(content);
    var r := ExtractTrackingNumber(content);
    if r == LastMatchValue(content, Ups) && r != "" {
      var k := LastMatchAt(content, Ups).value;
      assert FitsAt(content, k, Ups);
    } else if r == LastMatchValue(content, Aras) && r != "" {
      var k := LastMatchAt(content, Aras).value;
      assert FitsAt(content, k, Aras);
    } else if r == LastMatchValue(content, Yurtici) && r != "" {
      var k := LastMatchAt(content, Yurtici).value;
      assert FitsAt(content, k, Yurtici);
    }
  }
}

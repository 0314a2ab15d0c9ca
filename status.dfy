/**
 * Parsing of a carrier response in `CheckKargoStatuses`: the delivered/pending verdict,
 * and the clean-up of the estimated-delivery text (trim, remove every `<.*?>` span, trim).
 */
module StatusParser {
  import opened Wrappers
  import opened Text
  import opened Records

  const DeliveredPhrase := "Paketiniz teslim edilmiştir"

  /**
   * `s` holds no match of the regular expression `<.*?>`: between any `<` and any later
   * `>` there is a line break (`.` does not match `\n`).
   */
  ghost predicate NoTagSpan(s: string) {
    forall i, j :: 0 <= i < j < |s| && s[i] == '<' && s[j] == '>' ==> exists k :: i < k < j && s[k] == '\n'
  }

  /** No `>` of `t` can close a tag opened just before `t`. */
  ghost predicate NoCloseBeforeNewline(t: string) {
    forall j :: 0 <= j < |t| && t[j] == '>' ==> exists k :: 0 <= k < j && t[k] == '\n'
  }

  /**
   * Where the lazy `.*?>` ends when run on `t`: the index of the first `>`, provided no
   * line break comes first.
   */
  function TagEnd(t: string): (e: Option<nat>)
    ensures e.Some? ==> e.value < |t| && t[e.value] == '>' && forall k :: 0 <= k < e.value ==> t[k] != '\n'
    ensures e.None? ==> NoCloseBeforeNewline(t)
  {
    if t == [] then None
    else if t[0] == '>' then Some(0)
    else if t[0] == '\n' then None
    else match TagEnd(t[1..])
      case None =>
        assert forall j :: 0 < j < |t| ==> t[j] == t[1..][j - 1];
        None
      case Some(e) =>
        Some(e + 1)
  }

  /**
   * `Regex.Replace(s, "<.*?>", "")`, scanning left to right: it never lengthens the text,
   * and a text without `<` is left as it is.
   */
  function StripTags(s: string): (r: string)
    ensures |r| <= |s|
    ensures '<' !in s ==> r == s
    decreases |s|
  {
    if s == [] then []
    else if s[0] == '<' && TagEnd(s[1..]).Some? then StripTags(s[TagEnd(s[1..]).value + 2..])
    else [s[0]] + StripTags(s[1..])
  }

  /** A span with neither `>` nor a line break before its first `>` ends at that `>`. */
  lemma {:induction false} TagEndAtFirstClose(t: string, u: string)
    requires '>' !in t && '\n' !in t
    ensures TagEnd(t + ">" + u) == Some(|t|)
    decreases |t|
  {
    if t != [] {
      assert (t + ">" + u)[1..] == t[1..] + ">" + u;
      TagEndAtFirstClose(t[1..], u);
    }
  }

  /** A whole tag span `<t>` is removed, and the scan goes on right after its `>`. */
  lemma StripTagsDropsSpan(t: string, u: string)
    requires '>' !in t && '\n' !in t
    ensures StripTags("<" + t + ">" + u) == StripTags(u)
  {
    var s := "<" + t + ">" + u;
    assert s[1..] == t + ">" + u;
    TagEndAtFirstClose(t, u);
    assert s[|t| + 2..] == u;
  }

  /** Text before the first `<` is kept as it is. */
  lemma {:induction false} StripTagsKeepsPlain(a: string, u: string)
    requires '<' !in a
    ensures StripTags(a + u) == a + StripTags(u)
    decreases |a|
  {
    if a == [] {
      assert a + u == u;
    } else {
      var rest := a[1..] + u;
      calc {
        StripTags(a + u);
        { assert a + u == [a[0]] + rest; }
        StripTags([a[0]] + rest);
        { StripTagsCons(a[0], rest); }
        [a[0]] + StripTags(rest);
        { StripTagsKeepsPlain(a[1..], u); }
        [a[0]] + (a[1..] + StripTags(u));
        { assert a == [a[0]] + a[1..]; }
        a + StripTags(u);
      }
    }
  }

  /** A first character other than `<` is kept. */
  lemma StripTagsCons(c: char, v: string)
    requires c != '<'
    ensures StripTags([c] + v) == [c] + StripTags(v)
  {
    assert ([c] + v)[1..] == v;
  }

  /** Removing tags from a text that cannot close a tag leaves a text that cannot close one either. */
  lemma {:induction false} StripTagsKeepsNoClose(t: string)
    requires NoCloseBeforeNewline(t)
    ensures NoCloseBeforeNewline(StripTags(t))
    decreases |t|
  {
    if t != [] {
      var r := StripTags(t[1..]);
      if t[0] != '\n' {
        assert NoCloseBeforeNewline(t[1..]) by {
          forall j | 0 <= j < |t| - 1 && t[1..][j] == '>' ensures exists k :: 0 <= k < j && t[1..][k] == '\n' {
            assert t[j + 1] == '>';
            var k :| 0 <= k < j + 1 && t[k] == '\n';
            assert t[1..][k - 1] == '\n';
          }
        }
        StripTagsKeepsNoClose(t[1..]);
      }
      assert StripTags(t) == [t[0]] + r;
      ConsNoClose(t[0], r);
    }
  }

  lemma ConsNoClose(c: char, r: string)
    requires c != '>'
    requires c == '\n' || NoCloseBeforeNewline(r)
    ensures NoCloseBeforeNewline([c] + r)
  {
    var t := [c] + r;
    forall j | 0 <= j < |t| && t[j] == '>' ensures exists k :: 0 <= k < j && t[k] == '\n' {
      if c == '\n' {
        assert t[0] == '\n';
      } else {
        assert r[j - 1] == '>';
        var k :| 0 <= k < j - 1 && r[k] == '\n';
        assert t[k + 1] == '\n';
      }
    }
  }

  /** Prepending one character to a text without tag spans. */
  lemma ConsNoTagSpan(c: char, r: string)
    requires NoTagSpan(r)
    requires c == '<' ==> NoCloseBeforeNewline(r)
    ensures NoTagSpan([c] + r)
  {
    var t := [c] + r;
    forall i, j | 0 <= i < j < |t| && t[i] == '<' && t[j] == '>' ensures exists k :: i < k < j && t[k] == '\n' {
      assert r[j - 1] == '>';
      if i == 0 {
        var k :| 0 <= k < j - 1 && r[k] == '\n';
        assert t[k + 1] == '\n';
      } else {
        assert r[i - 1] == '<';
        var k :| i - 1 < k < j - 1 && r[k] == '\n';
        assert t[k + 1] == '\n';
      }
    }
  }

  /** After `Regex.Replace(s, "<.*?>", "")` no match of `<.*?>` is left. */
  lemma {:induction false} StripTagsNoTagSpan(s: string)
    ensures NoTagSpan(StripTags(s))
    decreases |s|
  {
    if s != [] {
      if s[0] == '<' && TagEnd(s[1..]).Some? {
        StripTagsNoTagSpan(s[TagEnd(s[1..]).value + 2..]);
      } else {
        StripTagsNoTagSpan(s[1..]);
        if s[0] == '<' {
          StripTagsKeepsNoClose(s[1..]);
        }
        ConsNoTagSpan(s[0], StripTags(s[1..]));
      }
    }
  }

  /** A contiguous part of a text without tag spans has none either. */
  lemma NoTagSpanSlice(s: string, a: nat, b: nat)
    requires a <= b <= |s| && NoTagSpan(s)
    ensures NoTagSpan(s[a..b])
  {
    var t := s[a..b];
    forall i, j | 0 <= i < j < |t| && t[i] == '<' && t[j] == '>' ensures exists k :: i < k < j && t[k] == '\n' {
      assert s[a + i] == '<' && s[a + j] == '>';
      var k :| a + i < k < a + j && s[k] == '\n';
      assert t[k - a] == '\n';
    }
  }

  /** A text without tag spans is left as it is. */
  lemma {:induction false} StripTagsIdentity(s: string)
    requires NoTagSpan(s)
    ensures StripTags(s) == s
    decreases |s|
  {
    if s != [] {
      if s[0] == '<' {
        assert NoCloseBeforeNewline(s[1..]) by {
          forall j | 0 <= j < |s| - 1 && s[1..][j] == '>' ensures exists k :: 0 <= k < j && s[1..][k] == '\n' {
            assert s[j + 1] == '>';
            var k :| 0 < k < j + 1 && s[k] == '\n';
            assert s[1..][k - 1] == '\n';
          }
        }
      }
      NoTagSpanSlice(s, 1, |s|);
      assert s[1..|s|] == s[1..];
      StripTagsIdentity(s[1..]);
    }
  }

  /**
   * The estimated-delivery text from the captured group: trimmed, every `<.*?>` span
   * removed, trimmed again. No tag span and no surrounding whitespace is left.
   */
  function CleanEstimate(group: string): (r: string)
    ensures NoTagSpan(r)
    ensures IsTrimmed(r)
  {
    var stripped := StripTags(Trim(group));
    StripTagsNoTagSpan(Trim(group));
    TrimKeepsNoTagSpan(stripped);
    Trim(stripped)
  }

  lemma TrimKeepsNoTagSpan(s: string)
    requires NoTagSpan(s)
    ensures NoTagSpan(Trim(s))
  {
    TrimStartKeepsNoTagSpan(s);
    TrimEndKeepsNoTagSpan(TrimStart(s));
    assert Trim(s) == TrimEnd(TrimStart(s));
  }

  /** Cutting leading white space keeps a text free of tag spans. */
  lemma TrimStartKeepsNoTagSpan(s: string)
    requires NoTagSpan(s)
    ensures NoTagSpan(TrimStart(s))
  {
    var t := TrimStart(s);
    NoTagSpanSuffix(s, t, |s| - |t|);
  }

  /** A suffix of a text free of tag spans is free of them too. */
  lemma NoTagSpanSuffix(s: string, t: string, a: nat)
    requires a <= |s| && t == s[a..] && NoTagSpan(s)
    ensures NoTagSpan(t)
  {
    NoTagSpanSlice(s, a, |s|);
    assert t == s[a..|s|];
  }

  /** Cutting trailing white space keeps a text free of tag spans. */
  lemma TrimEndKeepsNoTagSpan(t: string)
    requires NoTagSpan(t)
    ensures NoTagSpan(TrimEnd(t))
  {
    var r := TrimEnd(t);
    assert r == t[0..|r|];
    NoTagSpanSlice(t, 0, |r|);
  }

  /** Cleaning an already clean text changes nothing. */
  lemma CleanEstimateIdempotent(group: string)
    ensures CleanEstimate(CleanEstimate(group)) == CleanEstimate(group)
  {
    var r := CleanEstimate(group);
    assert Trim(r) == r;
    StripTagsIdentity(r);
  }

  /**
   * The delivery verdict: "Teslim Edildi" exactly when the body contains the confirmation
   * phrase in any letter case, and "Beklemede" otherwise.
   */
  function Classify(body: string): (status: string)
    ensures status == Delivered <==> OccursIgnoringCase(body, DeliveredPhrase)
    ensures status == Delivered || status == Pending
  {
    if ContainsIgnoringCase(body, DeliveredPhrase) then Delivered else Pending
  }

  /**
   * One record after its turn in `CheckKargoStatuses`. `response` is the carrier page, or
   * None when the request failed; `locate` stands for the labelled-span regular expression
   * and gives its captured group; `now` is the clock reading.
   */
  function PolledRecord(k: KargoData, response: Option<string>, locate: string -> Option<string>, now: Timestamp): (r: KargoData)
    ensures r.trackingNumber == k.trackingNumber
    ensures k.trackingNumber == "" || response.None? ==> r == k
  {
    if k.trackingNumber == "" then k
    else match response
      case None => k
      case Some(body) =>
        var estimated := match locate(body)
          case Some(group) => CleanEstimate(group)
          case None => k.estimatedDelivery;
        k.(estimatedDelivery := estimated, status := Classify(body), lastUpdated := now)
  }

  /**
   * An unnumbered record, or one whose request failed, is left as it is. Otherwise only
   * status, estimate and time stamp can change: the time stamp becomes `now`, the status is
   * "Teslim Edildi" exactly when the page contains the delivered phrase in any letter case
   * and "Beklemede" otherwise, and the estimate is kept when the labelled span is not found
   * and is otherwise the cleaned group, trimmed and free of tags.
   */
  lemma PolledRecordSpec(k: KargoData, response: Option<string>, locate: string -> Option<string>, now: Timestamp)
    ensures var r := PolledRecord(k, response, locate, now);
      && (k.trackingNumber == "" || response.None? ==> r == k)
      && r.storeId == k.storeId && r.requestId == k.requestId && r.requestSubject == k.requestSubject
      && (k.trackingNumber != "" && response.Some? ==>
        && r.lastUpdated == now
        && (r.status == Delivered || r.status == Pending)
        && (r.status == Delivered <==> OccursIgnoringCase(response.value, DeliveredPhrase))
        && (locate(response.value).None? ==> r.estimatedDelivery == k.estimatedDelivery)
        && (locate(response.value).Some? ==>
              && r.estimatedDelivery == CleanEstimate(locate(response.value).value)
              && NoTagSpan(r.estimatedDelivery) && IsTrimmed(r.estimatedDelivery)))
  {
  }
}

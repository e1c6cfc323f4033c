/** The pure part of handleShare: choosing the shared text among the query
    parameters, finding the first URL in it with the regular expression
    /(https?:\/\/[^\s]+)/, and composing the archive redirect. */
module Share {
  import opened Wrappers
  import opened JsString

  // ---------------------------------------------------------------------
  // Choosing the shared text
  // ---------------------------------------------------------------------

  /** A query parameter as URLSearchParams.get returns it: None is null. A
      JavaScript string is truthy exactly when it is non-empty. */
  predicate Truthy(v: Option<string>)
  {
    v.Some? && v.value != ""
  }

  /** The JavaScript operator a || b on values that are strings or null. */
  function Or(a: Option<string>, b: Option<string>): Option<string>
  {
    if Truthy(a) then a else b
  }

  /** params.get('text') || params.get('url') || params.get('title'): the
      first non-empty parameter in that order; when none is non-empty the
      value is falsy and no share is handled. */
  function SharedText(text: Option<string>, url: Option<string>, title: Option<string>): (r: Option<string>)
    ensures Truthy(r) <==> Truthy(text) || Truthy(url) || Truthy(title)
    ensures Truthy(text) ==> r == text
    ensures !Truthy(text) && Truthy(url) ==> r == url
    ensures !Truthy(text) && !Truthy(url) && Truthy(title) ==> r == title
  {
    Or(Or(text, url), title)
  }

  // ---------------------------------------------------------------------
  // The first URL in the text
  // ---------------------------------------------------------------------

  /** Length of the scheme the pattern https?:\/\/ matches at index i of s:
      8 for "https://", 7 for "http://", 0 when neither begins there. The
      two cannot both match, since "https://" has 's' where "http://" has
      ':', so backtracking over the optional 's' changes nothing. */
  function SchemeLength(s: string, i: nat): (n: nat)
    ensures n == 8 <==> i + 8 <= |s| && s[i..i + 8] == "https://"
    ensures n == 7 <==> i + 7 <= |s| && s[i..i + 7] == "http://"
    ensures n == 0 || n == 7 || n == 8
  {
    var secure := i + 8 <= |s| && s[i..i + 8] == "https://";
    var plain := i + 7 <= |s| && s[i..i + 7] == "http://";
    if secure then SchemesExclusive(s, i); 8 else if plain then 7 else 0
  }

  /** Where "https://" begins, "http://" does not. */
  lemma SchemesExclusive(s: string, i: nat)
    requires i + 8 <= |s| && s[i..i + 8] == "https://"
    ensures s[i..i + 7] != "http://"
  {
    assert s[i..i + 7][4] == s[i + 4] == s[i..i + 8][4];
  }

  /** The pattern matches at index i: a scheme begins there and is followed
      by at least one character that is not whitespace ([^\s]+ needs one). */
  predicate MatchesAt(s: string, i: nat)
  {
    var n := SchemeLength(s, i);
    n > 0 && i + n < |s| && !IsWs(s[i + n])
  }

  /** Where the greedy run [^\s]+ that starts at j stops: the first index at
      or after j that holds whitespace, or the end of s. */
  function RunEnd(s: string, j: nat): (e: nat)
    requires j <= |s|
    ensures j <= e <= |s|
    ensures forall k :: j <= k < e ==> !IsWs(s[k])
    ensures e == |s| || IsWs(s[e])
    decreases |s| - j
  {
    if j == |s| || IsWs(s[j]) then j else RunEnd(s, j + 1)
  }

  /** The run of non-whitespace characters is unique: any end with the two
      properties RunEnd promises is RunEnd. */
  lemma RunEndUnique(s: string, j: nat, e: nat)
    requires j <= e <= |s|
    requires forall k :: j <= k < e ==> !IsWs(s[k])
    requires e == |s| || IsWs(s[e])
    ensures RunEnd(s, j) == e
  {
  }

  /** Where a match lies in the text: s[start..end] is the matched URL. */
  datatype Match = Match(start: nat, end: nat)

  /** The leftmost match at or after index i, as the regular expression
      engine finds it by trying each start position in turn. */
  function FirstMatchFrom(s: string, i: nat): (m: Option<Match>)
    requires i <= |s|
    ensures m.None? ==> forall k :: i <= k < |s| ==> !MatchesAt(s, k)
    ensures m.Some? ==>
      i <= m.value.start && MatchesAt(s, m.value.start) &&
      (forall k :: i <= k < m.value.start ==> !MatchesAt(s, k)) &&
      m.value.end == RunEnd(s, m.value.start + SchemeLength(s, m.value.start))
    decreases |s| - i
  {
    if i == |s| then None
    else if MatchesAt(s, i) then Some(Match(i, RunEnd(s, i + SchemeLength(s, i))))
    else FirstMatchFrom(s, i + 1)
  }

  /** The scheme characters themselves are not whitespace. */
  lemma SchemeHasNoWs(s: string, i: nat)
    requires SchemeLength(s, i) > 0
    ensures forall k :: i <= k < i + SchemeLength(s, i) ==> !IsWs(s[k])
  {
    var n := SchemeLength(s, i);
    forall k | i <= k < i + n ensures !IsWs(s[k]) {
      assert s[k] == s[i..i + n][k - i];
    }
  }

  /** sharedText.match(urlRegex)[0], or None when match returns null: the
      text of the leftmost match. The result is a piece of s that begins with
      "http://" or "https://", holds no whitespace and is followed in s by
      whitespace or nothing; no match starts further left. */
  function FirstUrl(s: string): (r: Option<string>)
    ensures r.None? <==> forall k :: 0 <= k < |s| ==> !MatchesAt(s, k)
    ensures r.Some? ==>
      var m := FirstMatchFrom(s, 0).value;
      m.start < m.end <= |s| && r.value == s[m.start..m.end] &&
      IsUrl(r.value) && (StartsWith(r.value, "http://") || StartsWith(r.value, "https://")) &&
      (m.end == |s| || IsWs(s[m.end]))
  {
    match FirstMatchFrom(s, 0)
    case None => None
    case Some(m) =>
      MatchIsUrl(s, m.start, m.end);
      UrlScheme(s[m.start..m.end]);
      Some(s[m.start..m.end])
  }

  /** What the pattern can match: all of u, a scheme followed by at least
      one character, with no whitespace anywhere. */
  predicate IsUrl(u: string)
  {
    MatchesAt(u, 0) && NoWs(u)
  }

  /** The scheme seen at index b of s is the one at the start of any piece u
      of s that begins there and is at least as long as "https://". */
  lemma SchemeOfPiece(s: string, b: nat, u: string)
    requires b + |u| <= |s| && s[b..b + |u|] == u && |u| >= 8
    ensures SchemeLength(s, b) == SchemeLength(u, 0)
  {
  }

  /** A match spans a scheme and a non-empty run of non-whitespace
      characters. */
  lemma MatchIsUrl(s: string, b: nat, e: nat)
    requires MatchesAt(s, b) && b + SchemeLength(s, b) <= |s|
    requires e == RunEnd(s, b + SchemeLength(s, b))
    ensures b + SchemeLength(s, b) < e <= |s|
    ensures IsUrl(s[b..e])
  {
    var n := SchemeLength(s, b);
    var u := s[b..e];
    SchemeHasNoWs(s, b);
    assert NoWs(u) by {
      forall k | 0 <= k < |u| ensures !IsWs(u[k]) {
        assert u[k] == s[b + k];
      }
    }
    SchemeOfPiece(s, b, u);
    assert u[n] == s[b + n];
  }

  /** A string the pattern matches in full begins with "http://" or
      "https://" and has a character after the scheme. */
  lemma UrlScheme(u: string)
    requires IsUrl(u)
    ensures StartsWith(u, "http://") || StartsWith(u, "https://")
    ensures |u| > 7
  {
  }

  /** The reference description of the match: whenever b is the leftmost
      index at which the pattern matches and e ends the maximal run of
      non-whitespace after it, the first URL is exactly s[b..e]. */
  lemma FirstUrlIsLeftmostLongest(s: string, b: nat, e: nat)
    requires MatchesAt(s, b)
    requires forall k :: 0 <= k < b ==> !MatchesAt(s, k)
    requires b + SchemeLength(s, b) <= e <= |s|
    requires forall k :: b + SchemeLength(s, b) <= k < e ==> !IsWs(s[k])
    requires e == |s| || IsWs(s[e])
    ensures FirstUrl(s) == Some(s[b..e])
  {
    RunEndUnique(s, b + SchemeLength(s, b), e);
  }

  /** A shared message made of words without a ':' in them, then a URL,
      then whitespace and anything else (as in "Check this out
      https://share.google/abc123 thanks") yields exactly that URL. */
  lemma UrlAfterPlainWords(pre: string, u: string, post: string)
    requires forall k :: 0 <= k < |pre| ==> pre[k] != ':'
    requires IsUrl(u)
    requires post == [] || IsWs(post[0])
    ensures FirstUrl(pre + u + post) == Some(u)
  {
    var s := pre + u + post;
    var b := |pre|;
    var n := SchemeLength(u, 0);
    assert s[b..b + |u|] == u;
    SchemeOfPiece(s, b, u);
    assert u[..4] == "http" by {
      if n == 8 { assert u[..8][..4] == u[..4]; } else { assert u[..7][..4] == u[..4]; }
    }
    assert MatchesAt(s, b) by { assert s[b + n] == u[n]; }
    forall k | 0 <= k < b ensures !MatchesAt(s, k) {
      NoSchemeInWords(pre, u, post, k);
    }
    forall k | b + n <= k < b + |u| ensures !IsWs(s[k]) {
      assert s[k] == u[k - b];
    }
    if post != [] {
      assert s[b + |u|] == post[0];
    }
    FirstUrlIsLeftmostLongest(s, b, b + |u|);
  }

  /** No scheme begins inside words free of ':' that are followed by a URL. */
  lemma NoSchemeInWords(pre: string, u: string, post: string, k: nat)
    requires forall j :: 0 <= j < |pre| ==> pre[j] != ':'
    requires |u| > 7 && u[..4] == "http"
    requires k < |pre|
    ensures SchemeLength(pre + u + post, k) == 0
  {
    var s := pre + u + post;
    var b := |pre|;
    assert forall j :: 0 <= j < 4 ==> s[b + j] == u[j] == "http"[j];
    if k + 5 < b { assert s[k + 5] == pre[k + 5]; }
    if k + 4 < b { assert s[k + 4] == pre[k + 4]; }
    assert s[k + 4] != ':' && (s[k + 5] != ':' || s[k + 4] != 's');
    if k + 8 <= |s| { assert s[k..k + 8][4] == s[k + 4] && s[k..k + 8][5] == s[k + 5]; }
    if k + 7 <= |s| { assert s[k..k + 7][4] == s[k + 4]; }
  }

  // ---------------------------------------------------------------------
  // The redirect
  // ---------------------------------------------------------------------

  /** The archive URL for a target: the target is appended, unencoded, after
      "/latest/". */
  function RedirectUrl(base: string, target: string): (r: string)
    ensures StartsWith(r, base + "/latest/")
    ensures r[|base| + 8..] == target
  {
    base + "/latest/" + target
  }

  /** What handleShare navigates to, given the base domain and the three
      query parameters: None when no parameter is non-empty or the chosen
      text holds no URL. */
  function ShareRedirect(base: string, text: Option<string>, url: Option<string>, title: Option<string>): (r: Option<string>)
    ensures r.Some? <==> Truthy(SharedText(text, url, title)) && FirstUrl(SharedText(text, url, title).value).Some?
    ensures r.Some? ==> r.value == RedirectUrl(base, FirstUrl(SharedText(text, url, title).value).value)
  {
    var shared := SharedText(text, url, title);
    if Truthy(shared) then
      match FirstUrl(shared.value)
      case Some(target) => Some(RedirectUrl(base, target))
      case None => None
    else None
  }
}

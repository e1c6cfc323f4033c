/** The pieces of JavaScript string semantics the share redirector relies on:
    the whitespace class shared by String.prototype.trim and the regular
    expression escape \s, prefix and suffix tests, and trim itself. */
module JsString {

  /** ECMAScript WhiteSpace and LineTerminator code points: the set that both
      trim and \s recognise. Below U+00A0 these are the space and the
      controls tab, line feed, vertical tab, form feed and carriage return;
      above it, the no-break and other Unicode spaces, the line and paragraph
      separators and the byte order mark. */
  predicate IsWs(c: char)
  {
    if c < '\U{00A0}' then c == ' ' || '\t' <= c <= '\r'
    else
      c == '\U{00A0}' || c == '\U{1680}' || '\U{2000}' <= c <= '\U{200A}' ||
      c == '\U{2028}' || c == '\U{2029}' || c == '\U{202F}' || c == '\U{205F}' ||
      c == '\U{3000}' || c == '\U{FEFF}'
  }

  /** Every character of s at an index in [lo, hi) is whitespace. */
  predicate WsBetween(s: string, lo: nat, hi: nat)
    requires lo <= hi <= |s|
  {
    forall k :: lo <= k < hi ==> IsWs(s[k])
  }

  /** Every character of s is whitespace. */
  predicate AllWs(s: string)
  {
    WsBetween(s, 0, |s|)
  }

  /** No character of s is whitespace. */
  predicate NoWs(s: string)
  {
    forall k :: 0 <= k < |s| ==> !IsWs(s[k])
  }

  /** s is non-empty and its last character is whitespace. */
  predicate EndsInWs(s: string)
  {
    s != [] && IsWs(s[|s| - 1])
  }

  /** String.prototype.startsWith */
  predicate StartsWith(s: string, prefix: string)
  {
    |prefix| <= |s| && s[..|prefix|] == prefix
  }

  /** String.prototype.endsWith */
  predicate EndsWith(s: string, suffix: string)
  {
    |suffix| <= |s| && s[|s| - |suffix|..] == suffix
  }

  /** Index of the first non-whitespace character of s at or after i, or
      |s| when there is none. */
  function ContentStart(s: string, i: nat): (a: nat)
    requires i <= |s|
    ensures i <= a <= |s| && WsBetween(s, i, a)
    ensures a == |s| || !IsWs(s[a])
    decreases |s| - i
  {
    if i == |s| || !IsWs(s[i]) then i else ContentStart(s, i + 1)
  }

  /** Index just past the last non-whitespace character of s in [lo, j), or
      lo when there is none. */
  function ContentEnd(s: string, lo: nat, j: nat): (b: nat)
    requires lo <= j <= |s|
    ensures lo <= b <= j && WsBetween(s, b, j)
    ensures b == lo || !IsWs(s[b - 1])
    decreases j
  {
    if j == lo || !IsWs(s[j - 1]) then j else ContentEnd(s, lo, j - 1)
  }

  /** s consists of whitespace, then r starting at index i, then whitespace. */
  predicate Framed(s: string, i: nat, r: string)
  {
    i + |r| <= |s| && s[i..i + |r|] == r && WsBetween(s, 0, i) && WsBetween(s, i + |r|, |s|)
  }

  /** String.prototype.trim: the result sits in s between a run of leading
      and a run of trailing whitespace, and neither begins nor ends with
      whitespace itself. */
  function Trim(s: string): (r: string)
    ensures |r| <= |s| && Framed(s, ContentStart(s, 0), r)
    ensures r != [] ==> !IsWs(r[0]) && !IsWs(r[|r| - 1])
  {
    var a := ContentStart(s, 0);
    s[a..ContentEnd(s, a, |s|)]
  }

  /** Trimming a string that is whitespace only gives the empty string. */
  lemma TrimAllWs(s: string)
    requires AllWs(s)
    ensures Trim(s) == ""
  {
  }

  /** Trimming a string that neither begins nor ends with whitespace leaves it
      unchanged. */
  lemma TrimUnchanged(s: string)
    requires s != [] ==> !IsWs(s[0]) && !IsWs(s[|s| - 1])
    ensures Trim(s) == s
  {
  }

  /** Trim's result is determined by its contract: a non-empty r that
      neither begins nor ends with whitespace and sits in s between leading
      and trailing whitespace is what trim returns. */
  lemma TrimUnique(s: string, i: nat, r: string)
    requires Framed(s, i, r) && r != [] && !IsWs(r[0]) && !IsWs(r[|r| - 1])
    ensures Trim(s) == r
  {
    assert s[i] == r[0] && s[i + |r| - 1] == r[|r| - 1];
  }

  /** Trimming a string that ends in whitespace: its last character makes no
      difference, so the result is shorter than the input; and when the
      input begins with a non-whitespace character, a prefix of length n
      whose last character is not whitespace survives. */
  lemma TrimOfTrailingWs(s: string, n: nat)
    requires EndsInWs(s)
    ensures Trim(s) == Trim(s[..|s| - 1]) && |Trim(s)| < |s|
    ensures 0 < n <= |s| && !IsWs(s[0]) && !IsWs(s[n - 1]) ==>
      n <= |Trim(s)| && Trim(s)[..n] == s[..n]
  {
    var s' := s[..|s| - 1];
    var t := Trim(s');
    var i := ContentStart(s', 0);
    if t == [] {
      assert AllWs(s) by {
        assert WsBetween(s', 0, i) && WsBetween(s', i, |s'|);
        forall k | 0 <= k < |s| ensures IsWs(s[k]) {
          if k < |s'| { assert s[k] == s'[k]; }
        }
      }
      TrimAllWs(s);
    } else {
      assert Framed(s, i, t) by {
        assert i + |t| <= |s'| && s'[i..i + |t|] == t;
        assert s[i..i + |t|] == s'[i..i + |t|];
        assert WsBetween(s', 0, i) && WsBetween(s', i + |t|, |s'|);
        forall k | 0 <= k < i ensures IsWs(s[k]) { assert s[k] == s'[k]; }
        forall k | i + |t| <= k < |s| ensures IsWs(s[k]) {
          if k < |s'| { assert s[k] == s'[k]; }
        }
      }
      TrimUnique(s, i, t);
    }
  }
}

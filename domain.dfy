/** Normalisation of the archive base domain entered on the settings form
    (the value setBaseDomain stores), and the built-in default. */
module Domain {
  import opened JsString

  /** The archive served when no domain has been saved. */
  const DefaultDomain: string := "https://archive.fo"

  /** Step two of normalisation: "https://" is put in front of anything that
      does not already begin, case-sensitively, with "http". */
  function WithScheme(t: string): (p: string)
    ensures StartsWith(p, "http")
    ensures StartsWith(t, "http") ==> p == t
    ensures !StartsWith(t, "http") ==> p == "https://" + t
  {
    if StartsWith(t, "http") then t else "https://" + t
  }

  /** Step three: exactly one trailing "/" is removed when there is one. */
  function DropTrailingSlash(p: string): (r: string)
    ensures EndsWith(p, "/") ==> r + "/" == p
    ensures !EndsWith(p, "/") ==> r == p
  {
    if EndsWith(p, "/") then p[..|p| - 1] else p
  }

  /** The value setBaseDomain computes from the raw input d: trimmed, given
      a scheme when it lacks "http", and shortened by one trailing slash. */
  function Normalized(d: string): string
  {
    DropTrailingSlash(WithScheme(Trim(d)))
  }

  /** Removing a trailing slash from a string that begins with "http" leaves
      a non-empty string that still begins with "http". */
  lemma DropTrailingSlashKeepsScheme(p: string)
    requires StartsWith(p, "http")
    ensures DropTrailingSlash(p) != ""
    ensures StartsWith(DropTrailingSlash(p), "http")
  {
    if EndsWith(p, "/") {
      assert p[|p| - 1] == '/' && p[3] == 'p';
      assert p[..|p| - 1][..4] == p[..4];
    }
  }

  /** Whatever the input, even empty or whitespace only, the normalised
      domain is non-empty and begins with "http". */
  lemma NormalizedStartsWithHttp(d: string)
    ensures Normalized(d) != ""
    ensures StartsWith(Normalized(d), "http")
  {
    DropTrailingSlashKeepsScheme(WithScheme(Trim(d)));
  }

  /** When the trimmed input already begins with "http" nothing is put in
      front: the result is the trimmed input, less one trailing "/" if it
      has one. */
  lemma NormalizedKeepsScheme(d: string)
    requires StartsWith(Trim(d), "http")
    ensures EndsWith(Trim(d), "/") ==> Normalized(d) + "/" == Trim(d)
    ensures !EndsWith(Trim(d), "/") ==> Normalized(d) == Trim(d)
  {
  }

  /** The normalised domain is the trimmed, scheme-prefixed input itself or
      that string with its last character, a "/", removed: at most one slash
      goes, and nothing else changes. */
  lemma NormalizedDropsAtMostOneSlash(d: string)
    ensures var p := WithScheme(Trim(d));
      (Normalized(d) == p && !EndsWith(p, "/")) ||
      (Normalized(d) + "/" == p)
  {
  }

  /** Input made of whitespace alone is trimmed to "" and comes out as
      "https:/", the scheme with its final slash removed. */
  lemma WhitespaceOnlyInput(d: string)
    requires AllWs(d)
    ensures Normalized(d) == "https:/"
  {
  }

  /** Only one slash goes: when the trimmed, scheme-prefixed input ends in
      "//", as "a//" does, the stored domain still ends in "/". */
  lemma DoubleSlashKeepsOne(d: string)
    requires EndsWith(WithScheme(Trim(d)), "//")
    ensures EndsWith(Normalized(d), "/")
    ensures Normalized(d) + "/" == WithScheme(Trim(d))
  {
    var p := WithScheme(Trim(d));
    assert p[|p| - 2] == '/' by { assert p[|p| - 2..][0] == '/'; }
    assert Normalized(d)[|p| - 2] == '/';
  }

  /** The scheme test is case-sensitive: "HTTP://x", or anything else whose
      trimmed form begins with "HTTP", gets a second scheme in front. */
  lemma UpperCaseSchemeIsPrefixed(d: string)
    requires StartsWith(Trim(d), "HTTP")
    ensures StartsWith(Normalized(d), "https://HTTP")
  {
    var t := Trim(d);
    assert !StartsWith(t, "http") by { assert t[..4][0] == 'H'; }
    var p := "https://" + t;
    assert p[..12] == "https://" + t[..4];
    if |t| == 4 {
      assert p[|p| - 1] == 'P';
    } else {
      DropTrailingSlashKeepsPrefix(p, "https://HTTP");
    }
  }

  /** Removing a trailing slash keeps any prefix that is not the whole string. */
  lemma DropTrailingSlashKeepsPrefix(p: string, prefix: string)
    requires StartsWith(p, prefix) && |prefix| < |p|
    ensures StartsWith(DropTrailingSlash(p), prefix)
  {
  }

  /** Normalisation is not idempotent: when the trimmed input ends in
      whitespace followed by "/", as "a /" does, the first pass leaves that
      whitespace at the end ("a /" gives "https://a ") and a second pass trims
      it away, so the two passes disagree. */
  lemma NotIdempotent(d: string)
    requires EndsWith(Trim(d), "/") && EndsInWs(Trim(d)[..|Trim(d)| - 1])
    ensures EndsInWs(Normalized(d))
    ensures Normalized(Normalized(d)) != Normalized(d)
  {
    TrailingWsSurvives(d);
    NormalizedStartsWithHttp(d);
    SecondPassShorter(Normalized(d));
  }

  /** Whitespace before a final "/" of the trimmed input ends up at the end
      of the normalised domain. */
  lemma TrailingWsSurvives(d: string)
    requires EndsWith(Trim(d), "/") && EndsInWs(Trim(d)[..|Trim(d)| - 1])
    ensures EndsInWs(Normalized(d))
  {
  }

  /** A string that begins with "http" and ends in whitespace is shortened by
      normalisation. */
  lemma SecondPassShorter(r: string)
    requires StartsWith(r, "http") && EndsInWs(r)
    ensures |Normalized(r)| < |r|
  {
    var t := Trim(r);
    assert |t| < |r| && StartsWith(t, "http") by {
      assert r[0] == 'h' && r[3] == 'p' by { assert r[..4] == "http"; }
      TrimOfTrailingWs(r, 4);
      assert t[..4] == r[..4];
    }
    assert WithScheme(t) == t;
    assert |DropTrailingSlash(t)| <= |t|;
  }

  /** A normalised domain is a fixed point of normalisation exactly when it
      ends neither in "/" nor in whitespace. So idempotence fails in two
      ways: "a /" gives "https://a ", which a second pass trims, and "a//"
      gives "https://a/", which a second pass shortens to "https://a". */
  lemma NormalizedStable(d: string)
    ensures Normalized(Normalized(d)) == Normalized(d) <==>
      !EndsWith(Normalized(d), "/") && !EndsInWs(Normalized(d))
  {
    var r := Normalized(d);
    NormalizedStartsWithHttp(d);
    if EndsInWs(r) {
      SecondPassShorter(r);
    } else {
      assert Trim(r) == r by {
        assert r[0] == 'h' by { assert r[..4][0] == 'h'; }
        TrimUnchanged(r);
      }
      assert WithScheme(r) == r;
      if EndsWith(r, "/") {
        assert |DropTrailingSlash(r)| == |r| - 1;
      } else {
        assert DropTrailingSlash(r) == r;
      }
    }
  }
}

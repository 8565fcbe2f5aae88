/**
 * The first data-preparation script: after the `<head>` element is cut out
 * of the exported history page (the same `RemoveHeadtag` as in
 * `ExtractUrls`), every anchor whose `href` matches the watched-video
 * pattern is collected, in document order, duplicates included.
 */
module DataPrep1 {
  import opened Wrappers

  /**
   * The pattern `^https://www.youtube.com/w`. Its two dots are not escaped,
   * so each stands for any character but a newline.
   */
  const WatchPattern: string := "https://www.youtube.com/w"

  predicate PatternCharMatches(p: char, c: char) {
    if p == '.' then c != '\n' else c == p
  }

  /** The anchored regular expression matches at the start of `href`. */
  predicate MatchesWatchPattern(href: string) {
    && |WatchPattern| <= |href|
    && forall i :: 0 <= i < |WatchPattern| ==> PatternCharMatches(WatchPattern[i], href[i])
  }

  /** The `href` filter of `findAll`: an anchor without `href` is never selected. */
  predicate IsWatchedHref(href: Option<string>) {
    href.Some? && MatchesWatchPattern(href.value)
  }

  /** The collected links, as a function of the anchors' `href` values in document order. */
  function WatchedUrls(hrefs: seq<Option<string>>): seq<string> {
    if hrefs == [] then []
    else
      var n := |hrefs| - 1;
      var before := WatchedUrls(hrefs[..n]);
      if IsWatchedHref(hrefs[n]) then before + [hrefs[n].value] else before
  }

  /** The loop over the selected anchors, appending each `href` to `watched_urls`. */
  method SelectWatchedUrls(hrefs: seq<Option<string>>) returns (watchedUrls: seq<string>)
    ensures watchedUrls == WatchedUrls(hrefs)
  {
    watchedUrls := [];
    for i := 0 to |hrefs|
      invariant watchedUrls == WatchedUrls(hrefs[..i])
    {
      assert hrefs[..i + 1][..i] == hrefs[..i];
      if IsWatchedHref(hrefs[i]) {
        watchedUrls := watchedUrls + [hrefs[i].value];
      }
    }
    assert hrefs[..|hrefs|] == hrefs;
  }

  /** Links come out in document order: the links of a later part of the page follow those of an earlier part. */
  lemma {:induction false} WatchedUrlsAppend(a: seq<Option<string>>, b: seq<Option<string>>)
    ensures WatchedUrls(a + b) == WatchedUrls(a) + WatchedUrls(b)
    decreases |b|
  {
    if b == [] {
      assert a + b == a;
    } else {
      var n := |b| - 1;
      assert (a + b)[..|a| + n] == a + b[..n];
      assert (a + b)[|a| + n] == b[n];
      WatchedUrlsAppend(a, b[..n]);
    }
  }

  /** A link is collected exactly when some anchor carries it and it matches the pattern. */
  lemma {:induction false} WatchedUrlsMembers(hrefs: seq<Option<string>>)
    ensures forall u :: u in WatchedUrls(hrefs) <==> Some(u) in hrefs && MatchesWatchPattern(u)
    decreases |hrefs|
  {
    if hrefs != [] {
      var n := |hrefs| - 1;
      WatchedUrlsMembers(hrefs[..n]);
      assert hrefs == hrefs[..n] + [hrefs[n]];
    }
  }

  /** Duplicates are kept: a matching link is collected once per anchor that carries it. */
  lemma {:induction false} WatchedUrlsKeepDuplicates(hrefs: seq<Option<string>>)
    ensures forall u :: MatchesWatchPattern(u) ==> multiset(WatchedUrls(hrefs))[u] == multiset(hrefs)[Some(u)]
    decreases |hrefs|
  {
    if hrefs != [] {
      var n := |hrefs| - 1;
      WatchedUrlsKeepDuplicates(hrefs[..n]);
      assert hrefs == hrefs[..n] + [hrefs[n]];
    }
  }

  /** Each unescaped dot accepts any character but a newline, so look-alike hosts pass the test. */
  lemma DotMatchesAnyCharacter(c: char, d: char, rest: string)
    requires c != '\n' && d != '\n'
    ensures MatchesWatchPattern(WatchPattern[..11] + [c] + WatchPattern[12..19] + [d] + WatchPattern[20..] + rest)
  {
    var href := WatchPattern[..11] + [c] + WatchPattern[12..19] + [d] + WatchPattern[20..] + rest;
    forall i | 0 <= i < |WatchPattern|
      ensures PatternCharMatches(WatchPattern[i], href[i])
    {
      if i != 11 && i != 19 {
        assert href[i] == WatchPattern[i];
      }
    }
  }
}

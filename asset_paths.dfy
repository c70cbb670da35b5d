/**
 * `fix_asset_paths.py`: pages copied into a language sub-directory refer to
 * `./assets/` and must refer to `../assets/`. Five literal rewrites run one
 * after the other, each replacing `PREFIX./assets/` by `PREFIX../assets/`
 * for one attribute or CSS prefix.
 */
module AssetPaths {
  import opened Strings

  /** One `re.sub` step with a literal pattern: `pat` becomes `rep` everywhere. */
  datatype Rewrite = Rewrite(pat: string, rep: string)

  const LangDirs: seq<string> := ["de", "fr", "it", "nl", "no", "sv", "th"]

  /** The five prefixes after which `./assets/` is rewritten. */
  const Prefixes: seq<string> := ["href=\"", "src=\"", "content=\"", "url('", "url(\""]

  const HrefFix := Rewrite("href=\"./assets/", "href=\"../assets/")
  const SrcFix := Rewrite("src=\"./assets/", "src=\"../assets/")
  const ContentFix := Rewrite("content=\"./assets/", "content=\"../assets/")
  const UrlQuoteFix := Rewrite("url('./assets/", "url('../assets/")
  const UrlDoubleQuoteFix := Rewrite("url(\"./assets/", "url(\"../assets/")

  /** The rewrites in the order the script applies them. */
  const Patterns: seq<Rewrite> := [HrefFix, SrcFix, ContentFix, UrlQuoteFix, UrlDoubleQuoteFix]

  predicate NonEmptyPatterns(ps: seq<Rewrite>)
  {
    forall k :: 0 <= k < |ps| ==> ps[k].pat != []
  }

  /** Applying the rewrites `ps` in order, each to the result of the one before. */
  function ApplyAll(s: string, ps: seq<Rewrite>): string
    requires NonEmptyPatterns(ps)
  {
    if ps == [] then s
    else ReplaceAll(ApplyAll(s, ps[..|ps| - 1]), ps[|ps| - 1].pat, ps[|ps| - 1].rep)
  }

  /** `fix_asset_paths(html_content)`: the loop over the pattern list. */
  method FixAssetPaths(html: string) returns (modified: string)
    ensures modified == ApplyAll(html, Patterns)
  {
    modified := html;
    for i := 0 to |Patterns|
      invariant modified == ApplyAll(html, Patterns[..i])
    {
      assert Patterns[..i + 1][..i] == Patterns[..i];
      modified := ReplaceAll(modified, Patterns[i].pat, Patterns[i].rep);
    }
    assert Patterns[..|Patterns|] == Patterns;
  }

  // ------------------------------------------------------------ general theory

  /** Every rewrite lengthens the text it changes, so the chain leaves a text alone only if no pattern occurs. */
  lemma {:induction false} ApplyAllGrows(s: string, ps: seq<Rewrite>)
    requires NonEmptyPatterns(ps)
    requires forall k :: 0 <= k < |ps| ==> |ps[k].rep| > |ps[k].pat|
    ensures |ApplyAll(s, ps)| >= |s|
    ensures |ApplyAll(s, ps)| == |s| ==>
      forall k :: 0 <= k < |ps| ==> !Contains(s, ps[k].pat)
  {
    if ps != [] {
      var n := |ps| - 1;
      var init := ps[..n];
      ApplyAllGrows(s, init);
      var t := ApplyAll(s, init);
      LengthStep(t, ps[n].pat, ps[n].rep);
      if |ApplyAll(s, ps)| == |s| {
        ApplyAllNoMatch(s, init);
        assert t == s;
        forall k | 0 <= k < n
          ensures !Contains(s, ps[k].pat)
        {
          assert init[k] == ps[k];
        }
      }
    }
  }

  /** One rewrite with a longer replacement grows the text by at least one per occurrence. */
  lemma LengthStep(t: string, pat: string, rep: string)
    requires pat != [] && |rep| > |pat|
    ensures |ReplaceAll(t, pat, rep)| >= |t|
    ensures |ReplaceAll(t, pat, rep)| == |t| ==> !Contains(t, pat)
  {
    ReplaceAllLength(t, pat, rep);
    CountMatchesPositive(t, pat);
    var c := CountMatches(t, pat);
    if c > 0 {
      ProductNonZero(c, |rep| - |pat|);
    }
    assert c * (|rep| - |pat|) >= 0;
  }

  /** A text holding none of the patterns passes through unchanged. */
  lemma {:induction false} ApplyAllNoMatch(s: string, ps: seq<Rewrite>)
    requires NonEmptyPatterns(ps)
    requires forall k :: 0 <= k < |ps| ==> !Contains(s, ps[k].pat)
    ensures ApplyAll(s, ps) == s
  {
    if ps != [] {
      ApplyAllNoMatch(s, ps[..|ps| - 1]);
      ReplaceAllNoMatch(s, ps[|ps| - 1].pat, ps[|ps| - 1].rep);
    }
  }

  /**
   * When no replacement can form an earlier-or-same pattern, the chain leaves
   * no occurrence of any pattern behind.
   */
  lemma {:induction false} ApplyAllClears(s: string, ps: seq<Rewrite>)
    requires NonEmptyPatterns(ps)
    requires forall k, m :: 0 <= k <= m < |ps| ==> NoOverlap(ps[k].pat, ps[m].rep)
    ensures forall k :: 0 <= k < |ps| ==> !Contains(ApplyAll(s, ps), ps[k].pat)
  {
    if ps != [] {
      var n := |ps| - 1;
      var init := ps[..n];
      ApplyAllClears(s, init);
      var t := ApplyAll(s, init);
      forall k | 0 <= k < |ps|
        ensures !Contains(ApplyAll(s, ps), ps[k].pat)
      {
        if k < n {
          assert init[k] == ps[k];
        }
        ReplaceAllAvoids(t, ps[n].pat, ps[n].rep, ps[k].pat);
      }
    }
  }

  lemma ApplyAllIdempotent(s: string, ps: seq<Rewrite>)
    requires NonEmptyPatterns(ps)
    requires forall k, m :: 0 <= k <= m < |ps| ==> NoOverlap(ps[k].pat, ps[m].rep)
    ensures ApplyAll(ApplyAll(s, ps), ps) == ApplyAll(s, ps)
  {
    ApplyAllClears(s, ps);
    ApplyAllNoMatch(ApplyAll(s, ps), ps);
  }

  // ------------------------------------------------------------ the five rewrites

  lemma HrefFixClear()
    ensures NoOverlap(HrefFix.pat, HrefFix.rep) && NoOverlap(HrefFix.pat, SrcFix.rep)
    ensures NoOverlap(HrefFix.pat, ContentFix.rep) && NoOverlap(HrefFix.pat, UrlQuoteFix.rep)
    ensures NoOverlap(HrefFix.pat, UrlDoubleQuoteFix.rep)
  {
    NoOverlapByPairs(HrefFix.pat, HrefFix.rep, 7);
    NoOverlapByPairs(HrefFix.pat, SrcFix.rep, 0);
    NoOverlapByPairs(HrefFix.pat, ContentFix.rep, 0);
    NoOverlapByPairs(HrefFix.pat, UrlQuoteFix.rep, 0);
    NoOverlapByPairs(HrefFix.pat, UrlDoubleQuoteFix.rep, 0);
  }

  lemma SrcFixClear()
    ensures NoOverlap(SrcFix.pat, SrcFix.rep) && NoOverlap(SrcFix.pat, ContentFix.rep)
    ensures NoOverlap(SrcFix.pat, UrlQuoteFix.rep) && NoOverlap(SrcFix.pat, UrlDoubleQuoteFix.rep)
  {
    NoOverlapByPairs(SrcFix.pat, SrcFix.rep, 6);
    NoOverlapByPairs(SrcFix.pat, ContentFix.rep, 0);
    NoOverlapByPairs(SrcFix.pat, UrlQuoteFix.rep, 0);
    NoOverlapByPairs(SrcFix.pat, UrlDoubleQuoteFix.rep, 0);
  }

  lemma ContentFixClear()
    ensures NoOverlap(ContentFix.pat, ContentFix.rep) && NoOverlap(ContentFix.pat, UrlQuoteFix.rep)
    ensures NoOverlap(ContentFix.pat, UrlDoubleQuoteFix.rep)
  {
    NoOverlapByPairs(ContentFix.pat, ContentFix.rep, 10);
    NoOverlapByPairs(ContentFix.pat, UrlQuoteFix.rep, 0);
    NoOverlapByPairs(ContentFix.pat, UrlDoubleQuoteFix.rep, 0);
  }

  lemma UrlFixClear()
    ensures NoOverlap(UrlQuoteFix.pat, UrlQuoteFix.rep) && NoOverlap(UrlQuoteFix.pat, UrlDoubleQuoteFix.rep)
    ensures NoOverlap(UrlDoubleQuoteFix.pat, UrlDoubleQuoteFix.rep)
  {
    NoOverlapByPairs(UrlQuoteFix.pat, UrlQuoteFix.rep, 6);
    NoOverlapByPairs(UrlQuoteFix.pat, UrlDoubleQuoteFix.rep, 4);
    NoOverlapByPairs(UrlDoubleQuoteFix.pat, UrlDoubleQuoteFix.rep, 6);
  }

  /** No replacement can form its own pattern or one applied before it. */
  lemma PatternsDoNotOverlap()
    ensures forall k, m :: 0 <= k <= m < |Patterns| ==> NoOverlap(Patterns[k].pat, Patterns[m].rep)
  {
    HrefFixClear();
    SrcFixClear();
    ContentFixClear();
    UrlFixClear();
  }

  /** Running the script twice gives the same page as running it once. */
  lemma FixAssetPathsIdempotent(s: string)
    ensures ApplyAll(ApplyAll(s, Patterns), Patterns) == ApplyAll(s, Patterns)
  {
    PatternsDoNotOverlap();
    ApplyAllIdempotent(s, Patterns);
  }

  /** The fixed page has no `PREFIX./assets/` left for any of the five prefixes. */
  lemma FixAssetPathsClears(s: string)
    ensures forall k :: 0 <= k < |Patterns| ==> !Contains(ApplyAll(s, Patterns), Patterns[k].pat)
  {
    PatternsDoNotOverlap();
    ApplyAllClears(s, Patterns);
  }

  /** The page is left alone exactly when it holds none of the five patterns. */
  lemma FixAssetPathsUnchanged(s: string)
    ensures ApplyAll(s, Patterns) == s <==> forall k :: 0 <= k < |Patterns| ==> !Contains(s, Patterns[k].pat)
  {
    ApplyAllGrows(s, Patterns);
    if forall k :: 0 <= k < |Patterns| ==> !Contains(s, Patterns[k].pat) {
      ApplyAllNoMatch(s, Patterns);
    }
  }

  // ------------------------------------------------------------ the file loop

  /** Number of pages the fix changes. */
  function CountChanged(pages: seq<string>): (n: nat)
    ensures n <= |pages|
  {
    if pages == [] then 0
    else CountChanged(pages[..|pages| - 1]) + (if ApplyAll(pages[|pages| - 1], Patterns) != pages[|pages| - 1] then 1 else 0)
  }

  /**
   * `process_html_files` over the HTML pages found in the existing language
   * directories: every page is processed, a page is written back only when the
   * fix changes it, and the two counters are tallied per page.
   */
  method ProcessHtmlFiles(pages: seq<string>) returns (written: seq<string>, processed: nat, modifiedCount: nat)
    ensures processed == |pages|
    ensures modifiedCount == CountChanged(pages) <= processed
    ensures |written| == |pages|
    ensures forall i :: 0 <= i < |pages| ==> written[i] == ApplyAll(pages[i], Patterns)
  {
    written, processed, modifiedCount := [], 0, 0;
    for i := 0 to |pages|
      invariant processed == i && |written| == i
      invariant modifiedCount == CountChanged(pages[..i])
      invariant forall j :: 0 <= j < i ==> written[j] == ApplyAll(pages[j], Patterns)
    {
      processed := processed + 1;
      var fixed := FixAssetPaths(pages[i]);
      assert pages[..i + 1][..i] == pages[..i];
      if fixed != pages[i] {
        modifiedCount := modifiedCount + 1;
      }
      written := written + [fixed];
    }
    assert pages[..|pages|] == pages;
  }
}

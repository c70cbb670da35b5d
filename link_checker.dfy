/**
 * The language-page link checker: for each listed page it extracts the
 * links (anchors, stylesheets in both attribute orders, scripts, and at
 * most 20 images), resolves the local ones against the page's directory,
 * and records the targets that do not exist; missing pages and unreadable
 * pages are recorded apart. The run fails iff a link is broken or a page
 * is missing.
 *
 * The regular expressions are abstracted: a page's content is given as the
 * URLs each pattern captures, in document order. The file system is a set
 * of existing paths and a map from page paths to their contents.
 */
module LinkChecker {
  import opened Wrappers
  import opened Strings
  import opened PosixPath

  /** At most this many images are taken from a page. */
  const MaxImages: nat := 20

  /** The prefixes of links that are never checked. */
  const SkippedPrefixes: seq<string> := ["http://", "https://", "#", "mailto:", "tel:", "javascript:", "data:"]

  datatype LinkKind = HtmlLink | Css | JavaScript | Image

  datatype Link = Link(kind: LinkKind, url: string)

  /** The URLs the five patterns of `extractLinks` capture, each in document order. */
  datatype LinkMatches = LinkMatches(
    anchors: seq<string>, stylesheets: seq<string>, altStylesheets: seq<string>,
    scripts: seq<string>, images: seq<string>)

  /** What reading a listed page gives: no file, a read error, or its links. */
  datatype PageFile = Missing | Unreadable(error: string) | Readable(matches: LinkMatches)

  datatype Broken = Broken(file: string, link: string, resolvedPath: string, kind: LinkKind)

  /** The `results` object. */
  datatype Results = Results(
    totalPages: nat, totalLinks: nat, brokenLinks: seq<Broken>, missingFiles: seq<string>,
    warnings: seq<(string, string)>, success: seq<string>)

  // ------------------------------------------------------------------ extractLinks

  function Tagged(kind: LinkKind, urls: seq<string>): (r: seq<Link>)
    ensures |r| == |urls|
    ensures forall i :: 0 <= i < |r| ==> r[i] == Link(kind, urls[i])
  {
    if urls == [] then [] else Tagged(kind, urls[..|urls| - 1]) + [Link(kind, urls[|urls| - 1])]
  }

  function Capped(n: nat): nat
  {
    if n < MaxImages then n else MaxImages
  }

  /** The links of a page, in the order `extractLinks` emits them. */
  function Extracted(m: LinkMatches): seq<Link>
  {
    Tagged(HtmlLink, m.anchors) + Tagged(Css, m.stylesheets) + Tagged(Css, m.altStylesheets) +
    Tagged(JavaScript, m.scripts) + Tagged(Image, m.images[..Capped(|m.images|)])
  }

  function CountKind(links: seq<Link>, kind: LinkKind): (n: nat)
    ensures n <= |links|
  {
    if links == [] then 0 else CountKind(links[..|links| - 1], kind) + (if links[|links| - 1].kind == kind then 1 else 0)
  }

  lemma {:induction false} CountKindConcat(a: seq<Link>, b: seq<Link>, kind: LinkKind)
    ensures CountKind(a + b, kind) == CountKind(a, kind) + CountKind(b, kind)
    decreases |b|
  {
    if b != [] {
      assert (a + b)[..|a + b| - 1] == a + b[..|b| - 1];
      assert (a + b)[|a + b| - 1] == b[|b| - 1];
      CountKindConcat(a, b[..|b| - 1], kind);
    } else {
      assert a + b == a;
    }
  }

  lemma {:induction false} CountTagged(kind: LinkKind, urls: seq<string>, other: LinkKind)
    ensures CountKind(Tagged(kind, urls), other) == if kind == other then |urls| else 0
    decreases |urls|
  {
    if urls != [] {
      CountTagged(kind, urls[..|urls| - 1], other);
      assert Tagged(kind, urls)[..|urls| - 1] == Tagged(kind, urls[..|urls| - 1]);
    }
  }

  /** Every anchor, stylesheet and script is kept; of the images only the first 20. */
  lemma ExtractedCounts(m: LinkMatches)
    ensures CountKind(Extracted(m), Image) == Capped(|m.images|) <= MaxImages
    ensures CountKind(Extracted(m), HtmlLink) == |m.anchors|
    ensures CountKind(Extracted(m), Css) == |m.stylesheets| + |m.altStylesheets|
    ensures CountKind(Extracted(m), JavaScript) == |m.scripts|
    ensures |Extracted(m)| == |m.anchors| + |m.stylesheets| + |m.altStylesheets| + |m.scripts| + Capped(|m.images|)
  {
    KindCount(m, Image);
    KindCount(m, HtmlLink);
    KindCount(m, Css);
    KindCount(m, JavaScript);
  }

  lemma KindCount(m: LinkMatches, kind: LinkKind)
    ensures CountKind(Extracted(m), kind) ==
      (if kind == HtmlLink then |m.anchors| else 0) +
      (if kind == Css then |m.stylesheets| + |m.altStylesheets| else 0) +
      (if kind == JavaScript then |m.scripts| else 0) +
      (if kind == Image then Capped(|m.images|) else 0)
  {
    var a := Tagged(HtmlLink, m.anchors);
    var b := Tagged(Css, m.stylesheets);
    var c := Tagged(Css, m.altStylesheets);
    var d := Tagged(JavaScript, m.scripts);
    var e := Tagged(Image, m.images[..Capped(|m.images|)]);
    CountKindConcat(a + b + c + d, e, kind);
    CountKindConcat(a + b + c, d, kind);
    CountKindConcat(a + b, c, kind);
    CountKindConcat(a, b, kind);
    CountTagged(HtmlLink, m.anchors, kind);
    CountTagged(Css, m.stylesheets, kind);
    CountTagged(Css, m.altStylesheets, kind);
    CountTagged(JavaScript, m.scripts, kind);
    CountTagged(Image, m.images[..Capped(|m.images|)], kind);
  }

  /** `extractLinks`: the five `exec` loops in turn, the last one stopping after 20 images. */
  method ExtractLinks(m: LinkMatches) returns (links: seq<Link>)
    ensures links == Extracted(m)
  {
    links := [];
    links := AppendAll(links, HtmlLink, m.anchors);
    links := AppendAll(links, Css, m.stylesheets);
    links := AppendAll(links, Css, m.altStylesheets);
    links := AppendAll(links, JavaScript, m.scripts);
    links := AppendImages(links, m.images);
    assert [] + Tagged(HtmlLink, m.anchors) == Tagged(HtmlLink, m.anchors);
  }

  /** The image loop: it stops at the end of the matches or once 20 images are taken. */
  method AppendImages(init: seq<Link>, images: seq<string>) returns (links: seq<Link>)
    ensures links == init + Tagged(Image, images[..Capped(|images|)])
  {
    links := init;
    var imgCount := 0;
    var i := 0;
    while i < |images| && imgCount < MaxImages
      invariant 0 <= i <= |images| && imgCount == i <= MaxImages
      invariant links == init + Tagged(Image, images[..i])
    {
      assert images[..i + 1][..i] == images[..i];
      links := links + [Link(Image, images[i])];
      imgCount := imgCount + 1;
      i := i + 1;
    }
    assert i == Capped(|images|);
  }

  /** One uncapped `exec` loop: every captured URL is pushed with its kind. */
  method AppendAll(init: seq<Link>, kind: LinkKind, urls: seq<string>) returns (links: seq<Link>)
    ensures links == init + Tagged(kind, urls)
  {
    links := init;
    for i := 0 to |urls|
      invariant links == init + Tagged(kind, urls[..i])
    {
      assert urls[..i + 1][..i] == urls[..i];
      links := links + [Link(kind, urls[i])];
    }
    assert urls[..|urls|] == urls;
  }

  // ------------------------------------------------------------------ normalizePath

  predicate StartsWith(s: string, prefix: string)
  {
    prefix <= s
  }

  /** External, in-page, mail, phone, script and data links are not checked. */
  predicate Skipped(link: string)
  {
    exists k :: 0 <= k < |SkippedPrefixes| && StartsWith(link, SkippedPrefixes[k])
  }

  /** `link.split('?')[0].split('#')[0]`: the link up to its first '?' and then its first '#'. */
  function CutLink(link: string): (r: string)
    ensures r <= link && '?' !in r && '#' !in r
  {
    var q := Split(link, '?')[0];
    SplitHead(link, '?');
    var h := Split(q, '#')[0];
    SplitHead(q, '#');
    assert '?' !in h by {
      forall k | 0 <= k < |h| ensures h[k] != '?' {
        assert h[k] == q[k];
      }
    }
    h
  }

  /**
   * `normalizePath`: None for a skipped link and for one that is empty once
   * cut; otherwise the cut link joined to the page's directory and normalized.
   */
  function NormalizeLink(link: string, currentFile: string): (r: Option<string>)
    ensures r.None? <==> Skipped(link) || CutLink(link) == ""
    ensures r.Some? ==> r.value != "" && r.value == JoinPaths(Dirname(currentFile), CutLink(link))
  {
    if Skipped(link) then None
    else
      var cut := CutLink(link);
      if cut == "" then None
      else Some(JoinPaths(Dirname(currentFile), cut))
  }

  /** A resolved link needs no further normalization. */
  lemma NormalizedLinkStable(link: string, currentFile: string)
    requires NormalizeLink(link, currentFile).Some?
    ensures Normalize(NormalizeLink(link, currentFile).value) == NormalizeLink(link, currentFile).value
  {
    NormalizeIdempotent(Dirname(currentFile) + "/" + CutLink(link));
  }

  /** A query string or fragment does not change where a link leads. */
  lemma {:induction false} QueryIgnored(path: string, query: string, currentFile: string)
    requires path != "" && '?' !in path && '#' !in path && !Skipped(path)
    ensures NormalizeLink(path + "?" + query, currentFile) == NormalizeLink(path, currentFile)
  {
    SplitAfter(path, query, '?');
    SplitNoSep(path, '#');
    SplitNoSep(path, '?');
    assert !Skipped(path + "?" + query) by {
      forall k | 0 <= k < |SkippedPrefixes|
        ensures !StartsWith(path + "?" + query, SkippedPrefixes[k])
      {
        PrefixBeforeQuery(SkippedPrefixes[k], path, "?" + query);
        assert '?' !in SkippedPrefixes[k];
      }
    }
    assert path + ['?'] + query == path + "?" + query;
  }

  /** A prefix of `a + b`, where `b` starts with '?', either is a prefix of `a` or contains that '?'. */
  lemma PrefixBeforeQuery(p: string, a: string, b: string)
    requires b != [] && b[0] == '?'
    ensures p <= a + b ==> p <= a || '?' in p
  {
    if p <= a + b {
      if |p| <= |a| {
        assert p == (a + b)[..|p|] == a[..|p|];
      } else {
        assert p[|a|] == (a + b)[|a|] == '?';
      }
    }
  }

  /** From a page in a language directory, "../page" is the top-level page. */
  lemma ParentLinkResolves(lang: string, page: string, x: string)
    requires PlainName(lang) && PlainName(page) && PlainName(x)
    requires '?' !in x && '#' !in x && ':' !in x && x[0] != '#'
    ensures NormalizeLink("../" + x, lang + "/" + page) == Some(x)
  {
    var link := "../" + x;
    SplitNoSep(link, '?');
    SplitNoSep(link, '#');
    ChildDirname(lang, page);
    ParentLink(lang, x);
    assert !Skipped(link) by {
      forall k | 0 <= k < |SkippedPrefixes| ensures !StartsWith(link, SkippedPrefixes[k]) {
        assert link[0] == '.';
      }
    }
  }

  // ------------------------------------------------------------------ checkFile

  /** The broken links of a page: local links whose resolved target does not exist. */
  function BrokenIn(file: string, links: seq<Link>, existing: set<string>): (r: seq<Broken>)
    ensures |r| <= |links|
    ensures forall k :: 0 <= k < |r| ==> r[k].file == file && r[k].resolvedPath !in existing
  {
    if links == [] then []
    else
      var prev := BrokenIn(file, links[..|links| - 1], existing);
      var l := links[|links| - 1];
      match NormalizeLink(l.url, file)
      case Some(target) => if target !in existing then prev + [Broken(file, l.url, target, l.kind)] else prev
      case None => prev
  }

  /** A link is fine: skipped, or resolved to an existing path. */
  predicate LinkOk(l: Link, file: string, existing: set<string>)
  {
    NormalizeLink(l.url, file).Some? ==> NormalizeLink(l.url, file).value in existing
  }

  /** A page has no broken link iff every link is skipped or resolves to an existing path. */
  lemma NoBrokenIff(file: string, links: seq<Link>, existing: set<string>)
    ensures BrokenIn(file, links, existing) == [] <==> forall k :: 0 <= k < |links| ==> LinkOk(links[k], file, existing)
  {
    if BrokenIn(file, links, existing) == [] {
      NoBrokenAllOk(file, links, existing);
    } else {
      var k := BrokenWitness(file, links, existing);
    }
  }

  lemma {:induction false} NoBrokenAllOk(file: string, links: seq<Link>, existing: set<string>)
    requires BrokenIn(file, links, existing) == []
    ensures forall k :: 0 <= k < |links| ==> LinkOk(links[k], file, existing)
    decreases |links|
  {
    if links != [] {
      var init := links[..|links| - 1];
      BrokenLast(file, links, existing);
      NoBrokenAllOk(file, init, existing);
      forall k | 0 <= k < |links|
        ensures LinkOk(links[k], file, existing)
      {
        if k < |init| {
          assert LinkOk(init[k], file, existing);
          assert init[k] == links[k];
        }
      }
    }
  }

  lemma {:induction false} BrokenWitness(file: string, links: seq<Link>, existing: set<string>) returns (k: nat)
    requires BrokenIn(file, links, existing) != []
    ensures k < |links| && !LinkOk(links[k], file, existing)
    decreases |links|
  {
    var init := links[..|links| - 1];
    BrokenLast(file, links, existing);
    if BrokenIn(file, init, existing) != [] {
      k := BrokenWitness(file, init, existing);
      assert init[k] == links[k];
    } else {
      k := |links| - 1;
    }
  }

  lemma BrokenLast(file: string, links: seq<Link>, existing: set<string>)
    requires links != []
    ensures BrokenIn(file, links, existing) == [] <==>
      BrokenIn(file, links[..|links| - 1], existing) == [] && LinkOk(links[|links| - 1], file, existing)
  {
  }

  /** The results after `checkFile(file)`. */
  function Checked(r: Results, file: string, page: PageFile, existing: set<string>): Results
  {
    match page
    case Missing => r.(missingFiles := r.missingFiles + [file])
    case Unreadable(e) => r.(warnings := r.warnings + [(file, e)])
    case Readable(m) =>
      var links := Extracted(m);
      var broken := BrokenIn(file, links, existing);
      r.(totalPages := r.totalPages + 1, totalLinks := r.totalLinks + |links|,
         brokenLinks := r.brokenLinks + broken,
         success := if broken == [] then r.success + [file] else r.success)
  }

  /** A path absent from the site map has no file. */
  function PageAt(site: map<string, PageFile>, file: string): PageFile
  {
    if file in site then site[file] else Missing
  }

  /** The results after checking `pages` in order. */
  function CheckedAll(r: Results, pages: seq<string>, site: map<string, PageFile>, existing: set<string>): Results
  {
    if pages == [] then r
    else Checked(CheckedAll(r, pages[..|pages| - 1], site, existing), pages[|pages| - 1], PageAt(site, pages[|pages| - 1]), existing)
  }

  /** The exit status: 1 iff a link is broken or a page is missing. */
  function ExitCode(r: Results): (code: int)
    ensures code == 0 || code == 1
  {
    if |r.brokenLinks| > 0 || |r.missingFiles| > 0 then 1 else 0
  }

  /** A page that passes: it exists and none of its links is broken (an unreadable page only warns). */
  predicate PageClean(file: string, page: PageFile, existing: set<string>)
  {
    page != Missing && (page.Readable? ==> BrokenIn(file, Extracted(page.matches), existing) == [])
  }

  /** The run exits 0 iff every listed page exists and none has a broken link. */
  lemma {:induction false} ExitZeroIff(r: Results, pages: seq<string>, site: map<string, PageFile>, existing: set<string>)
    ensures ExitCode(CheckedAll(r, pages, site, existing)) == 0 <==>
      ExitCode(r) == 0 && forall k :: 0 <= k < |pages| ==> PageClean(pages[k], PageAt(site, pages[k]), existing)
    decreases |pages|
  {
    if pages != [] {
      var init := pages[..|pages| - 1];
      ExitZeroIff(r, init, site, existing);
      assert forall k :: 0 <= k < |init| ==> init[k] == pages[k];
    }
  }

  /** Pages counted are the readable ones; every extracted link is counted, skipped ones included. */
  lemma {:induction false} PagesCounted(r: Results, pages: seq<string>, site: map<string, PageFile>, existing: set<string>)
    ensures CheckedAll(r, pages, site, existing).totalPages == r.totalPages + ReadableCount(pages, site)
    ensures CheckedAll(r, pages, site, existing).totalLinks == r.totalLinks + LinkTotal(pages, site)
    ensures |CheckedAll(r, pages, site, existing).missingFiles| == |r.missingFiles| + MissingCount(pages, site)
    decreases |pages|
  {
    if pages != [] {
      PagesCounted(r, pages[..|pages| - 1], site, existing);
    }
  }

  function ReadableCount(pages: seq<string>, site: map<string, PageFile>): nat
  {
    if pages == [] then 0
    else ReadableCount(pages[..|pages| - 1], site) + (if PageAt(site, pages[|pages| - 1]).Readable? then 1 else 0)
  }

  function MissingCount(pages: seq<string>, site: map<string, PageFile>): nat
  {
    if pages == [] then 0
    else MissingCount(pages[..|pages| - 1], site) + (if PageAt(site, pages[|pages| - 1]).Missing? then 1 else 0)
  }

  function LinkTotal(pages: seq<string>, site: map<string, PageFile>): nat
  {
    if pages == [] then 0
    else
      var page := PageAt(site, pages[|pages| - 1]);
      LinkTotal(pages[..|pages| - 1], site) + (if page.Readable? then |Extracted(page.matches)| else 0)
  }

  // ------------------------------------------------------------------ the results object

  class LinkReport {
    var totalPages: nat
    var totalLinks: nat
    var brokenLinks: seq<Broken>
    var missingFiles: seq<string>
    var warnings: seq<(string, string)>
    var success: seq<string>

    function State(): Results
      reads this
    {
      Results(totalPages, totalLinks, brokenLinks, missingFiles, warnings, success)
    }

    constructor()
      ensures State() == Results(0, 0, [], [], [], [])
    {
      totalPages := 0;
      totalLinks := 0;
      brokenLinks := [];
      missingFiles := [];
      warnings := [];
      success := [];
    }

    /**
     * `checkFile`: a missing page is recorded and false returned; an
     * unreadable one is warned about and false returned; otherwise every
     * link is counted, the broken ones are recorded, a page without broken
     * links is listed as a success, the page is counted and true returned.
     */
    method CheckFile(filePath: string, page: PageFile, existing: set<string>) returns (checked: bool)
      modifies this
      ensures State() == Checked(old(State()), filePath, page, existing)
      ensures checked <==> page.Readable?
    {
      match page
      case Missing =>
        missingFiles := missingFiles + [filePath];
        return false;
      case Unreadable(e) =>
        warnings := warnings + [(filePath, e)];
        return false;
      case Readable(m) =>
        var links := ExtractLinks(m);
        var pageBroken := CountBroken(filePath, links, existing);
        if pageBroken == 0 {
          success := success + [filePath];
        }
        totalPages := totalPages + 1;
        return true;
    }

    /** The `links.forEach` pass of `checkFile`; returns the page's broken-link count. */
    method CountBroken(filePath: string, links: seq<Link>, existing: set<string>) returns (pageBroken: nat)
      modifies this`totalLinks, this`brokenLinks
      ensures totalLinks == old(totalLinks) + |links|
      ensures brokenLinks == old(brokenLinks) + BrokenIn(filePath, links, existing)
      ensures pageBroken == |BrokenIn(filePath, links, existing)|
    {
      pageBroken := 0;
      for i := 0 to |links|
        invariant totalLinks == old(totalLinks) + i
        invariant brokenLinks == old(brokenLinks) + BrokenIn(filePath, links[..i], existing)
        invariant pageBroken == |BrokenIn(filePath, links[..i], existing)|
      {
        assert links[..i + 1][..i] == links[..i];
        totalLinks := totalLinks + 1;
        var normalized := NormalizeLink(links[i].url, filePath);
        if normalized.Some? {
          if normalized.value !in existing {
            brokenLinks := brokenLinks + [Broken(filePath, links[i].url, normalized.value, links[i].kind)];
            pageBroken := pageBroken + 1;
          }
        }
      }
      assert links[..|links|] == links;
    }

    /** `languagePages.forEach(checkFile)`. */
    method CheckAll(pages: seq<string>, site: map<string, PageFile>, existing: set<string>)
      modifies this
      ensures State() == CheckedAll(old(State()), pages, site, existing)
    {
      for i := 0 to |pages|
        invariant State() == CheckedAll(old(State()), pages[..i], site, existing)
      {
        assert pages[..i + 1][..i] == pages[..i];
        var _ := CheckFile(pages[i], PageAt(site, pages[i]), existing);
      }
      assert pages[..|pages|] == pages;
    }

    /** The final `process.exit` status. */
    function Exit(): (code: int)
      reads this
      ensures code == ExitCode(State())
    {
      if |brokenLinks| > 0 || |missingFiles| > 0 then 1 else 0
    }
  }
}

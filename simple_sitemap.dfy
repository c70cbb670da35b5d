/**
 * `scripts/generate-sitemap.py`: the fixed list of site pages written out as
 * a sitemap in the sitemaps.org Sitemap protocol 0.9, and the histogram of
 * their priorities. The day stamp, which the script reads from the clock,
 * is a parameter.
 */
module SimpleSitemap {
  import opened Strings

  const BaseUrl: string := "https://eleven11zz.github.io/thesitez2"
  const XmlDeclaration: string := "<?xml version=\"1.0\" encoding=\"UTF-8\"?>"
  const UrlsetOpen: string := "<urlset xmlns=\"http://www.sitemaps.org/schemas/sitemap/0.9\">"
  const UrlsetClose: string := "</urlset>"

  /** One entry of the page list. */
  datatype Page = Page(loc: string, priority: string, changefreq: string)

  /** The page list, in the order the sitemap lists it. */
  const SitemapPages: seq<Page> := [
    Page("/", "1.0", "daily"),
    Page("/index.html", "1.0", "daily"),
    Page("/iptv-products.html", "0.9", "weekly"),
    Page("/tv-box-products.html", "0.9", "weekly"),
    Page("/channel-lists.html", "0.8", "weekly"),
    Page("/channel-lists/iptv/english.html", "0.7", "monthly"),
    Page("/channel-lists/iptv/france.html", "0.7", "monthly"),
    Page("/channel-lists/iptv/german.html", "0.7", "monthly"),
    Page("/channel-lists/iptv/italy.html", "0.7", "monthly"),
    Page("/channel-lists/iptv/latin.html", "0.7", "monthly"),
    Page("/channel-lists/iptv/scandinavia.html", "0.7", "monthly"),
    Page("/channel-lists/iptv/india.html", "0.7", "monthly"),
    Page("/channel-lists/iptv/netherlands.html", "0.7", "monthly"),
    Page("/channel-lists/iptv/world.html", "0.7", "monthly"),
    Page("/setup.html", "0.8", "monthly"),
    Page("/setup/smart-one-iptv.html", "0.7", "monthly"),
    Page("/setup/iptv-extreme.html", "0.7", "monthly"),
    Page("/setup/smart-iptv.html", "0.7", "monthly"),
    Page("/sports/live.html", "0.8", "daily"),
    Page("/blog.html", "0.7", "weekly"),
    Page("/faq.html", "0.6", "monthly"),
    Page("/search.html", "0.5", "yearly")
  ]

  // ------------------------------------------------------------ the sitemap

  /** The six lines of one `<url>` block. */
  function UrlBlock(page: Page, today: string): seq<string>
  {
    ["  <url>",
     "    <loc>" + BaseUrl + page.loc + "</loc>",
     "    <lastmod>" + today + "</lastmod>",
     "    <changefreq>" + page.changefreq + "</changefreq>",
     "    <priority>" + page.priority + "</priority>",
     "  </url>"]
  }

  /** The blocks of the pages, one after the other. */
  function UrlBlocks(pages: seq<Page>, today: string): (r: seq<string>)
    ensures |r| == 6 * |pages|
  {
    if pages == [] then [] else UrlBlocks(pages[..|pages| - 1], today) + UrlBlock(pages[|pages| - 1], today)
  }

  /** The lines of the sitemap: declaration, `<urlset>`, the blocks, `</urlset>`. */
  function SitemapLines(pages: seq<Page>, today: string): seq<string>
  {
    [XmlDeclaration, UrlsetOpen] + UrlBlocks(pages, today) + [UrlsetClose]
  }

  /** The block of page `k` sits at lines `6k` to `6k + 5` of the blocks. */
  lemma {:induction false} BlockAt(pages: seq<Page>, today: string, k: nat)
    requires k < |pages|
    ensures UrlBlocks(pages, today)[6 * k..6 * k + 6] == UrlBlock(pages[k], today)
  {
    var init := pages[..|pages| - 1];
    if k < |init| {
      BlockAt(init, today, k);
      assert UrlBlocks(pages, today)[6 * k..6 * k + 6] == UrlBlocks(init, today)[6 * k..6 * k + 6];
    }
  }

  /**
   * The sitemap has the declaration and `<urlset>` first, `</urlset>` last,
   * and `3 + 6n` lines in all; block `k` is page `k`, with the base URL
   * before its location and the same day stamp as every other block.
   */
  lemma SitemapLayout(pages: seq<Page>, today: string, k: nat)
    requires k < |pages|
    ensures var lines := SitemapLines(pages, today);
      |lines| == 3 + 6 * |pages| &&
      lines[0] == XmlDeclaration && lines[1] == UrlsetOpen && lines[|lines| - 1] == UrlsetClose &&
      lines[2 + 6 * k..8 + 6 * k] == UrlBlock(pages[k], today) &&
      lines[3 + 6 * k] == "    <loc>" + BaseUrl + pages[k].loc + "</loc>" &&
      lines[4 + 6 * k] == "    <lastmod>" + today + "</lastmod>"
  {
    var lines := SitemapLines(pages, today);
    BlockAt(pages, today, k);
    assert lines[2 + 6 * k..8 + 6 * k] == UrlBlocks(pages, today)[6 * k..6 * k + 6];
  }

  /** `generate_sitemap`: the lines are appended block by block and joined with newlines. */
  method GenerateSitemap(pages: seq<Page>, today: string) returns (lines: seq<string>, xml: string)
    ensures lines == SitemapLines(pages, today)
    ensures xml == Join(lines, "\n")
  {
    lines := [XmlDeclaration, UrlsetOpen];
    for i := 0 to |pages|
      invariant lines == [XmlDeclaration, UrlsetOpen] + UrlBlocks(pages[..i], today)
    {
      assert pages[..i + 1][..i] == pages[..i];
      lines := lines + UrlBlock(pages[i], today);
    }
    assert pages[..|pages|] == pages;
    lines := lines + [UrlsetClose];
    xml := Join(lines, "\n");
  }

  // ------------------------------------------------------------ the priority histogram

  /** How many pages have priority `p`. */
  function CountPriority(pages: seq<Page>, p: string): (n: nat)
    ensures n <= |pages|
    ensures n > 0 <==> exists k :: 0 <= k < |pages| && pages[k].priority == p
  {
    if pages == [] then 0
    else
      var init := pages[..|pages| - 1];
      assert forall k :: 0 <= k < |init| ==> init[k] == pages[k];
      CountPriority(init, p) + (if pages[|pages| - 1].priority == p then 1 else 0)
  }

  /** The histogram `main` builds, one key per priority in the list. */
  function Histogram(pages: seq<Page>): map<string, nat>
  {
    map k | k in (set i | 0 <= i < |pages| :: pages[i].priority) :: CountPriority(pages, k)
  }

  /** `main`'s loop: `priorities[p] = priorities.get(p, 0) + 1` for each page. */
  method CountPriorities(pages: seq<Page>) returns (priorities: map<string, nat>)
    ensures priorities == Histogram(pages)
  {
    priorities := map[];
    for i := 0 to |pages|
      invariant priorities == Histogram(pages[..i])
    {
      var prefix := pages[..i + 1];
      assert prefix[..i] == pages[..i];
      var p := pages[i].priority;
      var old_count := if p in priorities then priorities[p] else 0;
      priorities := priorities[p := old_count + 1];
      HistogramStep(prefix, old_count);
    }
    assert pages[..|pages|] == pages;
  }

  lemma HistogramStep(pages: seq<Page>, c: nat)
    requires pages != []
    requires var init := pages[..|pages| - 1]; var p := pages[|pages| - 1].priority;
      c == (if p in Histogram(init) then Histogram(init)[p] else 0)
    ensures var init := pages[..|pages| - 1]; var p := pages[|pages| - 1].priority;
      Histogram(pages) == Histogram(init)[p := c + 1]
  {
    var init := pages[..|pages| - 1];
    var p := pages[|pages| - 1].priority;
    var h := Histogram(init)[p := c + 1];
    forall q | q in (set i | 0 <= i < |pages| :: pages[i].priority)
      ensures q in h
    {
      var i :| 0 <= i < |pages| && pages[i].priority == q;
      if i < |init| {
        assert init[i].priority == q;
      }
    }
    forall q | q in h
      ensures q in Histogram(pages) && Histogram(pages)[q] == h[q]
    {
      if q != p {
        var i :| 0 <= i < |init| && init[i].priority == q;
        assert pages[i].priority == q;
      } else if p !in Histogram(init) {
        assert CountPriority(init, p) == 0;
        assert pages[|pages| - 1].priority == p;
      }
    }
  }

  /** How many times `v` occurs in `keys`. */
  function Occurrences(keys: seq<string>, v: string): nat
  {
    if keys == [] then 0 else (if keys[0] == v then 1 else 0) + Occurrences(keys[1..], v)
  }

  /** The counts of the listed priorities, added up. */
  function SumCounts(keys: seq<string>, pages: seq<Page>): nat
  {
    if keys == [] then 0 else CountPriority(pages, keys[0]) + SumCounts(keys[1..], pages)
  }

  lemma {:induction false} SumCountsStep(keys: seq<string>, pages: seq<Page>)
    requires pages != []
    ensures SumCounts(keys, pages) ==
      SumCounts(keys, pages[..|pages| - 1]) + Occurrences(keys, pages[|pages| - 1].priority)
  {
    if keys != [] {
      SumCountsStep(keys[1..], pages);
    }
  }

  lemma {:induction false} OccursOnce(keys: seq<string>, v: string)
    requires v in keys
    requires forall i, j :: 0 <= i < j < |keys| ==> keys[i] != keys[j]
    ensures Occurrences(keys, v) == 1
  {
    if keys[0] == v {
      OccursNever(keys[1..], v);
    } else {
      OccursOnce(keys[1..], v);
    }
  }

  lemma {:induction false} OccursNever(keys: seq<string>, v: string)
    requires v !in keys
    ensures Occurrences(keys, v) == 0
  {
    if keys != [] {
      OccursNever(keys[1..], v);
    }
  }

  /** Listing every priority once, the counts add up to the number of pages. */
  lemma {:induction false} SumCountsIsLength(keys: seq<string>, pages: seq<Page>)
    requires forall i, j :: 0 <= i < j < |keys| ==> keys[i] != keys[j]
    requires forall k :: 0 <= k < |pages| ==> pages[k].priority in keys
    ensures SumCounts(keys, pages) == |pages|
  {
    if pages == [] {
      SumCountsEmpty(keys);
    } else {
      var init := pages[..|pages| - 1];
      SumCountsIsLength(keys, init);
      SumCountsStep(keys, pages);
      OccursOnce(keys, pages[|pages| - 1].priority);
    }
  }

  lemma {:induction false} SumCountsEmpty(keys: seq<string>)
    ensures SumCounts(keys, []) == 0
  {
    if keys != [] {
      SumCountsEmpty(keys[1..]);
    }
  }

  /** The histogram's counts, read in any order that lists each key once, sum to the number of pages. */
  lemma HistogramTotal(pages: seq<Page>, keys: seq<string>)
    requires forall i, j :: 0 <= i < j < |keys| ==> keys[i] != keys[j]
    requires forall k :: k in keys <==> k in Histogram(pages)
    ensures SumCounts(keys, pages) == |pages|
  {
    forall k | 0 <= k < |pages|
      ensures pages[k].priority in keys
    {
      assert pages[k].priority in Histogram(pages);
    }
    SumCountsIsLength(keys, pages);
  }
}

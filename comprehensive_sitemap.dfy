/**
 * `scripts/generate-comprehensive-sitemap.py`: every HTML page of every
 * language directory becomes one `<url>` entry of a sitemap in the
 * sitemaps.org Sitemap protocol 0.9, with an `xhtml:link` hreflang
 * alternate for each other language.
 *
 * The site is the list of file paths relative to the site root, in the
 * order a directory walk lists them; the language directories that exist
 * are a set; modification dates are a map from path to day, with the
 * current day as the fallback. The XML tree is the list of entries.
 */
module ComprehensiveSitemap {
  import opened Wrappers
  import opened Strings

  const BaseUrl: string := "https://web.tvmaster.vip"

  const Languages: seq<string> := ["en", "de", "fr", "it", "nl", "no", "sv", "th"]

  /** The priority and change frequency of a page. */
  datatype Settings = Settings(priority: string, changefreq: string)

  const PageSettings: seq<(string, Settings)> := [
    ("index.html", Settings("1.0", "daily")),
    ("iptv-products.html", Settings("0.9", "weekly")),
    ("tv-box-products.html", Settings("0.9", "weekly")),
    ("channel-lists.html", Settings("0.8", "weekly")),
    ("blog.html", Settings("0.8", "daily")),
    ("faq.html", Settings("0.8", "monthly")),
    ("epg.html", Settings("0.7", "daily")),
    ("search.html", Settings("0.5", "monthly")),
    ("blog/complete-iptv-guide-2025.html", Settings("0.9", "weekly")),
    ("blog/best-iptv-service-2025.html", Settings("0.9", "weekly")),
    ("blog/iptv-smart-tv-guide-2025.html", Settings("0.9", "weekly")),
    ("blog/4k-iptv-streaming-guide-2025.html", Settings("0.9", "weekly")),
    ("iptv-vs-cable.html", Settings("0.8", "monthly")),
    ("setup/index.html", Settings("0.7", "monthly")),
    ("setup/smart-tv.html", Settings("0.7", "monthly")),
    ("setup/android-tv.html", Settings("0.7", "monthly")),
    ("setup/fire-tv.html", Settings("0.7", "monthly")),
    ("setup/mobile.html", Settings("0.7", "monthly")),
    ("setup/desktop.html", Settings("0.7", "monthly")),
    ("setup/mag-box.html", Settings("0.7", "monthly")),
    ("sports/live.html", Settings("0.7", "daily")),
    ("sports/index.html", Settings("0.6", "weekly")),
    ("devices/index.html", Settings("0.6", "monthly")),
    ("country/index.html", Settings("0.6", "monthly"))
  ]

  const DefaultSettings: Settings := Settings("0.5", "monthly")

  const ExcludePatterns: seq<string> := ["404.html", "index.backup", ".backup."]

  // ------------------------------------------------------------ paths and URLs

  /** The directory of a language relative to the site root, with its trailing `/`. */
  function LangDir(code: string): (r: string)
    ensures code == "en" ==> r == []
    ensures code != "en" ==> r == code + "/"
  {
    if code == "en" then "" else code + "/"
  }

  /** `get_url_for_page`: English pages sit at the root of the site. */
  function UrlForPage(code: string, page: string): (r: string)
    ensures code == "en" ==> r == BaseUrl + "/" + page
    ensures code != "en" ==> r == BaseUrl + "/" + code + "/" + page
  {
    if code == "en" then BaseUrl + "/" + page else BaseUrl + "/" + code + "/" + page
  }

  /** Every language's URL of a page is the base URL, `/`, the language's directory and the page. */
  lemma UrlMirrorsDirectory(code: string, page: string)
    ensures UrlForPage(code, page) == BaseUrl + "/" + LangDir(code) + page
  {
  }

  // ------------------------------------------------------------ page settings

  /** `PAGE_SETTINGS[key]` on the table's entries, the first entry with that key. */
  function Lookup(table: seq<(string, Settings)>, key: string): Option<Settings>
  {
    if table == [] then None
    else if table[0].0 == key then Some(table[0].1)
    else Lookup(table[1..], key)
  }

  lemma {:induction false} LookupFirst(table: seq<(string, Settings)>, key: string, i: nat)
    requires i < |table| && table[i].0 == key
    requires forall j :: 0 <= j < i ==> table[j].0 != key
    ensures Lookup(table, key) == Some(table[i].1)
  {
    if i > 0 {
      LookupFirst(table[1..], key, i - 1);
    }
  }

  /** Windows separators turned into `/`. */
  function Normalize(path: string): string
  {
    ReplaceAll(path, "\\", "/")
  }

  lemma {:induction false} NormalizeClears(path: string)
    ensures '\\' !in Normalize(path)
    decreases |path|
  {
    if path != [] {
      NormalizeClears(path[1..]);
      if "\\" <= path {
        assert Normalize(path) == "/" + Normalize(path[1..]);
      } else {
        assert Normalize(path) == [path[0]] + Normalize(path[1..]);
        assert path[0] != '\\' by {
          assert !("\\" <= path);
        }
      }
    }
  }

  /** A one-character pattern cannot straddle a joint, so normalizing distributes over concatenation. */
  lemma {:induction false} NormalizeConcat(a: string, b: string)
    ensures Normalize(a + b) == Normalize(a) + Normalize(b)
    decreases |a|
  {
    if a == [] {
      assert a + b == b;
    } else {
      assert (a + b)[1..] == a[1..] + b;
      assert (a + b)[0] == a[0];
      NormalizeConcat(a[1..], b);
    }
  }

  /** Normalizing twice changes nothing. */
  lemma NormalizeIdempotent(path: string)
    ensures Normalize(Normalize(path)) == Normalize(path)
  {
    NormalizeClears(path);
    ContainsChar(Normalize(path), '\\');
    ReplaceAllNoMatch(Normalize(path), "\\", "/");
  }

  /** A path of a section (`blog/`, `setup/`, `sports/`) that ends in `.html`. */
  predicate InSection(path: string, section: string)
  {
    section <= path && EndsWith(path, ".html")
  }

  /**
   * `get_page_settings`: the table entry of the normalized path, else the
   * rule of its section, else the default.
   */
  function GetPageSettings(table: seq<(string, Settings)>, path: string): Settings
  {
    var p := Normalize(path);
    match Lookup(table, p)
      case Some(s) => s
      case None =>
        if InSection(p, "blog/") then Settings("0.8", "weekly")
        else if InSection(p, "setup/") then Settings("0.7", "monthly")
        else if InSection(p, "sports/") then Settings("0.6", "weekly")
        else DefaultSettings
  }

  /** An exact entry of the table wins over the section rules. */
  lemma TableEntryWins(path: string, i: nat)
    requires i < |PageSettings| && PageSettings[i].0 == Normalize(path)
    requires forall j :: 0 <= j < i ==> PageSettings[j].0 != Normalize(path)
    ensures GetPageSettings(PageSettings, path) == PageSettings[i].1
  {
    LookupFirst(PageSettings, Normalize(path), i);
  }

  /** Outside the table, the section of the normalized path decides, and the default covers the rest. */
  lemma SectionRules(path: string)
    requires Lookup(PageSettings, Normalize(path)).None?
    ensures var p := Normalize(path);
      (InSection(p, "blog/") ==> GetPageSettings(PageSettings, path) == Settings("0.8", "weekly")) &&
      (!InSection(p, "blog/") && InSection(p, "setup/") ==> GetPageSettings(PageSettings, path) == Settings("0.7", "monthly")) &&
      (!InSection(p, "blog/") && !InSection(p, "setup/") && InSection(p, "sports/") ==> GetPageSettings(PageSettings, path) == Settings("0.6", "weekly")) &&
      (!InSection(p, "blog/") && !InSection(p, "setup/") && !InSection(p, "sports/") ==> GetPageSettings(PageSettings, path) == DefaultSettings)
  {
  }

  lemma NormalizeBlogDir()
    ensures Normalize("blog\\") == "blog/"
  {
    NormalizeConcat("blog", "\\");
    ContainsChar("blog", '\\');
    ReplaceAllNoMatch("blog", "\\", "/");
    assert Normalize("\\") == "/" + Normalize([]);
    assert "blog" + "\\" == "blog\\";
  }

  lemma NormalizeHtml()
    ensures Normalize(".html") == ".html"
  {
    ContainsChar(".html", '\\');
    ReplaceAllNoMatch(".html", "\\", "/");
  }

  /** A blog path written with a `\` separator normalizes to the `blog/` section. */
  lemma NormalizeBlogPath(name: string)
    ensures Normalize("blog\\" + name + ".html") == "blog/" + Normalize(name) + ".html"
  {
    var a, b := "blog\\", name + ".html";
    NormalizeConcat(a, b);
    NormalizeConcat(name, ".html");
    NormalizeBlogDir();
    NormalizeHtml();
    assert "blog\\" + name + ".html" == a + b;
  }

  /** A blog article that the table does not name gets the blog settings, whatever its separators. */
  lemma BlogArticleSettings(table: seq<(string, Settings)>, name: string)
    requires Lookup(table, Normalize("blog\\" + name + ".html")).None?
    ensures GetPageSettings(table, "blog\\" + name + ".html") == Settings("0.8", "weekly")
  {
    NormalizeBlogPath(name);
    var p := "blog/" + Normalize(name) + ".html";
    assert p[|p| - 5..] == ".html";
    assert InSection(p, "blog/");
  }

  /** A path written with `\` separators gets the settings of the same path written with `/`. */
  lemma SettingsIgnoreSeparators(path: string)
    ensures GetPageSettings(PageSettings, Normalize(path)) == GetPageSettings(PageSettings, path)
  {
    NormalizeIdempotent(path);
  }

  // ------------------------------------------------------------ finding pages

  /** A directory segment the walk descends into. */
  predicate WalkedDir(d: string)
  {
    !(d != [] && d[0] == '.') && d != "node_modules"
  }

  /** A file name that is listed: an `.html` name holding none of the exclude patterns. */
  predicate ListedName(name: string)
  {
    EndsWith(name, ".html") && forall k :: 0 <= k < |ExcludePatterns| ==> !Contains(name, ExcludePatterns[k])
  }

  /** A path below the walked directory that the walk reports. */
  predicate Listed(rel: string)
  {
    var segs := Split(rel, '/');
    ListedName(segs[|segs| - 1]) && forall k :: 0 <= k < |segs| - 1 ==> WalkedDir(segs[k])
  }

  /** `find_html_files(dir)`: the listed paths below `dir`, relative to it, in walk order. */
  function HtmlFiles(site: seq<string>, dir: string): (r: seq<string>)
    ensures |r| <= |site|
    ensures forall k :: 0 <= k < |r| ==> Listed(r[k]) && dir + r[k] in site
  {
    if site == [] then []
    else
      var init := HtmlFiles(site[..|site| - 1], dir);
      var p := site[|site| - 1];
      if dir <= p && Listed(p[|dir|..]) then
        assert dir + p[|dir|..] == p;
        init + [p[|dir|..]]
      else init
  }

  /** Every listed path below `dir` is found. */
  lemma {:induction false} HtmlFilesComplete(site: seq<string>, dir: string, i: nat)
    requires i < |site| && dir <= site[i] && Listed(site[i][|dir|..])
    ensures site[i][|dir|..] in HtmlFiles(site, dir)
  {
    if i < |site| - 1 {
      HtmlFilesComplete(site[..|site| - 1], dir, i);
    }
  }

  /** `find_html_files`: the walk over the site, appending each listed file. */
  method FindHtmlFiles(site: seq<string>, dir: string) returns (files: seq<string>)
    ensures files == HtmlFiles(site, dir)
  {
    files := [];
    for i := 0 to |site|
      invariant files == HtmlFiles(site[..i], dir)
    {
      assert site[..i + 1][..i] == site[..i];
      var p := site[i];
      if dir <= p && Listed(p[|dir|..]) {
        files := files + [p[|dir|..]];
      }
    }
    assert site[..|site|] == site;
  }

  /**
   * The English directory is the site root, so its walk also reports the
   * pages of the language directories below it.
   */
  lemma RootWalkSeesLanguagePages(site: seq<string>, i: nat)
    requires i < |site| && Listed(site[i])
    ensures site[i] in HtmlFiles(site, LangDir("en"))
  {
    assert site[i][|LangDir("en")|..] == site[i];
    HtmlFilesComplete(site, LangDir("en"), i);
  }

  // ------------------------------------------------------------ the sitemap

  /** One `<url>` element: location, last modification, settings and alternates. */
  datatype UrlEntry = UrlEntry(loc: string, lastmod: string, changefreq: string, priority: string, alternates: seq<(string, string)>)

  /** The `(hreflang, href)` alternates: every language of `langs` other than `code`, in order. */
  function Alternates(langs: seq<string>, code: string, page: string): (r: seq<(string, string)>)
    ensures |r| <= |langs|
    ensures forall k :: 0 <= k < |r| ==> r[k].0 != code && r[k].0 in langs && r[k].1 == UrlForPage(r[k].0, page)
    ensures forall l :: l in langs && l != code ==> exists k :: 0 <= k < |r| && r[k].0 == l
  {
    if langs == [] then []
    else
      var rest := Alternates(langs[1..], code, page);
      assert forall l :: l in langs ==> l == langs[0] || l in langs[1..];
      if langs[0] != code then
        var r := [(langs[0], UrlForPage(langs[0], page))] + rest;
        assert forall l :: l in langs[1..] && l != code ==> exists k :: 0 <= k < |r| && r[k].0 == l by {
          forall l | l in langs[1..] && l != code ensures exists k :: 0 <= k < |r| && r[k].0 == l {
            var k :| 0 <= k < |rest| && rest[k].0 == l;
            assert r[k + 1].0 == l;
          }
        }
        assert r[0].0 == langs[0];
        r
      else rest
  }

  predicate Distinct(langs: seq<string>)
  {
    forall i, j :: 0 <= i < j < |langs| ==> langs[i] != langs[j]
  }

  /** With distinct languages, a language of the list gets exactly one alternate per other language. */
  lemma {:induction false} AlternatesCount(langs: seq<string>, code: string, page: string)
    requires Distinct(langs)
    ensures code in langs ==> |Alternates(langs, code, page)| == |langs| - 1
    ensures code !in langs ==> |Alternates(langs, code, page)| == |langs|
  {
    if langs != [] {
      assert Distinct(langs[1..]) by {
        forall i, j | 0 <= i < j < |langs[1..]| ensures langs[1..][i] != langs[1..][j] {
          assert langs[1..][i] == langs[i + 1] && langs[1..][j] == langs[j + 1];
        }
      }
      AlternatesCount(langs[1..], code, page);
      if langs[0] == code {
        assert code !in langs[1..] by {
          forall j | 0 <= j < |langs[1..]| ensures langs[1..][j] != code {
            assert langs[1..][j] == langs[j + 1];
          }
        }
      } else {
        assert code in langs ==> code in langs[1..];
      }
    }
  }

  /** Each of the eight languages' pages carries seven alternates, none of them its own language. */
  lemma SevenAlternates(code: string, page: string)
    requires code in Languages
    ensures var r := Alternates(Languages, code, page);
      |r| == |Languages| - 1 == 7 && forall k :: 0 <= k < |r| ==> r[k].0 != code
  {
    AlternatesCount(Languages, code, page);
  }

  /** The entry of one page of one language. */
  function Entry(all: seq<string>, table: seq<(string, Settings)>, code: string, page: string, lastmods: map<string, string>, today: string): (r: UrlEntry)
    ensures r.loc == UrlForPage(code, page)
  {
    var path := LangDir(code) + page;
    var settings := GetPageSettings(table, page);
    UrlEntry(UrlForPage(code, page), if path in lastmods then lastmods[path] else today,
      settings.changefreq, settings.priority, Alternates(all, code, page))
  }

  function Entries(all: seq<string>, table: seq<(string, Settings)>, code: string, pages: seq<string>, lastmods: map<string, string>, today: string): (r: seq<UrlEntry>)
    ensures |r| == |pages|
    decreases |pages|
  {
    if pages == [] then []
    else Entries(all, table, code, pages[..|pages| - 1], lastmods, today) + [Entry(all, table, code, pages[|pages| - 1], lastmods, today)]
  }

  /** The entries of the languages whose directory exists, in language order. */
  function Sitemap(all: seq<string>, table: seq<(string, Settings)>, langs: seq<string>, site: seq<string>, existing: set<string>, lastmods: map<string, string>, today: string): seq<UrlEntry>
  {
    if langs == [] then []
    else
      var init := Sitemap(all, table, langs[..|langs| - 1], site, existing, lastmods, today);
      var code := langs[|langs| - 1];
      if code in existing then init + Entries(all, table, code, HtmlFiles(site, LangDir(code)), lastmods, today) else init
  }

  /** The number of pages the walks of the existing language directories find. */
  function PageCount(langs: seq<string>, site: seq<string>, existing: set<string>): nat
  {
    if langs == [] then 0
    else
      var code := langs[|langs| - 1];
      PageCount(langs[..|langs| - 1], site, existing) + (if code in existing then |HtmlFiles(site, LangDir(code))| else 0)
  }

  /** One entry per page found: the sitemap has exactly as many entries as the walks found pages. */
  lemma {:induction false} SitemapSize(all: seq<string>, table: seq<(string, Settings)>, langs: seq<string>, site: seq<string>, existing: set<string>, lastmods: map<string, string>, today: string)
    ensures |Sitemap(all, table, langs, site, existing, lastmods, today)| == PageCount(langs, site, existing)
  {
    if langs != [] {
      SitemapSize(all, table, langs[..|langs| - 1], site, existing, lastmods, today);
    }
  }

  lemma EntriesStep(all: seq<string>, table: seq<(string, Settings)>, code: string, files: seq<string>, j: nat, lastmods: map<string, string>, today: string)
    requires j < |files|
    ensures Entries(all, table, code, files[..j + 1], lastmods, today)
      == Entries(all, table, code, files[..j], lastmods, today) + [Entry(all, table, code, files[j], lastmods, today)]
  {
    assert files[..j + 1][..j] == files[..j];
  }

  /** The inner loop of `generate_sitemap`: one entry per page of one language, each counted. */
  method AddLanguage(all: seq<string>, table: seq<(string, Settings)>, code: string, files: seq<string>, lastmods: map<string, string>, today: string)
    returns (entries: seq<UrlEntry>, added: nat)
    ensures entries == Entries(all, table, code, files, lastmods, today)
    ensures added == |entries|
  {
    entries, added := [], 0;
    for j := 0 to |files|
      invariant entries == Entries(all, table, code, files[..j], lastmods, today)
      invariant added == j
    {
      EntriesStep(all, table, code, files, j, lastmods, today);
      var e := Entry(all, table, code, files[j], lastmods, today);
      entries := entries + [e];
      added := added + 1;
    }
    assert files[..|files|] == files;
  }

  /**
   * `generate_sitemap`: the languages in order, skipping a missing
   * directory, one entry per page found, counted in `urlsAdded`.
   */
  method GenerateSitemap(site: seq<string>, existing: set<string>, lastmods: map<string, string>, today: string)
    returns (urls: seq<UrlEntry>, urlsAdded: nat)
    ensures urls == Sitemap(Languages, PageSettings, Languages, site, existing, lastmods, today)
    ensures urlsAdded == PageCount(Languages, site, existing)
  {
    urls, urlsAdded := [], 0;
    for i := 0 to |Languages|
      invariant urls == Sitemap(Languages, PageSettings, Languages[..i], site, existing, lastmods, today)
      invariant urlsAdded == |urls|
    {
      assert Languages[..i + 1][..i] == Languages[..i];
      if Languages[i] in existing {
        var files := FindHtmlFiles(site, LangDir(Languages[i]));
        var entries, added := AddLanguage(Languages, PageSettings, Languages[i], files, lastmods, today);
        urls := urls + entries;
        urlsAdded := urlsAdded + added;
      }
    }
    assert Languages[..|Languages|] == Languages;
    SitemapSize(Languages, PageSettings, Languages, site, existing, lastmods, today);
  }

  // ------------------------------------------------------------ validation

  /** The limits of one sitemap file in the Sitemap protocol: 50 MB and 50,000 URLs. */
  const MaxBytes: nat := 50 * 1024 * 1024
  const MaxUrls: nat := 50000

  /** `validate_sitemap`'s two warnings: file too large, too many URLs. */
  function SitemapWarnings(fileSize: nat, urlCount: nat): (r: (bool, bool))
    ensures r.0 <==> fileSize > 52428800
    ensures r.1 <==> urlCount > 50000
  {
    (fileSize > MaxBytes, urlCount > MaxUrls)
  }

  /** The URL-count warning of a generated sitemap fires exactly when the walks found more than 50,000 pages. */
  lemma CountWarning(site: seq<string>, existing: set<string>, lastmods: map<string, string>, today: string, fileSize: nat)
    ensures SitemapWarnings(fileSize, |Sitemap(Languages, PageSettings, Languages, site, existing, lastmods, today)|).1
      <==> PageCount(Languages, site, existing) > 50000
  {
    SitemapSize(Languages, PageSettings, Languages, site, existing, lastmods, today);
  }
}

/**
 * `scripts/update-seo-metadata.py`: every page of every language has its
 * `{{...}}` placeholders replaced by the values of that language's SEO
 * configuration block for the page type.
 *
 * The configuration file is the `Config` value; the page files are a map
 * from paths relative to the site root to their contents, and the language
 * directories that exist are a set of language codes.
 */
module SeoMetadata {
  import opened Wrappers
  import opened Strings

  // ------------------------------------------------------------ configuration

  /** The SEO block of one page type; the `og_*` keys are optional. */
  datatype SeoConfig = SeoConfig(title: string, description: string, keywords: string, ogTitle: Option<string>, ogDescription: Option<string>)

  /** One entry of `config["languages"]`. */
  datatype LangEntry = LangEntry(path: string, locale: string, name: string, seo: map<string, SeoConfig>, siteUrl: string, siteDescription: string)

  /** The configuration file; `languages` keeps the file's key order. */
  datatype Config = Config(baseUrl: string, languages: seq<(string, LangEntry)>, supportedPages: seq<string>)

  /** `config["languages"].get(code)`: the first entry with that code. */
  function LookupLang(langs: seq<(string, LangEntry)>, code: string): (r: Option<LangEntry>)
    ensures r.Some? <==> exists i :: 0 <= i < |langs| && langs[i].0 == code
    ensures r.Some? ==> exists i :: 0 <= i < |langs| && langs[i] == (code, r.value)
  {
    if langs == [] then None
    else if langs[0].0 == code then Some(langs[0].1)
    else
      var r := LookupLang(langs[1..], code);
      assert r.Some? ==> langs[1..][IndexWitness(langs[1..], code, r.value)] == (code, r.value);
      r
  }

  /** An index at which a found entry sits (used to carry the witness up one level). */
  function IndexWitness(langs: seq<(string, LangEntry)>, code: string, e: LangEntry): (i: nat)
    requires exists i :: 0 <= i < |langs| && langs[i] == (code, e)
    ensures i < |langs| && langs[i] == (code, e)
  {
    if langs[0] == (code, e) then 0
    else
      assert exists i :: 0 <= i < |langs[1..]| && langs[1..][i] == (code, e) by {
        var k :| 0 <= k < |langs| && langs[k] == (code, e);
        assert k > 0 && langs[1..][k - 1] == langs[k];
      }
      1 + IndexWitness(langs[1..], code, e)
  }

  // ------------------------------------------------------------ page types

  const PageTypeMap: map<string, string> := map[
    "index.html" := "home",
    "blog.html" := "blog",
    "faq.html" := "faq",
    "iptv-products.html" := "products",
    "tv-box-products.html" := "products",
    "channel-lists.html" := "channels",
    "epg.html" := "channels"
  ]

  /** The configuration key of a page: its mapped type, or "home" for an unmapped file name. */
  function GetPageType(filename: string): (r: string)
    ensures filename in PageTypeMap ==> r == PageTypeMap[filename]
    ensures filename !in PageTypeMap ==> r == "home"
    ensures r in {"home", "blog", "faq", "products", "channels"}
  {
    if filename in PageTypeMap then PageTypeMap[filename] else "home"
  }

  /** The two product pages share one configuration block, and so do the channel pages. */
  lemma SharedPageTypes()
    ensures GetPageType("iptv-products.html") == GetPageType("tv-box-products.html") == "products"
    ensures GetPageType("channel-lists.html") == GetPageType("epg.html") == "channels"
    ensures GetPageType("index.html") == GetPageType("about.html") == "home"
  {
    assert "about.html" !in PageTypeMap;
  }

  /** The directory of a language, relative to the site root: English lives at the root. */
  function LangDir(code: string): (r: string)
    ensures code == "en" <==> r == []
    ensures code != "en" ==> r == code + "/"
  {
    if code == "en" then "" else code + "/"
  }

  // ------------------------------------------------------------ placeholders

  /** The fifteen placeholder values, one field per key. */
  datatype Placeholders = Placeholders(
    pageTitle: string, pageDescription: string, pageKeywords: string, canonicalUrl: string,
    ogTitle: string, ogDescription: string, ogLocale: string,
    twitterTitle: string, twitterDescription: string,
    languageName: string, langCode: string, pagePath: string, cssPathPrefix: string,
    siteUrl: string, siteDescription: string)

  /** The placeholder dictionary in its insertion order, which is the order of replacement. */
  function Pairs(p: Placeholders): (r: seq<(string, string)>)
    ensures |r| == 15
    ensures forall i :: 0 <= i < |r| ==> IsKey(r[i].0)
  {
    [("{{PAGE_TITLE}}", p.pageTitle), ("{{PAGE_DESCRIPTION}}", p.pageDescription),
     ("{{PAGE_KEYWORDS}}", p.pageKeywords), ("{{CANONICAL_URL}}", p.canonicalUrl),
     ("{{OG_TITLE}}", p.ogTitle), ("{{OG_DESCRIPTION}}", p.ogDescription), ("{{OG_LOCALE}}", p.ogLocale),
     ("{{TWITTER_TITLE}}", p.twitterTitle), ("{{TWITTER_DESCRIPTION}}", p.twitterDescription),
     ("{{LANGUAGE_NAME}}", p.languageName), ("{{LANG_CODE}}", p.langCode), ("{{PAGE_PATH}}", p.pagePath),
     ("{{CSS_PATH_PREFIX}}", p.cssPathPrefix), ("{{SITE_URL}}", p.siteUrl), ("{{SITE_DESCRIPTION}}", p.siteDescription)]
  }

  /** A placeholder token: `{{`, a name, `}}`. */
  predicate IsKey(k: string)
  {
    |k| >= 4 && k[..2] == "{{" && k[|k| - 2..] == "}}"
  }

  /**
   * `build_placeholders`. The block for the page type falls back to the
   * "home" block, but Python evaluates the `get` default first, so a
   * language without a "home" block raises `KeyError` even when the page
   * type has a block of its own: that is `None` here.
   */
  function BuildPlaceholders(baseUrl: string, code: string, entry: LangEntry, pageType: string, filename: string): (r: Option<Placeholders>)
    ensures r.None? <==> "home" !in entry.seo
    ensures r.Some? && pageType in entry.seo ==> r.value.pageTitle == entry.seo[pageType].title
    ensures r.Some? && pageType !in entry.seo ==> r.value.pageTitle == entry.seo["home"].title
    ensures r.Some? && entry.path != [] ==>
      r.value.canonicalUrl == baseUrl + "/" + entry.path + "/" + filename && r.value.cssPathPrefix == "../"
    ensures r.Some? && entry.path == [] ==>
      r.value.canonicalUrl == baseUrl + "/" + filename && r.value.cssPathPrefix == "./"
    ensures r.Some? ==> r.value.langCode == code && r.value.pagePath == filename && r.value.ogLocale == entry.locale
  {
    if "home" !in entry.seo then None
    else
      var seo := if pageType in entry.seo then entry.seo[pageType] else entry.seo["home"];
      var canonical := if entry.path != [] then baseUrl + "/" + entry.path + "/" + filename else baseUrl + "/" + filename;
      var prefix := if entry.path != [] then "../" else "./";
      Some(Placeholders(
        seo.title, seo.description, seo.keywords, canonical,
        seo.ogTitle.GetOr(seo.title), seo.ogDescription.GetOr(seo.description), entry.locale,
        seo.ogTitle.GetOr(seo.title), seo.ogDescription.GetOr(seo.description),
        entry.name, code, filename, prefix,
        entry.siteUrl, entry.siteDescription))
  }

  /**
   * The social titles and descriptions: Open Graph and Twitter always agree,
   * and each falls back to the page's own title or description when the
   * block has no `og_*` value.
   */
  lemma SocialFallbacks(baseUrl: string, code: string, entry: LangEntry, pageType: string, filename: string)
    requires "home" in entry.seo
    ensures var p := BuildPlaceholders(baseUrl, code, entry, pageType, filename).value;
      var seo := if pageType in entry.seo then entry.seo[pageType] else entry.seo["home"];
      p.ogTitle == p.twitterTitle && p.ogDescription == p.twitterDescription &&
      (seo.ogTitle.None? ==> p.ogTitle == p.pageTitle) &&
      (seo.ogTitle.Some? ==> p.ogTitle == seo.ogTitle.value) &&
      (seo.ogDescription.None? ==> p.ogDescription == p.pageDescription) &&
      (seo.ogDescription.Some? ==> p.ogDescription == seo.ogDescription.value)
  {
  }

  /** A canonical URL always ends in `/` and the page's own file name. */
  lemma CanonicalEndsWithPage(baseUrl: string, code: string, entry: LangEntry, pageType: string, filename: string)
    requires "home" in entry.seo
    ensures var u := BuildPlaceholders(baseUrl, code, entry, pageType, filename).value.canonicalUrl;
      |u| > |filename| && u[|u| - |filename| - 1..] == "/" + filename
  {
  }

  // ------------------------------------------------------------ replacement

  predicate KeysNonEmpty(ps: seq<(string, string)>)
  {
    forall i :: 0 <= i < |ps| ==> ps[i].0 != []
  }

  /** Each key replaced everywhere by its value, one key after the other. */
  function ReplaceSeq(content: string, ps: seq<(string, string)>): string
    requires KeysNonEmpty(ps)
    decreases |ps|
  {
    if ps == [] then content
    else ReplaceSeq(ReplaceAll(content, ps[0].0, ps[0].1), ps[1..])
  }

  /** `replace_placeholders`: the loop over the dictionary. */
  method ReplacePlaceholders(content: string, ps: seq<(string, string)>) returns (r: string)
    requires KeysNonEmpty(ps)
    ensures r == ReplaceSeq(content, ps)
  {
    r := content;
    for i := 0 to |ps|
      invariant ReplaceSeq(content, ps) == ReplaceSeq(r, ps[i..])
    {
      assert ps[i..][1..] == ps[i + 1..];
      r := ReplaceAll(r, ps[i].0, ps[i].1);
    }
    assert ps[|ps|..] == [];
  }

  /** A page without any of the keys is left as it is. */
  lemma {:induction false} NoKeysUnchanged(content: string, ps: seq<(string, string)>)
    requires KeysNonEmpty(ps)
    requires forall i :: 0 <= i < |ps| ==> !Contains(content, ps[i].0)
    ensures ReplaceSeq(content, ps) == content
    decreases |ps|
  {
    if ps != [] {
      ReplaceAllNoMatch(content, ps[0].0, ps[0].1);
      assert forall i :: 0 <= i < |ps[1..]| ==> !Contains(content, ps[1..][i].0) by {
        forall i | 0 <= i < |ps[1..]| ensures !Contains(content, ps[1..][i].0) {
          assert ps[1..][i] == ps[i + 1];
        }
      }
      NoKeysUnchanged(content, ps[1..]);
    }
  }

  /**
   * No value can help form a key: no key occurs inside a copy of a value,
   * nor across the boundary between a value and the text around it.
   */
  ghost predicate ValuesClear(ps: seq<(string, string)>)
  {
    forall i, j :: 0 <= i < |ps| && 0 <= j < |ps| ==> NoOverlap(ps[i].0, ps[j].1)
  }

  /** A key that is absent stays absent through replacements whose values cannot form it. */
  lemma {:induction false} StaysAbsent(s: string, ps: seq<(string, string)>, q: string)
    requires KeysNonEmpty(ps) && q != [] && !Contains(s, q)
    requires forall j :: 0 <= j < |ps| ==> NoOverlap(q, ps[j].1)
    ensures !Contains(ReplaceSeq(s, ps), q)
    decreases |ps|
  {
    if ps != [] {
      ReplaceAllAvoids(s, ps[0].0, ps[0].1, q);
      assert forall j :: 0 <= j < |ps[1..]| ==> NoOverlap(q, ps[1..][j].1) by {
        forall j | 0 <= j < |ps[1..]| ensures NoOverlap(q, ps[1..][j].1) {
          assert ps[1..][j] == ps[j + 1];
        }
      }
      StaysAbsent(ReplaceAll(s, ps[0].0, ps[0].1), ps[1..], q);
    }
  }

  /**
   * When no value can help form a key, the result holds none of the keys:
   * each one disappears at its own step and no later step brings it back.
   */
  lemma {:induction false} KeysCleared(content: string, ps: seq<(string, string)>)
    requires KeysNonEmpty(ps) && ValuesClear(ps)
    ensures forall i :: 0 <= i < |ps| ==> !Contains(ReplaceSeq(content, ps), ps[i].0)
    decreases |ps|
  {
    if ps != [] {
      var s := ReplaceAll(content, ps[0].0, ps[0].1);
      var rest := ps[1..];
      assert KeysNonEmpty(rest) && ValuesClear(rest) by {
        forall i, j | 0 <= i < |rest| && 0 <= j < |rest| ensures NoOverlap(rest[i].0, rest[j].1) {
          assert rest[i] == ps[i + 1] && rest[j] == ps[j + 1];
        }
      }
      KeysCleared(s, rest);
      forall i | 0 <= i < |ps| ensures !Contains(ReplaceSeq(content, ps), ps[i].0) {
        if i == 0 {
          ReplaceAllAvoids(content, ps[0].0, ps[0].1, ps[0].0);
          assert forall j :: 0 <= j < |rest| ==> NoOverlap(ps[0].0, rest[j].1) by {
            forall j | 0 <= j < |rest| ensures NoOverlap(ps[0].0, rest[j].1) {
              assert rest[j] == ps[j + 1];
            }
          }
          StaysAbsent(s, rest, ps[0].0);
        } else {
          assert ps[i] == rest[i - 1];
        }
      }
    }
  }

  /**
   * `update_html_file` on a readable file: the new text to write, if any,
   * and the returned flag. Nothing is written when the text is unchanged;
   * a dry run never writes but still reports a change.
   */
  function UpdateHtmlFile(content: string, ps: seq<(string, string)>, dryRun: bool): (r: (Option<string>, bool))
    requires KeysNonEmpty(ps)
    ensures r.1 <==> ReplaceSeq(content, ps) != content
    ensures r.0.Some? <==> r.1 && !dryRun
    ensures r.0.Some? ==> r.0.value == ReplaceSeq(content, ps)
  {
    var updated := ReplaceSeq(content, ps);
    if content == updated then (None, false)
    else if !dryRun then (Some(updated), true)
    else (None, true)
  }

  /** When no value can form a key, a second update of a written page finds nothing to do. */
  lemma UpdateIdempotent(content: string, ps: seq<(string, string)>, dryRun: bool)
    requires KeysNonEmpty(ps) && ValuesClear(ps)
    ensures var w := UpdateHtmlFile(content, ps, false).0;
      w.Some? ==> UpdateHtmlFile(w.value, ps, dryRun) == (None, false)
  {
    KeysCleared(content, ps);
    NoKeysUnchanged(ReplaceSeq(content, ps), ps);
  }

  // ------------------------------------------------------------ the run

  /**
   * The `--lang` filter: every language, the one named, or `None` when the
   * named language is not configured. An empty name is no filter.
   */
  function TargetLanguages(config: Config, target: Option<string>): (r: Option<seq<(string, LangEntry)>>)
    ensures target.None? || target.value == [] ==> r == Some(config.languages)
    ensures target.Some? && target.value != [] ==>
      (r.None? <==> LookupLang(config.languages, target.value).None?)
    ensures r.Some? && target.Some? && target.value != [] ==>
      r.value == [(target.value, LookupLang(config.languages, target.value).value)]
  {
    if target.None? || target.value == [] then Some(config.languages)
    else match LookupLang(config.languages, target.value)
      case None => None
      case Some(e) => Some([(target.value, e)])
  }

  /**
   * The `--page` filter: the file name gets ".html" unless it already ends
   * with it, and then every ".html" in it is removed.
   */
  function TargetPages(config: Config, target: Option<string>): (r: seq<string>)
    ensures target.None? || target.value == [] ==> r == config.supportedPages
    ensures target.Some? && target.value != [] ==> |r| == 1
  {
    if target.None? || target.value == [] then config.supportedPages
    else
      var filename := if EndsWith(target.value, ".html") then target.value else target.value + ".html";
      [ReplaceAll(filename, ".html", "")]
  }

  lemma {:induction false} StripHtml(name: string)
    requires '.' !in name
    ensures ReplaceAll(name + ".html", ".html", "") == name
    decreases |name|
  {
    if name == [] {
      assert name + ".html" == ".html";
      assert ".html"[5..] == [];
    } else {
      assert (name + ".html")[1..] == name[1..] + ".html";
      assert (name + ".html")[0] == name[0] != '.';
      StripHtml(name[1..]);
    }
  }

  /** A page named with or without ".html" is the same page, named without it. */
  lemma TargetPageName(config: Config, name: string)
    requires name != [] && '.' !in name
    ensures TargetPages(config, Some(name)) == [name]
    ensures TargetPages(config, Some(name + ".html")) == [name]
  {
    StripHtml(name);
    assert !EndsWith(name, ".html") by {
      if |name| >= 5 {
        assert name[|name| - 5] in name;
      }
    }
    assert EndsWith(name + ".html", ".html") by {
      assert (name + ".html")[|name|..] == ".html";
    }
  }

  /** The counters and the files so far; `failed` is the `KeyError` that ends the run. */
  datatype Tally = Tally(updated: nat, processed: nat, files: map<string, string>, failed: bool)

  /** One page of one language, as the inner loop body does it. */
  function PageStep(baseUrl: string, code: string, entry: LangEntry, pageName: string, t: Tally, dryRun: bool): (r: Tally)
    ensures r.files.Keys == t.files.Keys
    ensures r.processed - t.processed == (if r.processed > t.processed then 1 else 0)
    ensures r.updated <= t.updated + (r.processed - t.processed)
    ensures r.updated >= t.updated && r.processed >= t.processed
  {
    var filename := pageName + ".html";
    var path := LangDir(code) + filename;
    if path !in t.files then t
    else match BuildPlaceholders(baseUrl, code, entry, GetPageType(filename), filename)
      case None => t.(failed := true)
      case Some(p) =>
        var (written, changed) := UpdateHtmlFile(t.files[path], Pairs(p), dryRun);
        Tally(t.updated + (if changed then 1 else 0), t.processed + 1,
          if written.Some? then t.files[path := written.value] else t.files, false)
  }

  function PagesRun(baseUrl: string, code: string, entry: LangEntry, pages: seq<string>, t: Tally, dryRun: bool): Tally
    decreases |pages|
  {
    if pages == [] || t.failed then t
    else PagesRun(baseUrl, code, entry, pages[1..], PageStep(baseUrl, code, entry, pages[0], t, dryRun), dryRun)
  }

  function LangsRun(config: Config, langs: seq<(string, LangEntry)>, pages: seq<string>, dirs: set<string>, t: Tally, dryRun: bool): Tally
    decreases |langs|
  {
    if langs == [] || t.failed then t
    else
      var t' := if langs[0].0 in dirs then PagesRun(config.baseUrl, langs[0].0, langs[0].1, pages, t, dryRun) else t;
      LangsRun(config, langs[1..], pages, dirs, t', dryRun)
  }

  /** `update_all_pages`, as a function of the configuration, the filters and the files. */
  function Run(config: Config, targetLang: Option<string>, targetPage: Option<string>, dirs: set<string>, files: map<string, string>, dryRun: bool): Tally
  {
    match TargetLanguages(config, targetLang)
      case None => Tally(0, 0, files, false)
      case Some(langs) => LangsRun(config, langs, TargetPages(config, targetPage), dirs, Tally(0, 0, files, false), dryRun)
  }

  /** One page: read, replace, and write back unless unchanged or a dry run. */
  method UpdatePage(baseUrl: string, code: string, entry: LangEntry, pageName: string, t: Tally, dryRun: bool) returns (r: Tally)
    ensures r == PageStep(baseUrl, code, entry, pageName, t, dryRun)
  {
    r := t;
    var filename := pageName + ".html";
    var path := LangDir(code) + filename;
    if path !in t.files {
      return;
    }
    var p := BuildPlaceholders(baseUrl, code, entry, GetPageType(filename), filename);
    if p.None? {
      r := r.(failed := true);
      return;
    }
    var content := t.files[path];
    var next := ReplacePlaceholders(content, Pairs(p.value));
    r := r.(processed := t.processed + 1, failed := false);
    if content != next {
      if !dryRun {
        r := r.(files := t.files[path := next]);
      }
      r := r.(updated := t.updated + 1);
    }
  }

  /** The inner loop: the pages of one language, until a `KeyError`. */
  method UpdateLanguage(baseUrl: string, code: string, entry: LangEntry, pages: seq<string>, t: Tally, dryRun: bool) returns (r: Tally)
    ensures r == PagesRun(baseUrl, code, entry, pages, t, dryRun)
  {
    r := t;
    var j := 0;
    while j < |pages| && !r.failed
      invariant j <= |pages|
      invariant PagesRun(baseUrl, code, entry, pages, t, dryRun) == PagesRun(baseUrl, code, entry, pages[j..], r, dryRun)
      decreases |pages| - j
    {
      assert pages[j..][1..] == pages[j + 1..];
      r := UpdatePage(baseUrl, code, entry, pages[j], r, dryRun);
      j := j + 1;
    }
  }

  /**
   * `update_all_pages`: the languages, then the pages of each; a language
   * without a directory and a missing page are skipped, and a language
   * without a "home" block stops the run.
   */
  method UpdateAllPages(config: Config, targetLang: Option<string>, targetPage: Option<string>, dirs: set<string>, files: map<string, string>, dryRun: bool)
    returns (r: Tally)
    ensures r == Run(config, targetLang, targetPage, dirs, files, dryRun)
  {
    r := Tally(0, 0, files, false);
    var languages := TargetLanguages(config, targetLang);
    if languages.None? {
      return;
    }
    var langs := languages.value;
    var pages := TargetPages(config, targetPage);
    var i := 0;
    while i < |langs| && !r.failed
      invariant i <= |langs|
      invariant Run(config, targetLang, targetPage, dirs, files, dryRun) == LangsRun(config, langs[i..], pages, dirs, r, dryRun)
      decreases |langs| - i
    {
      assert langs[i..][1..] == langs[i + 1..];
      if langs[i].0 in dirs {
        r := UpdateLanguage(config.baseUrl, langs[i].0, langs[i].1, pages, r, dryRun);
      }
      i := i + 1;
    }
  }

  // ------------------------------------------------------------ run properties

  /** An unknown `--lang` processes nothing and writes nothing. */
  lemma UnknownLanguage(config: Config, lang: string, targetPage: Option<string>, dirs: set<string>, files: map<string, string>, dryRun: bool)
    requires lang != [] && forall i :: 0 <= i < |config.languages| ==> config.languages[i].0 != lang
    ensures Run(config, Some(lang), targetPage, dirs, files, dryRun) == Tally(0, 0, files, false)
  {
  }

  ghost predicate Within(t: Tally, t0: Tally, dryRun: bool)
  {
    t.files.Keys == t0.files.Keys &&
    t.updated - t0.updated <= t.processed - t0.processed &&
    t.updated >= t0.updated && t.processed >= t0.processed &&
    (dryRun ==> t.files == t0.files)
  }

  lemma {:induction false} PagesRunWithin(baseUrl: string, code: string, entry: LangEntry, pages: seq<string>, t: Tally, dryRun: bool)
    ensures Within(PagesRun(baseUrl, code, entry, pages, t, dryRun), t, dryRun)
    decreases |pages|
  {
    if pages != [] && !t.failed {
      PagesRunWithin(baseUrl, code, entry, pages[1..], PageStep(baseUrl, code, entry, pages[0], t, dryRun), dryRun);
    }
  }

  lemma {:induction false} LangsRunWithin(config: Config, langs: seq<(string, LangEntry)>, pages: seq<string>, dirs: set<string>, t: Tally, dryRun: bool)
    ensures Within(LangsRun(config, langs, pages, dirs, t, dryRun), t, dryRun)
    decreases |langs|
  {
    if langs != [] && !t.failed {
      var t' := if langs[0].0 in dirs then PagesRun(config.baseUrl, langs[0].0, langs[0].1, pages, t, dryRun) else t;
      if langs[0].0 in dirs {
        PagesRunWithin(config.baseUrl, langs[0].0, langs[0].1, pages, t, dryRun);
      }
      LangsRunWithin(config, langs[1..], pages, dirs, t', dryRun);
    }
  }

  /**
   * Every run updates at most the pages it processed, never adds or
   * removes a file, and in a dry run writes nothing.
   */
  lemma RunBounds(config: Config, targetLang: Option<string>, targetPage: Option<string>, dirs: set<string>, files: map<string, string>, dryRun: bool)
    ensures var t := Run(config, targetLang, targetPage, dirs, files, dryRun);
      t.updated <= t.processed && t.files.Keys == files.Keys && (dryRun ==> t.files == files)
  {
    if TargetLanguages(config, targetLang).Some? {
      LangsRunWithin(config, TargetLanguages(config, targetLang).value, TargetPages(config, targetPage), dirs, Tally(0, 0, files, false), dryRun);
    }
  }
}

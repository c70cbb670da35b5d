/**
 * `scripts/translate-blog-article.py`: the text an article offers for
 * translation, the rewrites that move an English article under
 * `/<lang>/blog/`, and the link check run on a translated article.
 */
module TranslateBlog {
  import opened Wrappers
  import opened Strings
  import opened Patterns

  /** One entry of the language table. */
  datatype LangConfig = LangConfig(name: string, locale: string, ogLocale: string)

  const Languages: map<string, LangConfig> := map[
    "de" := LangConfig("German", "de_DE", "de_DE"),
    "fr" := LangConfig("French", "fr_FR", "fr_FR"),
    "it" := LangConfig("Italian", "it_IT", "it_IT"),
    "nl" := LangConfig("Dutch", "nl_NL", "nl_NL"),
    "no" := LangConfig("Norwegian", "no_NO", "no_NO"),
    "sv" := LangConfig("Swedish", "sv_SE", "sv_SE"),
    "th" := LangConfig("Thai", "th_TH", "th_TH")
  ]

  // ------------------------------------------------------------ extraction

  /**
   * `open(.*?)close` in DOTALL mode, or `open[^>]*>(.*?)close` when the
   * opening tag may carry attributes.
   */
  datatype Capture = Capture(open: string, attrs: bool, close: string)

  predicate ValidCapture(c: Capture)
  {
    c.open != [] && c.close != []
  }

  /** The capture at the start of `s` and the text after the match. */
  function MatchCapture(c: Capture, s: string): (r: Option<(string, string)>)
    requires ValidCapture(c)
    ensures r.Some? ==> c.open <= s && !Contains(r.value.0, c.close)
    ensures r.Some? ==> |r.value.1| < |s| && |r.value.0| + |c.close| + |r.value.1| <= |s|
    ensures r.Some? ==> s[|s| - |r.value.1| - |c.close| - |r.value.0|..] == r.value.0 + c.close + r.value.1
  {
    if !(c.open <= s) then None
    else
      var afterOpen: Option<string> :=
        if !c.attrs then Some(s[|c.open|..])
        else match SplitOnce(s[|c.open|..], ">")
          case None => None
          case Some((_, body)) => Some(body);
      match afterOpen
      case None => None
      case Some(body) =>
        assert s[|s| - |body|..] == body;
        match SplitOnce(body, c.close)
        case None => None
        case Some((cap, tail)) =>
          assert body == cap + c.close + tail;
          Some((cap, tail))
  }

  /** `re.findall`: scanning left to right, resuming after each match. */
  function FindAll(c: Capture, s: string): (r: seq<string>)
    requires ValidCapture(c)
    ensures forall k :: 0 <= k < |r| ==> !Contains(r[k], c.close)
    ensures |r| <= |s|
    decreases |s|
  {
    if s == [] then []
    else
      match MatchCapture(c, s)
      case Some((cap, tail)) => [cap] + FindAll(c, tail)
      case None => FindAll(c, s[1..])
  }

  /** The keys of the dictionary `extract_translatable_text` returns. */
  datatype Field =
    | Title | MetaDescription | MetaKeywords | OgTitle | OgDescription | ArticleTitle
    | ArticleExcerpt | HeadingsH2 | HeadingsH3 | Paragraphs | ListItems

  /** The key as the script spells it. */
  function KeyName(f: Field): string
  {
    match f
    case Title => "title"
    case MetaDescription => "meta_description"
    case MetaKeywords => "meta_keywords"
    case OgTitle => "og_title"
    case OgDescription => "og_description"
    case ArticleTitle => "article_title"
    case ArticleExcerpt => "article_excerpt"
    case HeadingsH2 => "headings_h2"
    case HeadingsH3 => "headings_h3"
    case Paragraphs => "paragraphs"
    case ListItems => "list_items"
  }

  /** The pattern of each key. */
  function PatternOf(f: Field): (c: Capture)
    ensures ValidCapture(c)
  {
    match f
    case Title => Capture("<title>", false, "</title>")
    case MetaDescription => Capture("<meta name=\"description\" content=\"", false, "\"/>")
    case MetaKeywords => Capture("<meta name=\"keywords\" content=\"", false, "\"/>")
    case OgTitle => Capture("<meta property=\"og:title\" content=\"", false, "\"/>")
    case OgDescription => Capture("<meta property=\"og:description\" content=\"", false, "\"/>")
    case ArticleTitle => Capture("<h1 class=\"article-title\">", false, "</h1>")
    case ArticleExcerpt => Capture("<p class=\"article-excerpt\">", false, "</p>")
    case HeadingsH2 => Capture("<h2", true, "</h2>")
    case HeadingsH3 => Capture("<h3", true, "</h3>")
    case Paragraphs => Capture("<p>", false, "</p>")
    case ListItems => Capture("<li>", false, "</li>")
  }

  /** The keys in the order the script lists them. */
  const Fields: seq<Field> := [Title, MetaDescription, MetaKeywords, OgTitle, OgDescription, ArticleTitle,
    ArticleExcerpt, HeadingsH2, HeadingsH3, Paragraphs, ListItems]

  /** The loop of `extract_translatable_text` over some keys: each key maps to the matches of its pattern. */
  method ExtractFields(fields: seq<Field>, html: string) returns (extracted: map<Field, seq<string>>)
    ensures forall f :: f in extracted <==> f in fields
    ensures forall f :: f in extracted ==> extracted[f] == FindAll(PatternOf(f), html)
  {
    extracted := map[];
    for i := 0 to |fields|
      invariant forall f :: f in extracted <==> f in fields[..i]
      invariant forall f :: f in extracted ==> extracted[f] == FindAll(PatternOf(f), html)
    {
      extracted := extracted[fields[i] := FindAll(PatternOf(fields[i]), html)];
      assert fields[..i + 1] == fields[..i] + [fields[i]];
    }
    assert fields[..|fields|] == fields;
  }

  /**
   * `extract_translatable_text`: every one of the eleven keys, each holding
   * the matches of its pattern in document order; being lazy, no capture
   * runs past its pattern's closing text.
   */
  method ExtractTranslatableText(html: string) returns (extracted: map<Field, seq<string>>)
    ensures forall f: Field :: f in extracted && extracted[f] == FindAll(PatternOf(f), html)
    ensures forall f, j :: f in extracted && 0 <= j < |extracted[f]| ==> !Contains(extracted[f][j], PatternOf(f).close)
  {
    extracted := ExtractFields(Fields, html);
    forall f: Field
      ensures f in Fields
    {
      match f
      case Title => assert Fields[0] == f;
      case MetaDescription => assert Fields[1] == f;
      case MetaKeywords => assert Fields[2] == f;
      case OgTitle => assert Fields[3] == f;
      case OgDescription => assert Fields[4] == f;
      case ArticleTitle => assert Fields[5] == f;
      case ArticleExcerpt => assert Fields[6] == f;
      case HeadingsH2 => assert Fields[7] == f;
      case HeadingsH3 => assert Fields[8] == f;
      case Paragraphs => assert Fields[9] == f;
      case ListItems => assert Fields[10] == f;
    }
  }

  // ------------------------------------------------------------ regex dots

  /**
   * A regular expression whose only special character is `.`: does it match
   * at the start of `s`? Without DOTALL a dot matches any character but a
   * line feed.
   */
  predicate DotMatch(p: string, s: string)
  {
    |p| <= |s| && forall i :: 0 <= i < |p| ==> p[i] == s[i] || (p[i] == '.' && s[i] != '\n')
  }

  /** `re.search` with such a pattern. */
  predicate DotSearch(p: string, s: string)
    decreases |s|
  {
    DotMatch(p, s) || (s != [] && DotSearch(p, s[1..]))
  }

  lemma DotMatchSelf(p: string, rest: string)
    ensures DotMatch(p, p + rest)
  {
  }

  /** A literal occurrence of a dotted pattern is a match of it. */
  lemma {:induction false} DotSearchAt(p: string, s: string, i: nat)
    requires OccursAt(s, p, i)
    ensures DotSearch(p, s)
    decreases i
  {
    if i == 0 {
      assert forall k :: 0 <= k < |p| ==> s[..|p|][k] == s[k];
    } else {
      assert s[1..][i - 1..i - 1 + |p|] == s[i..i + |p|];
      DotSearchAt(p, s[1..], i - 1);
    }
  }

  // ------------------------------------------------------------ the rewrites

  const HtmlLangEn: string := "<html lang=\"en\">"
  const OgLocaleEn: string := "<meta property=\"og:locale\" content=\"en_US\"/>"
  const LanguageEnglish: string := "<meta name=\"language\" content=\"English\"/>"
  const InLanguageEn: string := "\"inLanguage\": \"en\""
  const HrefUp: string := "href=\"../"
  const HrefUpUp: string := "href=\"../../"
  const SrcUp: string := "src=\"../"
  const SrcUpUp: string := "src=\"../../"

  function HtmlLang(lang: string): string { "<html lang=\"" + lang + "\">" }
  function OgLocale(locale: string): string { "<meta property=\"og:locale\" content=\"" + locale + "\"/>" }
  function Language(name: string): string { "<meta name=\"language\" content=\"" + name + "\"/>" }
  function InLanguage(lang: string): string { "\"inLanguage\": \"" + lang + "\"" }

  /** The canonical-link pattern, whose two dots match any character but a line feed. */
  const CanonicalPattern: string := "href=\"https://web.tvmaster.vip/blog/"
  function CanonicalUrl(lang: string): string { "href=\"https://web.tvmaster.vip/" + lang + "/blog/" }

  /** A literal replacement: present text is rewritten everywhere and the new text appears; absent text changes nothing. */
  function Swap(s: string, pat: string, rep: string): (r: string)
    requires pat != []
    ensures Contains(s, pat) ==> Contains(r, rep)
    ensures !Contains(s, pat) ==> r == s
  {
    if Contains(s, pat) then ReplaceAllInserts(s, pat, rep); ReplaceAll(s, pat, rep)
    else ReplaceAllNoMatch(s, pat, rep); ReplaceAll(s, pat, rep)
  }

  function CanonicalRewrite(lang: string): Rewriter
  {
    s => if DotMatch(CanonicalPattern, s) then Some((CanonicalUrl(lang), s[|CanonicalPattern|..])) else None
  }

  /**
   * The canonical link: only the first place the pattern matches gets the
   * language prefix; what follows it is left as it was.
   */
  function CanonicalStep(s: string, lang: string): (r: string)
    ensures FirstMatch(s, CanonicalRewrite(lang), 0).None? ==> r == s
    ensures FirstMatch(s, CanonicalRewrite(lang), 0).Some? ==>
      var i := FirstMatch(s, CanonicalRewrite(lang), 0).value;
      i + |CanonicalPattern| <= |s| && r == s[..i] + CanonicalUrl(lang) + s[i + |CanonicalPattern|..]
  {
    SubFirst(s, CanonicalRewrite(lang))
  }

  /** The first five rewrites: language attribute, locale, language name, canonical link, schema language. */
  function Metadata(s: string, lang: string, config: LangConfig): string
  {
    var s1 := Swap(s, HtmlLangEn, HtmlLang(lang));
    var s2 := Swap(s1, OgLocaleEn, OgLocale(config.ogLocale));
    var s3 := Swap(s2, LanguageEnglish, Language(config.name));
    var s4 := CanonicalStep(s3, lang);
    Swap(s4, InLanguageEn, InLanguage(lang))
  }

  /** The relative links one directory deeper: every `href="../` and every `src="../` gains a `../`. */
  function Relink(s: string): string
  {
    ReplaceAll(ReplaceAll(s, HrefUp, HrefUpUp), SrcUp, SrcUpUp)
  }

  /** `update_article_for_language`; a language outside the table raises, modelled as `None`. */
  function UpdateArticleForLanguage(s: string, lang: string): (r: Option<string>)
    ensures r.None? <==> lang !in Languages
    ensures r.Some? ==> r.value == Relink(Metadata(s, lang, Languages[lang]))
  {
    if lang !in Languages then None else Some(Relink(Metadata(s, lang, Languages[lang])))
  }

  /**
   * The canonical link as the site writes it is one the pattern matches, and
   * so is one with other characters at the dots, but not one with a line
   * feed there.
   */
  lemma CanonicalDotsMatchAnything(rest: string)
    ensures DotMatch(CanonicalPattern, CanonicalPattern + rest)
    ensures DotMatch(CanonicalPattern, "href=\"https://webXtvmasterXvip/blog/" + rest)
    ensures !DotMatch(CanonicalPattern, "href=\"https://web\ntvmaster.vip/blog/" + rest)
  {
    var s := "href=\"https://web\ntvmaster.vip/blog/" + rest;
    assert CanonicalPattern[17] == '.' && s[17] == '\n';
  }

  lemma HrefUpUpHasHrefUp()
    ensures Contains(HrefUpUp, HrefUp)
  {
    assert HrefUp <= HrefUpUp;
  }

  /** Relinking lengthens every text with a relative link, and the deeper link still holds `href="../`. */
  lemma RelinkGrows(s: string)
    requires Contains(s, HrefUp)
    ensures |Relink(s)| > |s| && Contains(Relink(s), HrefUp)
  {
    RelinkLonger(s);
    RelinkHasHrefUp(s);
  }

  lemma RelinkLonger(s: string)
    requires Contains(s, HrefUp)
    ensures |Relink(s)| > |s|
  {
    var t := ReplaceAll(s, HrefUp, HrefUpUp);
    ReplaceAllLength(s, HrefUp, HrefUpUp);
    CountMatchesPositive(s, HrefUp);
    ReplaceAllLength(t, SrcUp, SrcUpUp);
  }

  lemma RelinkHasHrefUp(s: string)
    requires Contains(s, HrefUp)
    ensures Contains(Relink(s), HrefUp)
  {
    var t := ReplaceAll(s, HrefUp, HrefUpUp);
    ReplaceAllInserts(s, HrefUp, HrefUpUp);
    HrefUpUpHasHrefUp();
    ContainsTransitive(t, HrefUpUp, HrefUp);
    var i := ContainsWitness(t, HrefUp);
    ReplaceAllKeeps(t, HrefUp, SrcUp, SrcUpUp, i);
  }

  /** An article without relative links is not changed by relinking. */
  lemma RelinkPlain(s: string)
    requires !Contains(s, HrefUp) && !Contains(s, SrcUp)
    ensures Relink(s) == s
  {
    ReplaceAllNoMatch(s, HrefUp, HrefUpUp);
    ReplaceAllNoMatch(s, SrcUp, SrcUpUp);
  }

  /** A relative `href` comes out one level deeper, and so does a relative `src`. */
  lemma RelinkDeepens(s: string)
    ensures Contains(s, HrefUp) ==> Contains(Relink(s), HrefUpUp)
    ensures Contains(s, SrcUp) ==> Contains(Relink(s), SrcUpUp)
  {
    var t := ReplaceAll(s, HrefUp, HrefUpUp);
    RewriteTextChars();
    assert OnlyAtStart(HrefUp, 's') && OnlyAtStart(HrefUpUp, 's');
    if Contains(s, HrefUp) {
      ReplaceAllInserts(s, HrefUp, HrefUpUp);
      NoOverlapByEnds(HrefUpUp, SrcUp, 0, 0, 0);
      ReplaceAllKeepsText(t, HrefUpUp, SrcUp, SrcUpUp);
    }
    if Contains(s, SrcUp) {
      NoOverlapByEnds(SrcUp, HrefUp, 0, 0, 0);
      ReplaceAllKeepsText(s, SrcUp, HrefUp, HrefUpUp);
      ReplaceAllInserts(t, SrcUp, SrcUpUp);
    }
  }

  /** Relinking is not idempotent: each application adds another `../` level. */
  lemma RelinkNotIdempotent(s: string)
    requires Contains(s, HrefUp)
    ensures Relink(Relink(s)) != Relink(s)
  {
    RelinkGrows(s);
    RelinkGrows(Relink(s));
  }

  // ------------------------------------------------------------ what the rewrites keep

  /** `p`, read with its dots matching anything, agrees with `s` wherever both have a character. */
  ghost predicate DotAgrees(p: string, s: string)
  {
    forall k :: 0 <= k < |p| && k < |s| ==> p[k] == '.' || p[k] == s[k]
  }

  /** No match of the canonical pattern can overlap an occurrence of `q`. */
  ghost predicate ApartFromCanonical(q: string)
  {
    (forall d :: 0 <= d < |q| ==> !DotAgrees(CanonicalPattern, q[d..])) &&
    (forall j :: 1 <= j < |CanonicalPattern| ==> !DotAgrees(CanonicalPattern[j..], q))
  }

  /**
   * A text is apart from the canonical pattern when past its start it
   * never has `hr` and it does not end in `h`, its first character is not in
   * the pattern and its second is none of the characters that follow the
   * pattern's dots.
   */
  lemma ApartFromCanonicalByPairs(q: string)
    requires |q| >= 2 && q[|q| - 1] != 'h' && PairOnlyAtStart(q, 'h', 'r')
    requires q[0] !in CanonicalPattern && q[1] != 't' && q[1] != 'v'
    ensures ApartFromCanonical(q)
  {
    assert CanonicalPattern[0] == 'h' && CanonicalPattern[1] == 'r';
    forall d | 0 <= d < |q|
      ensures !DotAgrees(CanonicalPattern, q[d..])
    {
      assert q[d..][0] == q[d];
      if d < |q| - 1 {
        assert q[d..][1] == q[d + 1];
      }
    }
    assert forall j :: 0 <= j < |CanonicalPattern| && CanonicalPattern[j] == '.' ==> j == 17 || j == 26;
    assert CanonicalPattern[18] == 't' && CanonicalPattern[27] == 'v';
    forall j | 1 <= j < |CanonicalPattern|
      ensures !DotAgrees(CanonicalPattern[j..], q)
    {
      assert CanonicalPattern[j..][0] == CanonicalPattern[j];
      if j < |CanonicalPattern| - 1 {
        assert CanonicalPattern[j..][1] == CanonicalPattern[j + 1];
      }
    }
  }

  /** An occurrence of `q` overlapping a match of the canonical pattern shows `q` is not apart from it. */
  lemma OverlapNotApart(s: string, q: string, p: nat, i: nat)
    requires q != [] && OccursAt(s, q, p) && i <= |s| && DotMatch(CanonicalPattern, s[i..])
    requires i < p + |q| && p < i + |CanonicalPattern|
    ensures !ApartFromCanonical(q)
  {
    if i <= p {
      var j := p - i;
      assert DotAgrees(CanonicalPattern[j..], q) by {
        forall k | 0 <= k < |CanonicalPattern| - j && k < |q|
          ensures CanonicalPattern[j..][k] == '.' || CanonicalPattern[j..][k] == q[k]
        {
          assert q[k] == s[p + k] == s[i..][j + k];
        }
      }
      if j == 0 {
        assert CanonicalPattern[0..] == CanonicalPattern && q[0..] == q;
      }
    } else {
      var d := i - p;
      assert DotAgrees(CanonicalPattern, q[d..]) by {
        forall k | 0 <= k < |CanonicalPattern| && k < |q| - d
          ensures CanonicalPattern[k] == '.' || CanonicalPattern[k] == q[d..][k]
        {
          assert q[d..][k] == s[p + d + k] == s[i..][k];
        }
      }
    }
  }

  /** The canonical rewrite keeps every text apart from its pattern. */
  lemma CanonicalKeeps(s: string, lang: string, q: string)
    requires q != [] && ApartFromCanonical(q) && Contains(s, q)
    ensures Contains(CanonicalStep(s, lang), q)
  {
    var p := ContainsWitness(s, q);
    var r := CanonicalStep(s, lang);
    if FirstMatch(s, CanonicalRewrite(lang), 0).Some? {
      var i := FirstMatch(s, CanonicalRewrite(lang), 0).value;
      assert DotMatch(CanonicalPattern, s[i..]);
      if i < p + |q| && p < i + |CanonicalPattern| {
        OverlapNotApart(s, q, p, i);
      }
      if p + |q| <= i {
        assert r[p..p + |q|] == s[p..p + |q|];
        ContainsAt(r, q, p);
      } else {
        var t := p - |CanonicalPattern| + |CanonicalUrl(lang)|;
        assert r[t..t + |q|] == s[p..p + |q|];
        ContainsAt(r, q, t);
      }
    }
  }

  /** An article holding the canonical link as the site writes it gets the language's canonical link. */
  lemma CanonicalInserts(s: string, lang: string)
    requires Contains(s, CanonicalPattern)
    ensures Contains(CanonicalStep(s, lang), CanonicalUrl(lang))
  {
    var p := ContainsWitness(s, CanonicalPattern);
    assert DotMatch(CanonicalPattern, s[p..]) by {
      assert forall k :: 0 <= k < |CanonicalPattern| ==> s[p..][k] == s[p + k];
    }
    assert CanonicalRewrite(lang)(s[p..]).Some?;
    var i := FirstMatch(s, CanonicalRewrite(lang), 0).value;
    ContainsMiddle(s[..i], CanonicalUrl(lang), s[i + |CanonicalPattern|..]);
  }

  /** A literal rewrite keeps every text it cannot overlap. */
  lemma SwapKeeps(s: string, pat: string, rep: string, q: string)
    requires pat != [] && q != [] && NoOverlap(q, pat) && Contains(s, q)
    ensures Contains(Swap(s, pat, rep), q)
  {
    ReplaceAllKeepsText(s, q, pat, rep);
  }

  /** Relinking keeps every text it cannot overlap. */
  lemma RelinkKeeps(s: string, q: string)
    requires q != [] && NoOverlap(q, HrefUp) && NoOverlap(q, SrcUp) && Contains(s, q)
    ensures Contains(Relink(s), q)
  {
    ReplaceAllKeepsText(s, q, HrefUp, HrefUpUp);
    ReplaceAllKeepsText(ReplaceAll(s, HrefUp, HrefUpUp), q, SrcUp, SrcUpUp);
  }

  /** Where `<` can stand in the English tags. */
  lemma OpeningBrackets()
    ensures OnlyAtStart(OgLocaleEn, '<') && OnlyAtStart(LanguageEnglish, '<') && OnlyAtStart(HtmlLangEn, '<')
  {
  }

  /** Where `<` can stand in the other rewritten texts. */
  lemma OpeningBracketsElsewhere()
    ensures OnlyAtStart(InLanguageEn, '<') && OnlyAtStart(HrefUp, '<') && OnlyAtStart(SrcUp, '<')
    ensures '<' !in CanonicalPattern && OnlyAtStart(CanonicalPattern, '<')
  {
  }

  /** The characters of the rewritten texts that keep the language texts apart from them. */
  lemma RewriteTextChars()
    ensures '>' !in InLanguageEn && '>' !in HrefUp && '>' !in SrcUp && '/' !in InLanguageEn
    ensures OnlyAtStart(InLanguageEn, 'h') && OnlyAtStart(HrefUp, 'h') && OnlyAtStart(SrcUp, 'h')
  {
  }

  /** Where `h` can stand in the English tags. */
  lemma EnglishTagChars()
    ensures OnlyAtStart(OgLocaleEn, 'h')
    ensures PairOnlyAtStart(HtmlLangEn, 'h', 'r') && PairOnlyAtStart(LanguageEnglish, 'h', 'r')
  {
  }

  /** A two-letter lower-case code. */
  predicate LowerPair(v: string)
  {
    |v| == 2 && 'a' <= v[0] <= 'z' && 'a' <= v[1] <= 'z'
  }

  /** A locale such as `de_DE`: two lower-case letters, `_`, two upper-case letters. */
  predicate LocaleForm(v: string)
  {
    |v| == 5 && LowerPair(v[..2]) && v[2] == '_' && 'A' <= v[3] <= 'Z' && 'A' <= v[4] <= 'Z'
  }

  /** A language name such as `German`: no `.`, no `:` and no `hr` in it. */
  predicate NameForm(v: string)
  {
    (forall i :: 0 <= i < |v| ==> v[i] != '.' && v[i] != ':') &&
    (forall i :: 0 <= i < |v| - 1 && v[i] == 'h' ==> v[i + 1] != 'r')
  }

  /** The table's codes, locales and names have the forms the overlap arguments below rely on. */
  lemma TableForms(lang: string)
    requires lang in Languages
    ensures LowerPair(lang) && lang != "hr" && lang != "sr"
    ensures var v := Languages[lang].ogLocale; LocaleForm(v) && v[..2] != "hr" && 'u' !in v
  {
  }

  lemma TableNames(lang: string)
    requires lang in Languages
    ensures NameForm(Languages[lang].name)
  {
    var v := Languages[lang].name;
    assert v in {"German", "French", "Italian", "Dutch", "Norwegian", "Swedish", "Thai"};
    NamesForm();
  }

  lemma NamesForm()
    ensures NameForm("German") && NameForm("French") && NameForm("Italian") && NameForm("Dutch")
    ensures NameForm("Norwegian") && NameForm("Swedish") && NameForm("Thai")
  {
  }

  lemma HtmlLangChars(v: string)
    requires LowerPair(v) && v != "hr"
    ensures OnlyAtStart(HtmlLang(v), '<') && PairOnlyAtStart(HtmlLang(v), 'h', 'r')
    ensures 'L' !in HtmlLang(v) && '.' !in HtmlLang(v)
  {
  }

  lemma OgLocaleBrackets(v: string)
    requires LocaleForm(v)
    ensures OnlyAtStart(OgLocale(v), '<') && '.' !in OgLocale(v)
  {
  }

  lemma OgLocaleChars(v: string)
    requires LocaleForm(v) && v[..2] != "hr" && 'u' !in v
    ensures PairOnlyAtStart(OgLocale(v), 'h', 'r')
  {
  }

  lemma OgLocaleNoU(v: string)
    requires 'u' !in v
    ensures 'u' !in OgLocale(v)
  {
  }

  lemma CanonicalUrlChars(v: string)
    requires LowerPair(v)
    ensures 'L' !in CanonicalUrl(v)
  {
  }

  lemma CanonicalUrlPairs(v: string)
    requires LowerPair(v) && v != "hr"
    ensures PairOnlyAtStart(CanonicalUrl(v), 'h', 'r')
  {
  }

  lemma CanonicalUrlSrcPairs(v: string)
    requires LowerPair(v) && v != "sr"
    ensures PairOnlyAtStart(CanonicalUrl(v), 's', 'r')
  {
  }

  /** The language attribute of every table language is untouched by the later rewrites. */
  lemma HtmlLangApart(lang: string)
    requires lang in Languages
    ensures NoOverlap(HtmlLang(lang), OgLocaleEn) && NoOverlap(HtmlLang(lang), LanguageEnglish)
    ensures ApartFromCanonical(HtmlLang(lang)) && NoOverlap(HtmlLang(lang), InLanguageEn)
    ensures NoOverlap(HtmlLang(lang), HrefUp) && NoOverlap(HtmlLang(lang), SrcUp)
  {
    var q := HtmlLang(lang);
    OpeningBrackets();
    OpeningBracketsElsewhere();
    RewriteTextChars();
    TableForms(lang);
    HtmlLangChars(lang);
    NoOverlapByEnds(q, OgLocaleEn, 1, 0, 0);
    NoOverlapByEnds(q, LanguageEnglish, 1, 0, 0);
    ApartFromCanonicalByPairs(q);
    NoOverlapByEnds(q, InLanguageEn, 0, 3, 0);
    NoOverlapByEnds(q, HrefUp, 0, 6, 0);
    NoOverlapByEnds(q, SrcUp, 0, 5, 0);
  }

  /** The locale tag of every table language is untouched by the later rewrites. */
  lemma OgLocaleApart(lang: string)
    requires lang in Languages
    ensures var q := OgLocale(Languages[lang].ogLocale);
      NoOverlap(q, LanguageEnglish) && ApartFromCanonical(q) && NoOverlap(q, InLanguageEn) &&
      NoOverlap(q, HrefUp) && NoOverlap(q, SrcUp)
  {
    var q := OgLocale(Languages[lang].ogLocale);
    OpeningBrackets();
    OpeningBracketsElsewhere();
    RewriteTextChars();
    TableForms(lang);
    OgLocaleBrackets(Languages[lang].ogLocale);
    OgLocaleChars(Languages[lang].ogLocale);
    OgLocaleNoU(Languages[lang].ogLocale);
    NoOverlapByEnds(q, LanguageEnglish, 6, 0, 0);
    ApartFromCanonicalByPairs(q);
    NoOverlapByEnds(q, InLanguageEn, 0, 7, 0);
    NoOverlapByEnds(q, HrefUp, 0, 6, 0);
    NoOverlapByEnds(q, SrcUp, 0, 5, 0);
  }

  /** The language-name tag of every table language is untouched by the later rewrites. */
  lemma LanguageNameApart(lang: string)
    requires lang in Languages
    ensures var q := Language(Languages[lang].name);
      ApartFromCanonical(q) && NoOverlap(q, InLanguageEn) && NoOverlap(q, HrefUp) && NoOverlap(q, SrcUp)
  {
    var q := Language(Languages[lang].name);
    OpeningBracketsElsewhere();
    RewriteTextChars();
    TableNames(lang);
    LanguageChars(Languages[lang].name);
    ApartFromCanonicalByPairs(q);
    NoOverlapByEnds(q, InLanguageEn, 0, 12, 0);
    NoOverlapByEnds(q, HrefUp, 0, 6, 0);
    NoOverlapByEnds(q, SrcUp, 0, 5, 0);
  }

  lemma LanguageChars(v: string)
    requires NameForm(v)
    ensures var q := Language(v);
      PairOnlyAtStart(q, 'h', 'r') && '.' !in q && ':' !in q && q[0] == '<' && q[1] == 'm' && q[|q| - 1] == '>'
  {
    var q := Language(v);
    var pre := "<meta name=\"language\" content=\"";
    assert q == pre + v + "\"/>";
    forall i | 1 <= i < |q| - 1 && q[i] == 'h'
      ensures q[i + 1] != 'r'
    {
      if |pre| <= i < |pre| + |v| - 1 {
        assert q[i] == v[i - |pre|] && q[i + 1] == v[i + 1 - |pre|];
      }
    }
    forall i | 0 <= i < |q|
      ensures q[i] != '.' && q[i] != ':'
    {
      if |pre| <= i < |pre| + |v| {
        assert q[i] == v[i - |pre|];
      }
    }
  }

  /** The English language-name tag is untouched by the two rewrites before its own. */
  lemma LanguageEnglishApart()
    ensures NoOverlap(LanguageEnglish, HtmlLangEn) && NoOverlap(LanguageEnglish, OgLocaleEn)
  {
    OpeningBrackets();
    NoOverlapByEnds(LanguageEnglish, HtmlLangEn, 1, 0, 0);
    NoOverlapByEnds(LanguageEnglish, OgLocaleEn, 6, 0, 0);
  }

  /** The language's canonical link is untouched by the later rewrites, and the site's link by the earlier ones. */
  lemma CanonicalApart(lang: string)
    requires lang in Languages
    ensures NoOverlap(CanonicalUrl(lang), InLanguageEn)
    ensures NoOverlap(CanonicalUrl(lang), HrefUp) && NoOverlap(CanonicalUrl(lang), SrcUp)
  {
    var q := CanonicalUrl(lang);
    RewriteTextChars();
    TableForms(lang);
    CanonicalUrlChars(lang);
    CanonicalUrlPairs(lang);
    CanonicalUrlSrcPairs(lang);
    NoOverlapByEnds(q, InLanguageEn, 0, 3, 0);
    NoOverlapByEnds(q, HrefUp, 6, 0, 0);
    NoOverlapByEnds(q, SrcUp, 0, 0, 0);
  }

  /** The site's canonical link and its English locale tag are untouched by the rewrites before theirs. */
  lemma EnglishTextsApart()
    ensures NoOverlap(CanonicalPattern, HtmlLangEn) && NoOverlap(CanonicalPattern, OgLocaleEn)
    ensures NoOverlap(CanonicalPattern, LanguageEnglish)
  {
    CanonicalApartFrom(HtmlLangEn);
    CanonicalApartFrom(OgLocaleEn);
    CanonicalApartFrom(LanguageEnglish);
  }

  /** The site's canonical link cannot overlap an English tag. */
  lemma CanonicalApartFrom(tag: string)
    requires tag == HtmlLangEn || tag == OgLocaleEn || tag == LanguageEnglish
    ensures NoOverlap(CanonicalPattern, tag)
  {
    OpeningBracketsElsewhere();
    EnglishTagChars();
    assert tag[0] == '<' && tag[|tag| - 1] == '>';
    NoOverlapByEnds(CanonicalPattern, tag, 0, 0, 0);
  }

  /** The English locale tag is untouched by the language-attribute rewrite. */
  lemma LocaleTagApart()
    ensures NoOverlap(OgLocaleEn, HtmlLangEn)
  {
    OpeningBrackets();
    NoOverlapByEnds(OgLocaleEn, HtmlLangEn, 1, 0, 0);
  }

  /** An English article's `<html lang="en">` comes out as the language's attribute. */
  lemma UpdateSetsLang(s: string, lang: string)
    requires lang in Languages && Contains(s, HtmlLangEn)
    ensures Contains(UpdateArticleForLanguage(s, lang).value, HtmlLang(lang))
  {
    var c := Languages[lang];
    var q := HtmlLang(lang);
    HtmlLangApart(lang);
    var s1 := Swap(s, HtmlLangEn, q);
    var s2 := Swap(s1, OgLocaleEn, OgLocale(c.ogLocale));
    SwapKeeps(s1, OgLocaleEn, OgLocale(c.ogLocale), q);
    var s3 := Swap(s2, LanguageEnglish, Language(c.name));
    SwapKeeps(s2, LanguageEnglish, Language(c.name), q);
    var s4 := CanonicalStep(s3, lang);
    CanonicalKeeps(s3, lang, q);
    SwapKeeps(s4, InLanguageEn, InLanguage(lang), q);
    RelinkKeeps(Metadata(s, lang, c), q);
  }

  /** An English article's `en_US` locale tag comes out as the language's locale tag. */
  lemma UpdateSetsLocale(s: string, lang: string)
    requires lang in Languages && Contains(s, OgLocaleEn)
    ensures Contains(UpdateArticleForLanguage(s, lang).value, OgLocale(Languages[lang].ogLocale))
  {
    var c := Languages[lang];
    var q := OgLocale(c.ogLocale);
    OgLocaleApart(lang);
    var s1 := Swap(s, HtmlLangEn, HtmlLang(lang));
    LocaleTagApart();
    SwapKeeps(s, HtmlLangEn, HtmlLang(lang), OgLocaleEn);
    var s2 := Swap(s1, OgLocaleEn, q);
    var s3 := Swap(s2, LanguageEnglish, Language(c.name));
    SwapKeeps(s2, LanguageEnglish, Language(c.name), q);
    var s4 := CanonicalStep(s3, lang);
    CanonicalKeeps(s3, lang, q);
    SwapKeeps(s4, InLanguageEn, InLanguage(lang), q);
    RelinkKeeps(Metadata(s, lang, c), q);
  }

  /** An English article's language-name tag comes out naming the language. */
  lemma UpdateSetsLanguageName(s: string, lang: string)
    requires lang in Languages && Contains(s, LanguageEnglish)
    ensures Contains(UpdateArticleForLanguage(s, lang).value, Language(Languages[lang].name))
  {
    var c := Languages[lang];
    var q := Language(c.name);
    LanguageNameApart(lang);
    LanguageEnglishApart();
    var s1 := Swap(s, HtmlLangEn, HtmlLang(lang));
    SwapKeeps(s, HtmlLangEn, HtmlLang(lang), LanguageEnglish);
    var s2 := Swap(s1, OgLocaleEn, OgLocale(c.ogLocale));
    SwapKeeps(s1, OgLocaleEn, OgLocale(c.ogLocale), LanguageEnglish);
    var s3 := Swap(s2, LanguageEnglish, q);
    var s4 := CanonicalStep(s3, lang);
    CanonicalKeeps(s3, lang, q);
    SwapKeeps(s4, InLanguageEn, InLanguage(lang), q);
    RelinkKeeps(Metadata(s, lang, c), q);
  }

  /** An English article with the site's canonical link comes out with the language's canonical link. */
  lemma UpdateSetsCanonical(s: string, lang: string)
    requires lang in Languages && Contains(s, CanonicalPattern)
    ensures Contains(UpdateArticleForLanguage(s, lang).value, CanonicalUrl(lang))
  {
    var c := Languages[lang];
    var q := CanonicalUrl(lang);
    CanonicalApart(lang);
    EnglishTextsApart();
    var s1 := Swap(s, HtmlLangEn, HtmlLang(lang));
    SwapKeeps(s, HtmlLangEn, HtmlLang(lang), CanonicalPattern);
    var s2 := Swap(s1, OgLocaleEn, OgLocale(c.ogLocale));
    SwapKeeps(s1, OgLocaleEn, OgLocale(c.ogLocale), CanonicalPattern);
    var s3 := Swap(s2, LanguageEnglish, Language(c.name));
    SwapKeeps(s2, LanguageEnglish, Language(c.name), CanonicalPattern);
    var s4 := CanonicalStep(s3, lang);
    CanonicalInserts(s3, lang);
    SwapKeeps(s4, InLanguageEn, InLanguage(lang), q);
    RelinkKeeps(Metadata(s, lang, c), q);
  }

  /**
   * An English article with the site's language attribute and canonical
   * link passes the canonical and language checks once translated; only
   * the relative-link check can still flag it.
   */
  lemma UpdatedPassesMetadataChecks(s: string, lang: string)
    requires lang in Languages && Contains(s, HtmlLangEn) && Contains(s, CanonicalPattern)
    ensures var r := ValidateLinks(UpdateArticleForLanguage(s, lang).value, lang);
      CanonicalIssue(lang) !in r && LangIssue(lang) !in r
  {
    var t := UpdateArticleForLanguage(s, lang).value;
    UpdateSetsLang(s, lang);
    UpdateSetsCanonical(s, lang);
    var p := ContainsWitness(t, CanonicalUrl(lang));
    DotSearchAt(CanonicalUrl(lang), t, p);
    var q := ContainsWitness(t, HtmlLang(lang));
    DotSearchAt(HtmlLang(lang), t, q);
  }

  // ------------------------------------------------------------ link check

  const RelativeIssue: string := "Found ../ links (should be ../../ for translated versions)"
  function CanonicalIssue(lang: string): string { "Canonical URL not updated for language " + lang }
  function LangIssue(lang: string): string { "HTML lang attribute not set to " + lang }

  /** `validate_links`: the three checks, in order. */
  function ValidateLinks(s: string, lang: string): (r: seq<string>)
    ensures r == [] <==> !Contains(s, HrefUp) && DotSearch(CanonicalUrl(lang), s) && DotSearch(HtmlLang(lang), s)
    ensures Contains(s, HrefUp) ==> r[0] == RelativeIssue
    ensures |r| <= 3
  {
    (if Contains(s, HrefUp) then [RelativeIssue] else []) +
    (if !DotSearch(CanonicalUrl(lang), s) then [CanonicalIssue(lang)] else []) +
    (if !DotSearch(HtmlLang(lang), s) then [LangIssue(lang)] else [])
  }

  /**
   * A translated article that still had a relative link before relinking is
   * flagged by the link check, although its links were made deeper: the
   * deeper `href="../../` still holds `href="../`.
   */
  lemma RelinkedStillFlagged(s: string, lang: string)
    requires lang in Languages && Contains(Metadata(s, lang, Languages[lang]), HrefUp)
    ensures var r := ValidateLinks(UpdateArticleForLanguage(s, lang).value, lang);
      r != [] && r[0] == RelativeIssue
  {
    RelinkGrows(Metadata(s, lang, Languages[lang]));
  }

  /** `--validate-links`: the language is the first directory of the article's path. */
  function ValidateArticle(path: string, content: string): (r: seq<string>)
    ensures |r| <= 3
    ensures r == [] ==> DotSearch(HtmlLang(Split(path, '/')[0]), content)
  {
    ValidateLinks(content, Split(path, '/')[0])
  }
}

/**
 * `scripts/add-resource-hints.py`: pages get preconnect, preload and
 * stylesheet hints in their head, and external scripts get `defer` or
 * `async`.
 *
 * The hint lines are kept as a list and joined with newlines, as the
 * script does. The script-tag pattern `<script\s+src="([^"]+)"([^>]*)></script>`
 * is written out as the match it amounts to: the whitespace run after
 * `<script`, `src="`, the value up to the next quote, the attributes up to
 * the next `>`, and `</script>` right after it.
 */
module ResourceHints {
  import opened Wrappers
  import opened Strings
  import opened Patterns

  const Preconnect: string := "rel=\"preconnect\""
  const Preload: string := "rel=\"preload\""
  const Cdn: string := "cdn.jsdelivr.net"
  const HeaderFooterCss: string := "modern-header-footer.css"
  const PerformanceCss: string := "performance.css"

  /** The change messages `add_resource_hints_to_head` and `optimize_script_loading` report. */
  datatype Change =
    | AddedCdnPreconnect
    | AddedCssPreload
    | AddedHeroPreload
    | AddedPerformanceCss
    | AddedAsync(src: string)
    | AddedDefer(src: string)

  // ------------------------------------------------------------ hint blocks

  const CdnLines: seq<string> :=
    ["  <!-- DNS Prefetch and Preconnect for faster CDN loading -->",
     "  <link rel=\"dns-prefetch\" href=\"https://cdn.jsdelivr.net\">",
     "  <link rel=\"preconnect\" href=\"https://cdn.jsdelivr.net\" crossorigin>"]

  const CssLines: seq<string> :=
    ["",
     "  <!-- Preload critical CSS for faster rendering -->",
     "  <link rel=\"preload\" href=\"./assets/css/modern-header-footer.css\" as=\"style\">"]

  const HeroLines: seq<string> :=
    ["",
     "  <!-- Preload hero logo for faster LCP -->",
     "  <link rel=\"preload\" href=\"./assets/footer_picture.png\" as=\"image\">"]

  const PerformanceLines: seq<string> :=
    ["",
     "  <!-- Performance optimizations for Core Web Vitals -->",
     "  <link rel=\"stylesheet\" href=\"./assets/css/performance.css\">"]

  /** The message of a head hint, as opposed to a script rewrite. */
  predicate IsHint(c: Change)
  {
    !c.AddedAsync? && !c.AddedDefer?
  }

  /** The lines of the block that reports `c`. */
  function Lines(c: Change): (r: seq<string>)
    ensures IsHint(c) ==> |r| == 3
  {
    match c
    case AddedCdnPreconnect => CdnLines
    case AddedCssPreload => CssLines
    case AddedHeroPreload => HeroLines
    case AddedPerformanceCss => PerformanceLines
    case _ => []
  }

  /** One hint block: its condition and its change message; its lines are `Lines(change)`. */
  datatype Block = Block(wanted: bool, change: Change)

  /** What the script looks up in a page before it picks the blocks. */
  datatype Page = Page(cdn: bool, preconnect: bool, headerFooterCss: bool, preload: bool, index: bool, performanceCss: bool)

  function Scan(content: string, filepath: string): Page
  {
    Page(Contains(content, Cdn), Contains(content, Preconnect), Contains(content, HeaderFooterCss),
         Contains(content, Preload), filepath == "index.html", Contains(content, PerformanceCss))
  }

  /** The four blocks in the order the script considers them. */
  function Blocks(p: Page): seq<Block>
  {
    [Block(p.cdn && !p.preconnect, AddedCdnPreconnect),
     Block(p.headerFooterCss && !p.preload, AddedCssPreload),
     Block(p.index, AddedHeroPreload),
     Block(!p.performanceCss, AddedPerformanceCss)]
  }

  /** Each message is listed exactly when its block is wanted. */
  lemma BlockChanges(p: Page)
    ensures var cs := HintChanges(Blocks(p));
      (AddedCdnPreconnect in cs <==> p.cdn && !p.preconnect) &&
      (AddedCssPreload in cs <==> p.headerFooterCss && !p.preload) &&
      (AddedHeroPreload in cs <==> p.index) &&
      (AddedPerformanceCss in cs <==> !p.performanceCss)
  {
    var blocks := Blocks(p);
    assert blocks[0].change == AddedCdnPreconnect && blocks[1].change == AddedCssPreload;
    assert blocks[2].change == AddedHeroPreload && blocks[3].change == AddedPerformanceCss;
  }

  lemma BlocksAreHints(p: Page)
    ensures forall k :: 0 <= k < |Blocks(p)| ==> IsHint(Blocks(p)[k].change)
  {
  }

  /** The `hints` list: the lines of the wanted blocks, in order. */
  function HintLines(blocks: seq<Block>): seq<string>
  {
    if blocks == [] then []
    else (if blocks[0].wanted then Lines(blocks[0].change) else []) + HintLines(blocks[1..])
  }

  /** Every block has three lines, so there are three hint lines per message. */
  lemma {:induction false} HintLinesLength(blocks: seq<Block>)
    requires forall k :: 0 <= k < |blocks| ==> IsHint(blocks[k].change)
    ensures |HintLines(blocks)| == 3 * |HintChanges(blocks)|
  {
    if blocks != [] {
      HintLinesLength(blocks[1..]);
    }
  }

  /** The `changes` list: the messages of the wanted blocks, in order. */
  function HintChanges(blocks: seq<Block>): (r: seq<Change>)
    ensures |r| <= |blocks|
    ensures forall c :: c in r <==> exists k :: 0 <= k < |blocks| && blocks[k].wanted && blocks[k].change == c
  {
    if blocks == [] then []
    else
      var rest := HintChanges(blocks[1..]);
      assert forall k :: 1 <= k < |blocks| ==> blocks[k] == blocks[1..][k - 1];
      (if blocks[0].wanted then [blocks[0].change] else []) + rest
  }

  // ------------------------------------------------------------ the insertion point

  const ThemeColor: string := "<meta name=\"theme-color\""
  const StylesheetLink: string := "<link rel=\"stylesheet\""
  const HeadClose: string := "</head>"

  /**
   * The end of a match of `<meta name="theme-color"[^>]*>\n` starting at
   * `i`: the first `>` after the opening must be followed by a newline.
   */
  function ThemeMatchAt(s: string, i: nat): (r: Option<nat>)
    ensures r.Some? ==> OccursAt(s, ThemeColor, i) && i + |ThemeColor| < r.value <= |s|
    ensures r.Some? ==> s[r.value - 2] == '>' && s[r.value - 1] == '\n'
    ensures r.Some? ==> '>' !in s[i + |ThemeColor|..r.value - 2]
  {
    if !OccursAt(s, ThemeColor, i) then None
    else
      var k := i + |ThemeColor|;
      match SplitOnce(s[k..], ">")
      case None => None
      case Some((attrs, rest)) =>
        ContainsChar(attrs, '>');
        var q := k + |attrs|;
        assert s[k..] == attrs + ">" + rest;
        assert s[k..q] == attrs;
        if q + 1 < |s| && s[q + 1] == '\n' then Some(q + 2) else None
  }

  /** `re.search` for the theme-color line from position `i` on: the end of the leftmost match. */
  function ThemeColorEnd(s: string, i: nat): (r: Option<nat>)
    ensures r.Some? ==>
      exists j :: i <= j && ThemeMatchAt(s, j) == r && (forall k :: i <= k < j ==> ThemeMatchAt(s, k).None?)
    ensures r.None? ==> forall j :: i <= j ==> ThemeMatchAt(s, j).None?
    decreases |s| - i
  {
    if i > |s| then
      assert forall j :: i <= j ==> !OccursAt(s, ThemeColor, j);
      None
    else if ThemeMatchAt(s, i).Some? then ThemeMatchAt(s, i)
    else ThemeColorEnd(s, i + 1)
  }

  /** Where the hints go: after the theme-color line, else before the first stylesheet link, else before `</head>`. */
  function InsertionPoint(s: string): (r: Option<nat>)
    ensures r.Some? ==> r.value <= |s|
    ensures ThemeColorEnd(s, 0).Some? ==> r == ThemeColorEnd(s, 0)
    ensures ThemeColorEnd(s, 0).None? && Contains(s, StylesheetLink) ==> r == IndexOf(s, StylesheetLink)
    ensures ThemeColorEnd(s, 0).None? && !Contains(s, StylesheetLink) ==> r == IndexOf(s, HeadClose)
    ensures r.None? <==> ThemeColorEnd(s, 0).None? && !Contains(s, StylesheetLink) && !Contains(s, HeadClose)
  {
    if ThemeColorEnd(s, 0).Some? then ThemeColorEnd(s, 0)
    else if IndexOf(s, StylesheetLink).Some? then IndexOf(s, StylesheetLink)
    else IndexOf(s, HeadClose)
  }

  /** The inserted text: the hint lines joined by newlines and a blank line. */
  function HintsText(hints: seq<string>): (r: string)
    ensures |r| >= 2 && r[|r| - 2..] == "\n\n"
  {
    Join(hints, "\n") + "\n\n"
  }

  /** Before the blank line the inserted text splits back into the hint lines. */
  lemma HintsTextLines(hints: seq<string>)
    requires hints != [] && forall k :: 0 <= k < |hints| ==> '\n' !in hints[k]
    ensures var r := HintsText(hints); Split(r[..|r| - 2], '\n') == hints
  {
    var r := HintsText(hints);
    assert r[..|r| - 2] == Join(hints, "\n");
    JoinSplit(hints, '\n');
  }

  /** The page with the hint lines put in at the insertion point, when there are lines and the point is found and non-zero. */
  function InsertHints(content: string, hints: seq<string>): string
  {
    if hints == [] then content
    else
      match InsertionPoint(content)
      case Some(p) => if p != 0 then content[..p] + HintsText(hints) + content[p..] else content
      case None => content
  }

  /** The page changes exactly when the lines go in, and then it grows by the inserted text. */
  lemma InsertHintsCases(content: string, hints: seq<string>)
    ensures var p := InsertionPoint(content);
      if hints != [] && p.Some? && p.value != 0 then
        InsertHints(content, hints) == content[..p.value] + HintsText(hints) + content[p.value..] &&
        |InsertHints(content, hints)| == |content| + |HintsText(hints)| &&
        InsertHints(content, hints) != content
      else
        InsertHints(content, hints) == content
  {
  }

  /** `add_resource_hints_to_head`: the new content and the change messages. */
  function AddResourceHints(content: string, filepath: string): (r: (string, seq<Change>))
  {
    var page := Scan(content, filepath);
    if page.preconnect && page.preload then (content, [])
    else
      var blocks := Blocks(page);
      (InsertHints(content, HintLines(blocks)), HintChanges(blocks))
  }

  /** A page with both hints already gets nothing. */
  lemma HintedPageUnchanged(content: string, filepath: string)
    requires Contains(content, Preconnect) && Contains(content, Preload)
    ensures AddResourceHints(content, filepath) == (content, [])
  {
  }

  /** Each message is reported exactly when its block's condition holds (and the page is not already hinted). */
  lemma HintConditions(content: string, filepath: string)
    ensures var cs := AddResourceHints(content, filepath).1;
      var hinted := Contains(content, Preconnect) && Contains(content, Preload);
      (AddedCdnPreconnect in cs <==> Contains(content, Cdn) && !Contains(content, Preconnect)) &&
      (AddedCssPreload in cs <==> Contains(content, HeaderFooterCss) && !Contains(content, Preload)) &&
      (AddedHeroPreload in cs <==> !hinted && filepath == "index.html") &&
      (AddedPerformanceCss in cs <==> !hinted && !Contains(content, PerformanceCss))
  {
    BlockChanges(Scan(content, filepath));
  }

  /**
   * The hints are inserted once, at the insertion point, when there are
   * hints and the point is found and non-zero; the page is unchanged
   * otherwise, with the messages still reported.
   */
  lemma HintsInsertedOnce(content: string, filepath: string)
    ensures var r := AddResourceHints(content, filepath);
      var hinted := Contains(content, Preconnect) && Contains(content, Preload);
      var hints := HintLines(Blocks(Scan(content, filepath)));
      var p := InsertionPoint(content);
      if !hinted && hints != [] && p.Some? && p.value != 0 then
        r.0 == content[..p.value] + HintsText(hints) + content[p.value..] && |r.0| == |content| + |HintsText(hints)|
      else
        r.0 == content
  {
    InsertHintsCases(content, HintLines(Blocks(Scan(content, filepath))));
  }

  /** The content changes exactly when some message is reported and the insertion point is found and non-zero. */
  lemma HintsChangeContent(content: string, filepath: string)
    ensures var r := AddResourceHints(content, filepath);
      r.0 != content <==> r.1 != [] && InsertionPoint(content).Some? && InsertionPoint(content).value != 0
  {
    var page := Scan(content, filepath);
    if !(page.preconnect && page.preload) {
      var blocks := Blocks(page);
      BlocksAreHints(page);
      HintLinesLength(blocks);
      InsertHintsCases(content, HintLines(blocks));
    }
  }

  /** A page with no insertion point reports messages it does not write: an index page always gets the hero message. */
  lemma ReportedWithoutInsertion(content: string, filepath: string)
    requires InsertionPoint(content).None?
    ensures AddResourceHints(content, filepath).0 == content
    ensures filepath == "index.html" && !(Contains(content, Preconnect) && Contains(content, Preload)) ==>
      AddedHeroPreload in AddResourceHints(content, filepath).1
  {
    var page := Scan(content, filepath);
    if !(page.preconnect && page.preload) {
      InsertHintsCases(content, HintLines(Blocks(page)));
      BlockChanges(page);
    }
  }

  // ------------------------------------------------------------ script loading

  /** A match of the script pattern: the whitespace after `<script`, the source and the attributes. */
  datatype ScriptTag = ScriptTag(ws: string, src: string, attrs: string)

  const ScriptOpen: string := "<script"
  const SrcAttr: string := "src=\""
  const ScriptClose: string := "></script>"

  /** The part of a match after `src="`. */
  function TagRest(src: string, attrs: string, tail: string): string
  {
    src + "\"" + (attrs + (ScriptClose + tail))
  }

  function FullTag(m: ScriptTag): string
  {
    ScriptOpen + m.ws + SrcAttr + m.src + "\"" + m.attrs + ScriptClose
  }

  lemma FullTagParts(m: ScriptTag, tail: string)
    ensures FullTag(m) + tail == ScriptOpen + (m.ws + (SrcAttr + TagRest(m.src, m.attrs, tail)))
  {
  }

  /** The groups as the pattern can capture them. */
  predicate WellFormed(m: ScriptTag)
  {
    m.ws != [] && AllSpace(m.ws) && m.src != [] && '"' !in m.src && '>' !in m.attrs
  }

  /** After `src="`: the value, the attributes, `</script>` and the rest. */
  function ScriptRest(u: string): (r: Option<(string, string, string)>)
    ensures r.Some? ==> var (src, attrs, tail) := r.value;
      u == TagRest(src, attrs, tail) && src != [] && '"' !in src && '>' !in attrs
  {
    match SplitOnce(u, "\"")
    case None => None
    case Some((src, rest)) =>
      if src == [] then None
      else
        match SplitOnce(rest, ">")
        case None => None
        case Some((attrs, after)) =>
          if "</script>" <= after then
            ContainsChar(src, '"');
            ContainsChar(attrs, '>');
            ScriptRestParts(u, src, rest, attrs, after);
            Some((src, attrs, after[9..]))
          else None
  }

  lemma ScriptRestParts(u: string, src: string, rest: string, attrs: string, after: string)
    requires u == src + "\"" + rest && rest == attrs + ">" + after && "</script>" <= after
    ensures u == TagRest(src, attrs, after[9..])
  {
    assert after == "</script>" + after[9..];
    assert ">" + after == ScriptClose + after[9..];
  }

  /** The match of the script pattern at the start of `s` and the text after it. */
  function MatchScript(s: string): (r: Option<(ScriptTag, string)>)
    ensures r.Some? ==> WellFormed(r.value.0) && s == FullTag(r.value.0) + r.value.1
  {
    if !(ScriptOpen <= s) then None
    else
      var rest := s[7..];
      var ws := LeadingSpace(rest);
      var after := rest[|ws|..];
      if ws == [] || !(SrcAttr <= after) then None
      else
        match ScriptRest(after[5..])
        case None => None
        case Some((src, attrs, tail)) =>
          var m := ScriptTag(ws, src, attrs);
          MatchParts(s, rest, after, m, tail);
          Some((m, tail))
  }

  lemma MatchParts(s: string, rest: string, after: string, m: ScriptTag, tail: string)
    requires ScriptOpen <= s && rest == s[7..] && m.ws <= rest && after == rest[|m.ws|..] && SrcAttr <= after
    requires after[5..] == TagRest(m.src, m.attrs, tail)
    ensures s == FullTag(m) + tail
  {
    assert s == ScriptOpen + rest;
    assert rest == m.ws + after;
    assert after == SrcAttr + after[5..];
    FullTagParts(m, tail);
  }

  /** Every well-formed tag is matched back, with the text after it. */
  lemma MatchFullTag(m: ScriptTag, tail: string)
    requires WellFormed(m)
    ensures MatchScript(FullTag(m) + tail) == Some((m, tail))
  {
    var s := FullTag(m) + tail;
    var u := TagRest(m.src, m.attrs, tail);
    FullTagParts(m, tail);
    assert s[7..] == m.ws + (SrcAttr + u);
    LeadingSpaceOf(m.ws, SrcAttr + u);
    assert s[7..][|m.ws|..] == SrcAttr + u;
    assert (SrcAttr + u)[5..] == u;
    ScriptRestOf(m.src, m.attrs, tail);
  }

  lemma ScriptRestOf(src: string, attrs: string, tail: string)
    requires src != [] && '"' !in src && '>' !in attrs
    ensures ScriptRest(TagRest(src, attrs, tail)) == Some((src, attrs, tail))
  {
    var closed := "</script>" + tail;
    assert TagRest(src, attrs, tail) == src + ['"'] + (attrs + (ScriptClose + tail));
    SplitOnceChar(src, '"', attrs + (ScriptClose + tail));
    assert attrs + (ScriptClose + tail) == attrs + ['>'] + closed;
    SplitOnceChar(attrs, '>', closed);
    assert closed[9..] == tail;
  }

  /** The loading attribute a script gets: `async` for `http` sources, `defer` otherwise. */
  function LoadingFor(src: string): string
  {
    if "http" <= src then " async" else " defer"
  }

  /**
   * `replace_script`: `None` when the match is returned as it is (it already
   * has `defer` or `async`, or is JSON-LD); otherwise the rebuilt tag and
   * its message.
   */
  function ReplaceScript(m: ScriptTag): (r: Option<(ScriptTag, Change)>)
    ensures r.None? <==> Contains(m.attrs, "defer") || Contains(m.attrs, "async") || Contains(m.attrs, "application/ld+json")
    ensures r.Some? ==> r.value.0 == ScriptTag(" ", m.src, m.attrs + LoadingFor(m.src))
    ensures r.Some? ==> r.value.1 == (if "http" <= m.src then AddedAsync(m.src) else AddedDefer(m.src))
  {
    if Contains(m.attrs, "defer") || Contains(m.attrs, "async") then None
    else if Contains(m.attrs, "application/ld+json") then None
    else if "http" <= m.src then Some((ScriptTag(" ", m.src, m.attrs + " async"), AddedAsync(m.src)))
    else Some((ScriptTag(" ", m.src, m.attrs + " defer"), AddedDefer(m.src)))
  }

  lemma LoadingContains(src: string)
    ensures Contains(LoadingFor(src), "defer") || Contains(LoadingFor(src), "async")
    ensures '>' !in LoadingFor(src)
  {
    if "http" <= src {
      ContainsMiddle(" ", "async", []);
      assert " " + "async" + [] == LoadingFor(src);
    } else {
      ContainsMiddle(" ", "defer", []);
      assert " " + "defer" + [] == LoadingFor(src);
    }
  }

  /** A rebuilt tag is matched back as itself and then left alone: one rewrite per tag. */
  lemma RewrittenKept(m: ScriptTag, tail: string)
    requires WellFormed(m) && ReplaceScript(m).Some?
    ensures var n := ReplaceScript(m).value.0;
      WellFormed(n) && MatchScript(FullTag(n) + tail) == Some((n, tail)) && ReplaceScript(n).None?
  {
    var n := ReplaceScript(m).value.0;
    LoadingContains(m.src);
    if Contains(LoadingFor(m.src), "defer") {
      ContainsInSuffix(m.attrs, LoadingFor(m.src), "defer");
    } else {
      ContainsInSuffix(m.attrs, LoadingFor(m.src), "async");
    }
    MatchFullTag(n, tail);
  }

  /** What the scan puts in place of a match. */
  function Replacement(m: ScriptTag): string
  {
    match ReplaceScript(m)
    case None => FullTag(m)
    case Some((n, _)) => FullTag(n)
  }

  /** `re.sub(script_pattern, replace_script, content)`. */
  function ScriptsText(s: string): string
    decreases |s|
  {
    if s == [] then []
    else
      match MatchScript(s)
      case Some((m, tail)) => Replacement(m) + ScriptsText(tail)
      case None => [s[0]] + ScriptsText(s[1..])
  }

  /** Its messages, one per rebuilt tag, in page order. */
  function ScriptChanges(s: string): seq<Change>
    decreases |s|
  {
    if s == [] then []
    else
      match MatchScript(s)
      case Some((m, tail)) =>
        (if ReplaceScript(m).Some? then [ReplaceScript(m).value.1] else []) + ScriptChanges(tail)
      case None => ScriptChanges(s[1..])
  }

  /** `optimize_script_loading`: the new content and the messages. */
  function OptimizeScripts(s: string): (string, seq<Change>)
  {
    (ScriptsText(s), ScriptChanges(s))
  }

  /** With no message, no tag was rebuilt and the page comes back as it was. */
  lemma {:induction false} NoScriptChangesUnchanged(s: string)
    requires ScriptChanges(s) == []
    ensures ScriptsText(s) == s
    decreases |s|
  {
    if s != [] {
      match MatchScript(s)
      case Some((m, tail)) =>
        NoScriptChangesUnchanged(tail);
      case None =>
        NoScriptChangesUnchanged(s[1..]);
    }
  }

  // ------------------------------------------------------------ files

  /**
   * `process_file` on an existing page: the hints, then the scripts; the
   * page is written exactly when its content changed, and all messages
   * are reported either way.
   */
  function ProcessFile(content: string, filepath: string): (r: (Option<string>, seq<Change>))
    ensures r.0.Some? ==> r.0.value != content
    ensures r.0.Some? ==> r.0.value == OptimizeScripts(AddResourceHints(content, filepath).0).0
    ensures r.0.None? ==> OptimizeScripts(AddResourceHints(content, filepath).0).0 == content
    ensures r.1 == AddResourceHints(content, filepath).1 + OptimizeScripts(AddResourceHints(content, filepath).0).1
  {
    var (s1, c1) := AddResourceHints(content, filepath);
    var (s2, c2) := OptimizeScripts(s1);
    (if s2 != content then Some(s2) else None, c1 + c2)
  }

  /** With no message at all, nothing is written. */
  lemma NoMessagesNoWrite(content: string, filepath: string)
    requires ProcessFile(content, filepath).1 == []
    ensures ProcessFile(content, filepath).0.None?
  {
    HintsChangeContent(content, filepath);
    NoScriptChangesUnchanged(AddResourceHints(content, filepath).0);
  }

  /** The number of messages for one page: its path and, when the file exists, its content. */
  function Improvements(page: (string, Option<string>)): nat
  {
    if page.1.Some? then |ProcessFile(page.1.value, page.0).1| else 0
  }

  function FilesWithChanges(pages: seq<(string, Option<string>)>): nat
  {
    if pages == [] then 0
    else FilesWithChanges(pages[..|pages| - 1]) + (if Improvements(pages[|pages| - 1]) > 0 then 1 else 0)
  }

  function TotalImprovements(pages: seq<(string, Option<string>)>): nat
  {
    if pages == [] then 0 else TotalImprovements(pages[..|pages| - 1]) + Improvements(pages[|pages| - 1])
  }

  /** Files with messages are counted, not files written; each counted file has at least one message. */
  lemma {:induction false} CountersBounded(pages: seq<(string, Option<string>)>)
    ensures FilesWithChanges(pages) <= |pages|
    ensures FilesWithChanges(pages) <= TotalImprovements(pages)
  {
    if pages != [] {
      CountersBounded(pages[..|pages| - 1]);
    }
  }

  /** `main`: missing files are skipped; the counters tally the files with messages and the messages. */
  method AddHintsToAll(pages: seq<(string, Option<string>)>) returns (totalFiles: nat, totalChanges: nat)
    ensures totalFiles == FilesWithChanges(pages)
    ensures totalChanges == TotalImprovements(pages)
  {
    totalFiles, totalChanges := 0, 0;
    for i := 0 to |pages|
      invariant totalFiles == FilesWithChanges(pages[..i])
      invariant totalChanges == TotalImprovements(pages[..i])
    {
      assert pages[..i + 1][..i] == pages[..i];
      var changes := Improvements(pages[i]);
      if changes > 0 {
        totalFiles := totalFiles + 1;
        totalChanges := totalChanges + changes;
      }
    }
    assert pages[..|pages|] == pages;
  }
}

/**
 * `generate_lang_index.py`: the English home page rewritten for each
 * language directory: language attributes, locale, canonical and social
 * URLs, title and the description/keyword/social meta values.
 *
 * Each `re.sub(r'<meta ... content="[^"]*"', ...)` is the scan `ReplaceMeta`:
 * at every position where the fixed opening occurs and a closing quote
 * follows, the quoted value is replaced and the scan resumes after it.
 */
module LangIndex {
  import opened Wrappers
  import opened Strings

  /** One entry of the language table. */
  datatype Config = Config(lang: string, locale: string, languageName: string, title: string, description: string, keywords: string)

  const Site: string := "https://web.tvmaster.vip/"
  const EnglishTitle: string := "<title>TVMaster VIP - #1 Premium IPTV Service | 30,000+ Channels, 4K Streaming, Zero Buffering</title>"

  const DescriptionMeta: string := "<meta name=\"description\" content=\""
  const KeywordsMeta: string := "<meta name=\"keywords\" content=\""
  const OgTitleMeta: string := "<meta property=\"og:title\" content=\""
  const OgDescriptionMeta: string := "<meta property=\"og:description\" content=\""
  const TwitterTitleMeta: string := "<meta name=\"twitter:title\" content=\""
  const TwitterDescriptionMeta: string := "<meta name=\"twitter:description\" content=\""

  // ------------------------------------------------------------ the meta scan

  /** An opening the scan can look for: it starts with `<` and has no other `<`. */
  predicate Opening(p: string)
  {
    |p| >= 2 && p[0] == '<' && forall i :: 1 <= i < |p| ==> p[i] != '<'
  }

  lemma OpeningRest(p: string)
    requires Opening(p)
    ensures '<' !in p[1..]
  {
    forall k | 0 <= k < |p[1..]|
      ensures p[1..][k] != '<'
    {
      assert p[1..][k] == p[k + 1];
    }
  }

  /**
   * A value `re.sub` writes as it stands: its replacement template treats a
   * backslash as the start of an escape or a group reference.
   */
  predicate NoEscapes(v: string)
  {
    '\\' !in v
  }

  /** A value the scan can write: no quote ends it early, no `<` starts an opening inside it, and no escape changes it. */
  predicate Writable(v: string)
  {
    '"' !in v && '<' !in v && NoEscapes(v)
  }

  /** The match at the start of `s`: the old value and the text after its closing quote. */
  function MetaAt(s: string, p: string): (r: Option<(string, string)>)
    requires p != []
    ensures r.Some? ==> p <= s && s == p + r.value.0 + "\"" + r.value.1 && '"' !in r.value.0
  {
    if !(p <= s) then None
    else
      match SplitOnce(s[|p|..], "\"")
      case None => None
      case Some((value, tail)) =>
        ContainsChar(value, '"');
        assert s == p + s[|p|..];
        Some((value, tail))
  }

  /** `re.sub(p + '[^"]*"', p + v + '"', s)`, with `v` written as it stands, as `re.sub` writes a value without backslashes. */
  function ReplaceMeta(s: string, p: string, v: string): string
    requires p != []
    decreases |s|
  {
    if s == [] then []
    else
      match MetaAt(s, p)
      case Some((_, tail)) => p + v + "\"" + ReplaceMeta(tail, p, v)
      case None => [s[0]] + ReplaceMeta(s[1..], p, v)
  }

  /** Past the end of the opening there is no quote: nothing matches, nothing changes. */
  lemma {:induction false} NoQuoteUnchanged(s: string, p: string, v: string, m: nat)
    requires p != [] && m <= |p| && m <= |s| && '"' !in s[m..]
    ensures ReplaceMeta(s, p, v) == s
    decreases |s|
  {
    if s != [] {
      NoQuoteNoMatch(s, p, m);
      var m' := if m == 0 then 0 else m - 1;
      NoQuoteTail(s, m);
      NoQuoteUnchanged(s[1..], p, v, m');
    }
  }

  lemma NoQuoteNoMatch(s: string, p: string, m: nat)
    requires p != [] && m <= |p| && m <= |s| && '"' !in s[m..]
    ensures MetaAt(s, p).None?
  {
    if p <= s {
      assert forall c :: c in s[|p|..] ==> c in s[m..];
      ContainsChar(s[|p|..], '"');
    }
  }

  lemma NoQuoteTail(s: string, m: nat)
    requires s != [] && m <= |s| && '"' !in s[m..]
    ensures var m' := if m == 0 then 0 else m - 1; m' <= |s[1..]| && '"' !in s[1..][m'..]
  {
    var m' := if m == 0 then 0 else m - 1;
    assert s[1..][m'..] == s[m' + 1..];
    assert forall c :: c in s[m' + 1..] ==> c in s[m..];
  }

  /** The output starts with `<` wherever the input matches. */
  lemma OutputStart(x: string, p: string, v: string)
    requires Opening(p) && MetaAt(x, p).Some?
    ensures x != [] && ReplaceMeta(x, p, v)[0] == '<'
  {
  }

  /** A `<`-free prefix of the output was already a prefix of the input. */
  lemma {:induction false} PrefixOfOutput(x: string, p: string, v: string, q: string)
    requires Opening(p) && '<' !in q && q <= ReplaceMeta(x, p, v)
    ensures q <= x
    decreases |x|
  {
    if q != [] && x != [] {
      if MetaAt(x, p).Some? {
        OutputStart(x, p, v);
      } else {
        PrefixOfOutput(x[1..], p, v, q[1..]);
      }
    }
  }

  /** Inside a written opening-value-quote, no opening starts. */
  lemma NoMatchInsideWritten(p: string, q: string, v: string, rest: string, i: nat)
    requires Opening(p) && Opening(q) && Writable(v) && 0 < i < |q + v + "\""|
    ensures MetaAt((q + v + "\"" + rest)[i..], p).None?
  {
    var out := q + v + "\"" + rest;
    if i < |q| {
      assert out[i] == q[i];
    } else {
      assert out[i] == (v + "\"")[i - |q|];
    }
    assert out[i] != '<';
  }

  /** A written opening is matched with the written value. */
  lemma WrittenMatched(p: string, v: string, rest: string)
    requires Opening(p) && Writable(v)
    ensures MetaAt(p + v + "\"" + rest, p) == Some((v, rest))
  {
    var s := p + v + "\"" + rest;
    assert s[|p|..] == v + ['"'] + rest;
    SplitOnceChar(v, '"', rest);
  }

  /** After the substitution, every match of the pattern carries the new value. */
  lemma {:induction false} MetaReplaced(s: string, p: string, v: string, i: nat)
    requires Opening(p) && Writable(v)
    requires i <= |ReplaceMeta(s, p, v)| && MetaAt(ReplaceMeta(s, p, v)[i..], p).Some?
    ensures MetaAt(ReplaceMeta(s, p, v)[i..], p).value.0 == v
    decreases |s|
  {
    var out := ReplaceMeta(s, p, v);
    if s == [] {
      return;
    }
    match MetaAt(s, p)
    case Some((_, tail)) =>
      var piece := p + v + "\"";
      var rest := ReplaceMeta(tail, p, v);
      assert out == piece + rest;
      if i == 0 {
        WrittenMatched(p, v, rest);
      } else if i < |piece| {
        NoMatchInsideWritten(p, p, v, rest, i);
      } else {
        assert out[i..] == rest[i - |piece|..];
        MetaReplaced(tail, p, v, i - |piece|);
      }
    case None =>
      var rest := ReplaceMeta(s[1..], p, v);
      assert out == [s[0]] + rest;
      if i > 0 {
        assert out[i..] == rest[i - 1..];
        MetaReplaced(s[1..], p, v, i - 1);
      } else {
        UnmatchedStart(s, p, v);
      }
  }

  /** Where the input does not match, the output does not match either. */
  lemma UnmatchedStart(s: string, p: string, v: string)
    requires Opening(p) && s != [] && MetaAt(s, p).None?
    ensures MetaAt(ReplaceMeta(s, p, v), p).None?
  {
    if p <= s {
      ContainsChar(s[|p|..], '"');
      assert s[1..][|p| - 1..] == s[|p|..];
      NoQuoteUnchanged(s[1..], p, v, |p| - 1);
      assert ReplaceMeta(s, p, v) == [s[0]] + s[1..];
    } else if p <= ReplaceMeta(s, p, v) {
      PrefixFromOutput(s, p, v);
    }
  }

  lemma PrefixFromOutput(s: string, p: string, v: string)
    requires Opening(p) && s != [] && MetaAt(s, p).None? && p <= ReplaceMeta(s, p, v)
    ensures p <= s
  {
    var rest := ReplaceMeta(s[1..], p, v);
    assert ReplaceMeta(s, p, v) == [s[0]] + rest;
    assert p[1..] <= rest;
    OpeningRest(p);
    PrefixOfOutput(s[1..], p, v, p[1..]);
    assert p == [s[0]] + p[1..];
  }

  /** Every match of `p` in `s` carries the value `v`. */
  ghost predicate AllMeta(s: string, p: string, v: string)
    requires p != []
  {
    forall j :: 0 <= j <= |s| && MetaAt(s[j..], p).Some? ==> MetaAt(s[j..], p).value.0 == v
  }

  /** After the substitution of `p`, every match of `p` carries the new value. */
  lemma AllReplaced(s: string, p: string, v: string)
    requires Opening(p) && Writable(v)
    ensures AllMeta(ReplaceMeta(s, p, v), p, v)
  {
    forall j | 0 <= j <= |ReplaceMeta(s, p, v)| && MetaAt(ReplaceMeta(s, p, v)[j..], p).Some?
      ensures MetaAt(ReplaceMeta(s, p, v)[j..], p).value.0 == v
    {
      MetaReplaced(s, p, v, j);
    }
  }

  lemma AllMetaSuffix(x: string, p: string, v: string, k: nat)
    requires p != [] && k <= |x| && AllMeta(x, p, v)
    ensures AllMeta(x[k..], p, v)
  {
    forall j | 0 <= j <= |x[k..]| && MetaAt(x[k..][j..], p).Some?
      ensures MetaAt(x[k..][j..], p).value.0 == v
    {
      assert x[k..][j..] == x[k + j..];
    }
  }

  /** Text ending in an opening, a quote-free value and a quote is matched with that value. */
  lemma MetaFromPrefix(s: string, p: string, val: string)
    requires p != [] && '"' !in val && p + val + "\"" <= s
    ensures MetaAt(s, p).Some? && MetaAt(s, p).value.0 == val
  {
    var n := |p| + |val| + 1;
    assert s == p + val + "\"" + s[n..];
    assert s[|p|..] == val + ['"'] + s[n..];
    SplitOnceChar(val, '"', s[n..]);
  }

  /**
   * The substitution of `q` keeps a prefix of `y` when no match of `q`
   * starting inside it ends its opening inside it.
   */
  lemma {:induction false} PrefixKept(y: string, q: string, w: string, n: nat)
    requires q != [] && n <= |y|
    requires forall t :: 0 <= t < n && MetaAt(y[t..], q).Some? ==> n <= t + |q|
    ensures y[..n] <= ReplaceMeta(y, q, w)
    decreases |y|
  {
    if n > 0 {
      match MetaAt(y, q)
      case Some((_, tail)) =>
        assert y[0..] == y;
        assert y[..n] == q[..n];
      case None =>
        forall t | 0 <= t < n - 1 && MetaAt(y[1..][t..], q).Some?
          ensures n - 1 <= t + |q|
        {
          assert y[1..][t..] == y[t + 1..];
        }
        PrefixKept(y[1..], q, w, n - 1);
        assert y[..n] == [y[0]] + y[1..][..n - 1];
    }
  }

  /** Where `q` does not match, an opening `p` at the start of the output was there in the input. */
  lemma UnmatchedOpening(x: string, q: string, w: string, p: string)
    requires Opening(p) && Opening(q) && x != [] && MetaAt(x, q).None? && p <= ReplaceMeta(x, q, w)
    ensures p <= x
  {
    var y := x[1..];
    var rest := ReplaceMeta(y, q, w);
    assert ReplaceMeta(x, q, w) == [x[0]] + rest;
    TailPrefix(p, x[0], rest);
    OpeningRest(p);
    PrefixOfOutput(y, q, w, p[1..]);
    assert p == [x[0]] + p[1..];
  }

  lemma TailPrefix(p: string, c: char, rest: string)
    requires p != [] && p <= [c] + rest
    ensures p[1..] <= rest && p[0] == c
  {
    assert ([c] + rest)[1..] == rest;
  }

  /** No `<` before `m` and no quote from `m` on: nothing matches, nothing changes. */
  lemma {:induction false} NoOpeningNoQuoteUnchanged(y: string, q: string, w: string, m: nat)
    requires Opening(q) && m <= |y| && '<' !in y[..m] && '"' !in y[m..]
    ensures ReplaceMeta(y, q, w) == y
    decreases m
  {
    if m == 0 {
      NoQuoteUnchanged(y, q, w, 0);
    } else {
      assert y[0] in y[..m];
      assert y[1..][..m - 1] == y[1..m] && y[1..][m - 1..] == y[m..];
      assert forall c :: c in y[1..m] ==> c in y[..m];
      NoOpeningNoQuoteUnchanged(y[1..], q, w, m - 1);
    }
  }

  /** Where `q` does not match and `p` does not match either, the output is the input. */
  lemma UnmatchedOutputHasValue(x: string, q: string, w: string, p: string)
    requires Opening(p) && Opening(q) && x != [] && MetaAt(x, q).None? && p <= x && MetaAt(x, p).None?
    ensures ReplaceMeta(x, q, w) == x
  {
    var y := x[1..];
    assert SplitOnce(x[|p|..], "\"").None?;
    ContainsChar(x[|p|..], '"');
    assert y[|p| - 1..] == x[|p|..];
    assert y[..|p| - 1] == p[1..];
    OpeningRest(p);
    NoOpeningNoQuoteUnchanged(y, q, w, |p| - 1);
    assert ReplaceMeta(x, q, w) == [x[0]] + y;
  }

  /**
   * After the first character of a match of `p`, a match of `q` cannot end
   * its opening before the match's closing quote: `q` starts with `<` and
   * ends with a quote, while the rest of `p` has no `<` and the value no quote.
   */
  lemma NoMatchAcross(y: string, q: string, p: string, val: string)
    requires Opening(p) && Opening(q) && q[|q| - 1] == '"' && '"' !in val
    requires p[1..] + val + "\"" <= y
    ensures var n := |p| + |val|;
      forall t :: 0 <= t < n && MetaAt(y[t..], q).Some? ==> n <= t + |q|
  {
    var n := |p| + |val|;
    assert y[..n] == p[1..] + val + "\"";
    assert forall k :: 0 <= k < |p| - 1 ==> y[k] == p[1..][k];
    assert forall k :: |p| - 1 <= k < n - 1 ==> y[k] == val[k - (|p| - 1)];
    forall t | 0 <= t < n && MetaAt(y[t..], q).Some?
      ensures n <= t + |q|
    {
      assert y[t] == '<' && y[t + |q| - 1] == '"';
    }
  }

  /** Where `q` does not match, the match of `p` at the start of `x` keeps its value in the output. */
  lemma ValueKept(x: string, q: string, w: string, p: string, val: string, tail: string)
    requires Opening(p) && Opening(q) && q[|q| - 1] == '"'
    requires x == p + val + "\"" + tail && '"' !in val && MetaAt(x, q).None?
    ensures MetaAt(ReplaceMeta(x, q, w), p).Some? && MetaAt(ReplaceMeta(x, q, w), p).value.0 == val
  {
    var y := x[1..];
    var n := |p| + |val|;
    assert y == p[1..] + val + "\"" + tail;
    NoMatchAcross(y, q, p, val);
    PrefixKept(y, q, w, n);
    var out := ReplaceMeta(x, q, w);
    assert out == [x[0]] + ReplaceMeta(y, q, w);
    assert out[..n + 1] == [x[0]] + y[..n];
    assert x[..n + 1] == p + val + "\"";
    MetaFromPrefix(out, p, val);
  }

  /**
   * Where `q` does not match, a match of `p` in the output of the substitution
   * of `q` was a match of `p` in the input, with the same value.
   */
  lemma UnmatchedMetaKept(x: string, q: string, w: string, p: string)
    requires Opening(p) && Opening(q) && q[|q| - 1] == '"' && Writable(w)
    requires x != [] && MetaAt(x, q).None? && MetaAt(ReplaceMeta(x, q, w), p).Some?
    ensures MetaAt(x, p).Some? && MetaAt(ReplaceMeta(x, q, w), p).value.0 == MetaAt(x, p).value.0
  {
    UnmatchedOpening(x, q, w, p);
    if MetaAt(x, p).None? {
      UnmatchedOutputHasValue(x, q, w, p);
    } else {
      var (val, tail) := MetaAt(x, p).value;
      ValueKept(x, q, w, p, val, tail);
    }
  }


  /** The substitution of another opening `q` keeps every match of `p` at value `v`. */
  lemma {:induction false} MetaKept(x: string, q: string, w: string, p: string, v: string, i: nat)
    requires Opening(p) && Opening(q) && q[|q| - 1] == '"' && Writable(w) && !Compatible(p, q)
    requires AllMeta(x, p, v)
    requires i <= |ReplaceMeta(x, q, w)| && MetaAt(ReplaceMeta(x, q, w)[i..], p).Some?
    ensures MetaAt(ReplaceMeta(x, q, w)[i..], p).value.0 == v
    decreases |x|, 1
  {
    if x == [] {
      return;
    }
    if MetaAt(x, q).Some? {
      MetaKeptAtMatch(x, q, w, p, v, i);
    } else {
      MetaKeptElsewhere(x, q, w, p, v, i);
    }
  }

  /** `MetaKept` where `q` matches at the start of `x`. */
  lemma {:induction false} MetaKeptAtMatch(x: string, q: string, w: string, p: string, v: string, i: nat)
    requires Opening(p) && Opening(q) && q[|q| - 1] == '"' && Writable(w) && !Compatible(p, q)
    requires AllMeta(x, p, v) && x != [] && MetaAt(x, q).Some?
    requires i <= |ReplaceMeta(x, q, w)| && MetaAt(ReplaceMeta(x, q, w)[i..], p).Some?
    ensures MetaAt(ReplaceMeta(x, q, w)[i..], p).value.0 == v
    decreases |x|, 0
  {
    var out := ReplaceMeta(x, q, w);
    var tail := MetaAt(x, q).value.1;
    var piece := q + w + "\"";
    var rest := ReplaceMeta(tail, q, w);
    assert out == piece + rest;
    if i == 0 {
      assert out[0..] == out;
      PrefixesCompatible(out, p, q);
    } else if i < |piece| {
      NoMatchInsideWritten(p, q, w, rest, i);
    } else {
      assert out[i..] == rest[i - |piece|..];
      AllMetaSuffix(x, p, v, |x| - |tail|);
      assert x[|x| - |tail|..] == tail;
      MetaKept(tail, q, w, p, v, i - |piece|);
    }
  }

  /** `MetaKept` where `q` does not match at the start of `x`. */
  lemma {:induction false} MetaKeptElsewhere(x: string, q: string, w: string, p: string, v: string, i: nat)
    requires Opening(p) && Opening(q) && q[|q| - 1] == '"' && Writable(w) && !Compatible(p, q)
    requires AllMeta(x, p, v) && x != [] && MetaAt(x, q).None?
    requires i <= |ReplaceMeta(x, q, w)| && MetaAt(ReplaceMeta(x, q, w)[i..], p).Some?
    ensures MetaAt(ReplaceMeta(x, q, w)[i..], p).value.0 == v
    decreases |x|, 0
  {
    var out := ReplaceMeta(x, q, w);
    var rest := ReplaceMeta(x[1..], q, w);
    assert out == [x[0]] + rest;
    if i > 0 {
      assert out[i..] == rest[i - 1..];
      AllMetaSuffix(x, p, v, 1);
      MetaKept(x[1..], q, w, p, v, i - 1);
    } else {
      assert out[0..] == out;
      UnmatchedMetaKept(x, q, w, p);
      assert x[0..] == x;
    }
  }

  /** `AllMeta` survives the substitution of another opening. */
  lemma AllKept(x: string, q: string, w: string, p: string, v: string)
    requires Opening(p) && Opening(q) && q[|q| - 1] == '"' && Writable(w) && !Compatible(p, q)
    requires AllMeta(x, p, v)
    ensures AllMeta(ReplaceMeta(x, q, w), p, v)
  {
    forall i | 0 <= i <= |ReplaceMeta(x, q, w)| && MetaAt(ReplaceMeta(x, q, w)[i..], p).Some?
      ensures MetaAt(ReplaceMeta(x, q, w)[i..], p).value.0 == v
    {
      MetaKept(x, q, w, p, v, i);
    }
  }

  // ------------------------------------------------------------ the page

  const OgUrlOpen: string := "<meta property=\"og:url\" content=\""
  const TwitterUrlOpen: string := "<meta name=\"twitter:url\" content=\""

  /** The literal replacements of `create_lang_index`, in the order the page goes through them. */
  function LiteralPairs(code: string, config: Config): (r: seq<(string, string)>)
    ensures |r| == 7 && forall k :: 0 <= k < |r| ==> r[k].0 != []
  {
    [("lang=\"en\"", "lang=\"" + config.lang + "\""),
     ("content=\"en_US\"", "content=\"" + config.locale + "\""),
     ("content=\"English\"", "content=\"" + config.languageName + "\""),
     ("href=\"" + Site + "\"", "href=\"" + Site + code + "/\""),
     (OgUrlOpen + Site + "\"", OgUrlOpen + Site + code + "/\""),
     (TwitterUrlOpen + Site + "\"", TwitterUrlOpen + Site + code + "/\""),
     (EnglishTitle, "<title>" + config.title + "</title>")]
  }

  /** `s.replace(pat, rep)` for each pair in turn. */
  function ReplaceEach(s: string, pairs: seq<(string, string)>): string
    requires forall k :: 0 <= k < |pairs| ==> pairs[k].0 != []
    decreases |pairs|
  {
    if pairs == [] then s else ReplaceEach(ReplaceAll(s, pairs[0].0, pairs[0].1), pairs[1..])
  }

  /** The page after the first `k` literal replacements. */
  function LiteralStage(content: string, code: string, config: Config, k: nat): string
    requires k <= 7
  {
    ReplaceEach(content, LiteralPairs(code, config)[..k])
  }

  /** The six `re.sub` calls on the meta values, in order: each opening and the value it writes. */
  function MetaPairs(config: Config): (r: seq<(string, string)>)
    ensures |r| == 6 && forall k :: 0 <= k < |r| ==> r[k].0 != []
  {
    [(DescriptionMeta, config.description),
     (KeywordsMeta, config.keywords),
     (OgTitleMeta, config.title),
     (OgDescriptionMeta, config.description),
     (TwitterTitleMeta, config.title),
     (TwitterDescriptionMeta, config.description)]
  }

  /** `re.sub(p + '[^"]*"', p + v + '"', s)` for each pair in turn. */
  function ReplaceMetas(s: string, pairs: seq<(string, string)>): string
    requires forall k :: 0 <= k < |pairs| ==> pairs[k].0 != []
    decreases |pairs|
  {
    if pairs == [] then s else ReplaceMetas(ReplaceMeta(s, pairs[0].0, pairs[0].1), pairs[1..])
  }

  /** The configured values the meta substitutions put into their templates hold no backslash. */
  predicate TemplatesLiteral(config: Config)
  {
    NoEscapes(config.title) && NoEscapes(config.description) && NoEscapes(config.keywords)
  }


  /** The output file of a language: `<code>/index.html`. */
  function OutputPath(code: string): (r: string)
    ensures |r| == |code| + 11 && r[..|code|] == code && r[|code|..] == "/index.html"
  {
    code + "/index.html"
  }

  /** The title line is only touched when the exact English title is on the page. */
  lemma TitleOnlyIfPresent(c: string, title: string)
    requires !Contains(c, EnglishTitle)
    ensures ReplaceAll(c, EnglishTitle, "<title>" + title + "</title>") == c
  {
    ReplaceAllNoMatch(c, EnglishTitle, "<title>" + title + "</title>");
  }

  /** Each literal replacement takes the page one step further: step `k` replaces pair `k`. */
  lemma {:induction false} LiteralStageStep(content: string, code: string, config: Config, k: nat)
    requires k < 7
    ensures var pairs := LiteralPairs(code, config);
      LiteralStage(content, code, config, k + 1) == ReplaceAll(LiteralStage(content, code, config, k), pairs[k].0, pairs[k].1)
  {
    ReplaceEachSnoc(content, LiteralPairs(code, config)[..k], LiteralPairs(code, config)[k]);
    assert LiteralPairs(code, config)[..k + 1] == LiteralPairs(code, config)[..k] + [LiteralPairs(code, config)[k]];
  }

  lemma {:induction false} ReplaceEachSnoc(s: string, pairs: seq<(string, string)>, last: (string, string))
    requires (forall k :: 0 <= k < |pairs| ==> pairs[k].0 != []) && last.0 != []
    ensures ReplaceEach(s, pairs + [last]) == ReplaceAll(ReplaceEach(s, pairs), last.0, last.1)
    decreases |pairs|
  {
    if pairs == [] {
      assert [] + [last] == [last];
    } else {
      assert (pairs + [last])[1..] == pairs[1..] + [last];
      ReplaceEachSnoc(ReplaceAll(s, pairs[0].0, pairs[0].1), pairs[1..], last);
    }
  }

  /**
   * Each literal step puts its replacement on the page when the English text
   * it looks for is there: the language, locale and language name, the
   * canonical, `og:url` and `twitter:url` addresses with `<code>/`, and the title.
   */
  lemma LiteralStepInserts(content: string, code: string, config: Config, k: nat)
    requires k < 7 && Contains(LiteralStage(content, code, config, k), LiteralPairs(code, config)[k].0)
    ensures Contains(LiteralStage(content, code, config, k + 1), LiteralPairs(code, config)[k].1)
  {
    LiteralStageStep(content, code, config, k);
    var pairs := LiteralPairs(code, config);
    ReplaceAllInserts(LiteralStage(content, code, config, k), pairs[k].0, pairs[k].1);
  }

  /** The three address replacements put `<code>/` right before the closing quote of the site address. */
  lemma UrlsGainCode(code: string, config: Config, k: nat)
    requires 3 <= k < 6
    ensures var (pat, rep) := LiteralPairs(code, config)[k];
      |pat| > |Site| && pat[|pat| - |Site| - 1..] == Site + "\"" && rep == pat[..|pat| - 1] + code + "/\""
  {
    var open := if k == 3 then "href=\"" else if k == 4 then OgUrlOpen else TwitterUrlOpen;
    assert LiteralPairs(code, config)[k] == (open + Site + "\"", open + Site + code + "/\"");
    QuotedEnd(open, Site, code);
  }

  lemma QuotedEnd(open: string, site: string, code: string)
    ensures var pat := open + site + "\"";
      pat[|pat| - |site| - 1..] == site + "\"" && pat[..|pat| - 1] + code + "/\"" == open + site + code + "/\""
  {
    var pat := open + site + "\"";
    assert pat[..|pat| - 1] == open + site;
    assert pat[|pat| - |site| - 1..] == site + "\"";
  }

  /** An opening of a quoted meta value: it starts with the only `<` and ends with a quote. */
  predicate MetaOpening(p: string)
  {
    Opening(p) && p[|p| - 1] == '"'
  }

  lemma NameOpenings()
    ensures MetaOpening(DescriptionMeta) && MetaOpening(KeywordsMeta)
  {
  }

  lemma PropertyOpenings()
    ensures MetaOpening(OgTitleMeta) && MetaOpening(OgDescriptionMeta)
  {
  }

  lemma TwitterOpenings()
    ensures MetaOpening(TwitterTitleMeta) && MetaOpening(TwitterDescriptionMeta)
  {
  }

  /** The six meta openings. */
  lemma MetaOpenings()
    ensures MetaOpening(DescriptionMeta) && MetaOpening(KeywordsMeta)
    ensures MetaOpening(OgTitleMeta) && MetaOpening(OgDescriptionMeta)
    ensures MetaOpening(TwitterTitleMeta) && MetaOpening(TwitterDescriptionMeta)
  {
    NameOpenings();
    PropertyOpenings();
    TwitterOpenings();
  }

  /** Two texts differing at a position both reach are not prefixes of one another. */
  lemma ApartAt(a: string, b: string, k: nat)
    requires k < |a| && k < |b| && a[k] != b[k]
    ensures !Compatible(a, b)
  {
  }

  /** Each opening differs from every later one within both: none is a prefix of another. */
  lemma OpeningsApart(config: Config, k: nat)
    requires k < 6
    ensures var pairs := MetaPairs(config);
      forall j :: k < j < 6 ==> !Compatible(pairs[k].0, pairs[j].0)
  {
    if k == 0 {
      ApartAt(DescriptionMeta, KeywordsMeta, 12);
      ApartAt(DescriptionMeta, OgTitleMeta, 6);
      ApartAt(DescriptionMeta, OgDescriptionMeta, 6);
      ApartAt(DescriptionMeta, TwitterTitleMeta, 12);
      ApartAt(DescriptionMeta, TwitterDescriptionMeta, 12);
    } else if k == 1 {
      ApartAt(KeywordsMeta, OgTitleMeta, 6);
      ApartAt(KeywordsMeta, OgDescriptionMeta, 6);
      ApartAt(KeywordsMeta, TwitterTitleMeta, 12);
      ApartAt(KeywordsMeta, TwitterDescriptionMeta, 12);
    } else if k == 2 {
      ApartAt(OgTitleMeta, OgDescriptionMeta, 19);
      ApartAt(OgTitleMeta, TwitterTitleMeta, 6);
      ApartAt(OgTitleMeta, TwitterDescriptionMeta, 6);
    } else if k == 3 {
      ApartAt(OgDescriptionMeta, TwitterTitleMeta, 6);
      ApartAt(OgDescriptionMeta, TwitterDescriptionMeta, 6);
    } else if k == 4 {
      ApartAt(TwitterTitleMeta, TwitterDescriptionMeta, 20);
    }
  }

  /** The substitutions after the one for `p` keep its matches at value `v`. */
  lemma {:induction false} AllKeptThrough(x: string, pairs: seq<(string, string)>, p: string, v: string)
    requires Opening(p) && AllMeta(x, p, v)
    requires forall k :: 0 <= k < |pairs| ==>
      pairs[k].0 != [] && MetaOpening(pairs[k].0) && Writable(pairs[k].1) && !Compatible(p, pairs[k].0)
    ensures AllMeta(ReplaceMetas(x, pairs), p, v)
    decreases |pairs|
  {
    if pairs != [] {
      AllKept(x, pairs[0].0, pairs[0].1, p, v);
      AllKeptThrough(ReplaceMeta(x, pairs[0].0, pairs[0].1), pairs[1..], p, v);
    }
  }

  /** The substitutions split around the one at index `k`. */
  lemma {:induction false} ReplaceMetasAt(x: string, pairs: seq<(string, string)>, k: nat)
    requires k < |pairs| && forall j :: 0 <= j < |pairs| ==> pairs[j].0 != []
    ensures ReplaceMetas(x, pairs) ==
      ReplaceMetas(ReplaceMeta(ReplaceMetas(x, pairs[..k]), pairs[k].0, pairs[k].1), pairs[k + 1..])
    decreases k
  {
    if k > 0 {
      ReplaceMetasAt(ReplaceMeta(x, pairs[0].0, pairs[0].1), pairs[1..], k - 1);
      assert pairs[1..][..k - 1] == pairs[..k][1..];
      assert pairs[1..][k - 1] == pairs[k] && pairs[1..][k..] == pairs[k + 1..];
    } else {
      assert pairs[..0] == [];
    }
  }

  /**
   * After the six substitutions every value of each of the six meta tags is
   * its configured value: the substitution for the tag writes it, and the
   * later substitutions, whose openings differ from it, leave it in place.
   */
  lemma MetasWritten(page: string, config: Config, k: nat)
    requires k < 6 && Writable(config.description) && Writable(config.keywords) && Writable(config.title)
    ensures var (p, v) := MetaPairs(config)[k]; AllMeta(ReplaceMetas(page, MetaPairs(config)), p, v)
  {
    var pairs := MetaPairs(config);
    var (p, v) := pairs[k];
    var y := ReplaceMetas(page, pairs[..k]);
    ReplaceMetasAt(page, pairs, k);
    MetaOpenings();
    OpeningsApart(config, k);
    AllReplaced(y, p, v);
    AllKeptThrough(ReplaceMeta(y, p, v), pairs[k + 1..], p, v);
  }

  /**
   * `create_lang_index` on the English page `content`: the literal rewrites,
   * then the six meta substitutions. With configured values a meta tag can
   * hold, every `description`, `keywords`, `og:title`, `og:description`,
   * `twitter:title` and `twitter:description` value on the finished page is
   * the configured one, whatever the English page held.
   */
  function CreateLangIndex(content: string, code: string, config: Config): (r: string)
    requires TemplatesLiteral(config)
    ensures Writable(config.description) && Writable(config.keywords) && Writable(config.title) ==>
      forall k :: 0 <= k < 6 ==> AllMeta(r, MetaPairs(config)[k].0, MetaPairs(config)[k].1)
  {
    var page := ReplaceEach(content, LiteralPairs(code, config));
    var pairs := MetaPairs(config);
    var r := ReplaceMetas(page, pairs);
    assert Writable(config.description) && Writable(config.keywords) && Writable(config.title) ==>
      forall k :: 0 <= k < 6 ==> AllMeta(r, pairs[k].0, pairs[k].1) by {
      if Writable(config.description) && Writable(config.keywords) && Writable(config.title) {
        forall k | 0 <= k < 6
          ensures AllMeta(r, pairs[k].0, pairs[k].1)
        {
          MetasWritten(page, config, k);
        }
      }
    }
    r
  }

  // ------------------------------------------------------------ all languages

  /** The file written for one entry of the language table: its path and its content. */
  function LangPage(index: string, entry: (string, Config)): (string, string)
    requires TemplatesLiteral(entry.1)
  {
    (OutputPath(entry.0), CreateLangIndex(index, entry.0, entry.1))
  }

  /** The files written for the entries of the table, in table order. */
  function LangPages(index: string, languages: seq<(string, Config)>): (r: seq<(string, string)>)
    requires forall k :: 0 <= k < |languages| ==> TemplatesLiteral(languages[k].1)
    ensures |r| == |languages|
  {
    if languages == [] then []
    else LangPages(index, languages[..|languages| - 1]) + [LangPage(index, languages[|languages| - 1])]
  }

  /** Entry `k` of the written files is the page of entry `k` of the table. */
  lemma {:induction false} LangPagesAt(index: string, languages: seq<(string, Config)>, k: nat)
    requires k < |languages|
    requires forall j :: 0 <= j < |languages| ==> TemplatesLiteral(languages[j].1)
    ensures LangPages(index, languages)[k] == LangPage(index, languages[k])
  {
    if k < |languages| - 1 {
      LangPagesAt(index, languages[..|languages| - 1], k);
    }
  }

  /**
   * `main`: one page per entry of the table, in table order, each written
   * to its language's directory.
   */
  method CreateAll(languages: seq<(string, Config)>, index: string) returns (written: seq<(string, string)>)
    requires forall k :: 0 <= k < |languages| ==> TemplatesLiteral(languages[k].1)
    ensures written == LangPages(index, languages)
  {
    written := [];
    for i := 0 to |languages|
      invariant written == LangPages(index, languages[..i])
    {
      assert languages[..i + 1][..i] == languages[..i];
      written := written + [LangPage(index, languages[i])];
    }
    assert languages[..|languages|] == languages;
  }
}

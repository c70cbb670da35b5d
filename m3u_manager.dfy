/**
 * The M3U playlist manager of the channel pages (`assets/js/m3u-manager.js`).
 *
 * A playlist is read line by line: an `#EXTINF` line (the media-segment tag
 * of section 4.3.2.1 of RFC 8216, carrying the IPTV `tvg-*` and
 * `group-title` attributes) describes a channel, and the next stream URL
 * line completes it. Parsed channel lists are cached per package under the
 * key `m3u_<package>` with a timestamp and an expiry, and can be grouped by
 * category or searched.
 *
 * The clock (`Date.now()`), the fetched playlist text and the stored cache
 * are parameters.
 */
module M3uManager {
  import opened Wrappers
  import opened Strings
  import opened Sequences

  // ---------------------------------------------------------------- #EXTINF

  /** The metadata of one `#EXTINF` line. */
  datatype Extinf = Extinf(duration: int, tvgId: string, tvgName: string, tvgLogo: string,
                           groupTitle: string, name: string)

  /** A parsed channel: its metadata, its stream URL and its id. */
  datatype Entry = Entry(info: Extinf, url: string, id: string)

  const DefaultGroup: string := "Uncategorized"
  const DefaultName: string := "Unknown Channel"

  lemma QuoteContained(s: string)
    requires '"' in s
    ensures Contains(s, "\"")
  {
    var i :| 0 <= i < |s| && s[i] == '"';
    assert s[i..i + 1] == "\"";
    ContainsAt(s, "\"", i);
  }

  /**
   * `line.match(/key="([^"]*)"/)[1]`: the text between the first `key="` and
   * the next quote, or `None` when the line has no such attribute.
   */
  function Attribute(line: string, key: string): (r: Option<string>)
    ensures r.Some? ==> '"' !in r.value
    ensures !Contains(line, key + "=\"") ==> r.None?
  {
    match SplitOnce(line, key + "=\"")
    case None => None
    case Some((_, after)) =>
      match SplitOnce(after, "\"")
      case None => None
      case Some((v, _)) =>
        if '"' in v then QuoteContained(v); None else Some(v)
  }

  /** The value written as `key="v"` is read back, provided no earlier `key="` stands in front of it. */
  lemma AttributeReads(pre: string, key: string, v: string, post: string)
    requires !Contains(pre + key + "=", key + "=\"")
    requires '"' !in v
    ensures Attribute(pre + key + "=\"" + v + "\"" + post, key) == Some(v)
  {
    var pat := key + "=\"";
    var after := v + "\"" + post;
    var line := pre + pat + after;
    assert line == pre + key + "=\"" + v + "\"" + post;
    var head := pre + key + "=";
    assert line[..|head|] == head;
    forall j | 0 <= j < |pre|
      ensures !OccursAt(line, pat, j)
    {
      if OccursAt(line, pat, j) {
        assert head[j..j + |pat|] == line[j..j + |pat|];
        ContainsAt(head, pat, j);
      }
    }
    assert line[|pre|..|pre| + |pat|] == pat;
    IndexOfFirst(line, pat, |pre|);
    SplitOnceAt(pre, pat, after);
    QuoteAfter(v, post);
  }

  /** The first quote after the value ends it. */
  lemma QuoteAfter(v: string, post: string)
    requires '"' !in v
    ensures SplitOnce(v + "\"" + post, "\"") == Some((v, post))
  {
    var s := v + "\"" + post;
    assert s[|v|..|v| + 1] == "\"";
    forall j | 0 <= j < |v|
      ensures !OccursAt(s, "\"", j)
    {
      assert s[j] == v[j];
    }
    IndexOfFirst(s, "\"", |v|);
    SplitOnceAt(v, "\"", post);
  }

  /** A line without quotes has no attributes. */
  lemma NoQuoteNoAttribute(line: string, key: string)
    requires '"' !in line
    ensures Attribute(line, key) == None
  {
    var pat := key + "=\"";
    if Contains(line, pat) {
      var i := ContainsWitness(line, pat);
    }
  }

  /** The characters `.` does not match in a JavaScript regular expression. */
  predicate IsLineBreak(c: char)
  {
    c == '\n' || c == '\r' || c as int == 0x2028 || c as int == 0x2029
  }

  predicate NoBreak(s: string)
  {
    forall i :: 0 <= i < |s| ==> !IsLineBreak(s[i])
  }

  /**
   * `line.match(/,(.+)$/)[1]`: the text after the leftmost comma that is
   * followed by at least one character and no line break up to the end.
   */
  function NameMatch(line: string): (r: Option<string>)
    ensures r.Some? ==> r.value != [] && NoBreak(r.value) && |r.value| < |line|
    ensures r.Some? ==> line[|line| - |r.value| - 1] == ',' && line[|line| - |r.value|..] == r.value
  {
    if line == [] then None
    else if line[0] == ',' && |line| > 1 && NoBreak(line[1..]) then Some(line[1..])
    else match NameMatch(line[1..])
      case None => None
      case Some(n) =>
        assert line[1..][|line| - 1 - |n|..] == line[|line| - |n|..];
        Some(n)
  }

  /** The name is everything after the FIRST comma, commas in the name included. */
  lemma {:induction false} NameAfterFirstComma(pre: string, name: string)
    requires ',' !in pre && name != [] && NoBreak(name)
    ensures NameMatch(pre + "," + name) == Some(name)
  {
    if pre != [] {
      NameAfterFirstComma(pre[1..], name);
      assert (pre + "," + name)[1..] == pre[1..] + "," + name;
    } else {
      assert ("," + name)[1..] == name;
    }
  }

  /** `parseEXTINF`: fixed defaults, each overwritten only when its attribute or the name is present. */
  function ParseExtinf(line: string): (r: Extinf)
    ensures r.duration == -1
    ensures '"' !in r.tvgId && '"' !in r.tvgName && '"' !in r.tvgLogo
    ensures r.groupTitle == DefaultGroup || '"' !in r.groupTitle
    ensures r.name != [] ==> !IsSpace(r.name[0]) && !IsSpace(r.name[|r.name| - 1])
  {
    Extinf(-1,
           Attribute(line, "tvg-id").GetOr(""),
           Attribute(line, "tvg-name").GetOr(""),
           Attribute(line, "tvg-logo").GetOr(""),
           Attribute(line, "group-title").GetOr(DefaultGroup),
           ChannelName(line))
  }

  /** The trimmed name after the comma, or the default name. */
  function ChannelName(line: string): (r: string)
    ensures r != [] ==> !IsSpace(r[0]) && !IsSpace(r[|r| - 1])
  {
    DefaultNameTrimmed();
    match NameMatch(line)
    case None => DefaultName
    case Some(n) => Trim(n)
  }

  lemma DefaultNameTrimmed()
    ensures DefaultName != [] && !IsSpace(DefaultName[0]) && !IsSpace(DefaultName[|DefaultName| - 1])
  {
    assert DefaultName[0] == 'U' && DefaultName[|DefaultName| - 1] == 'l';
  }

  /** A bare `#EXTINF` line with neither quotes nor a comma keeps every default. */
  lemma ExtinfDefaults(line: string)
    requires '"' !in line && ',' !in line
    ensures ParseExtinf(line) == Extinf(-1, "", "", "", DefaultGroup, DefaultName)
  {
    NoQuoteNoAttribute(line, "tvg-id");
    NoQuoteNoAttribute(line, "tvg-name");
    NoQuoteNoAttribute(line, "tvg-logo");
    NoQuoteNoAttribute(line, "group-title");
  }

  /** The name after the first comma is read back trimmed. */
  lemma ExtinfName(pre: string, name: string)
    requires ',' !in pre && name != [] && NoBreak(name)
    ensures ParseExtinf(pre + "," + name).name == Trim(name)
  {
    NameAfterFirstComma(pre, name);
  }

  // ---------------------------------------------------------------- channel ids

  /** One character of the id: lower-cased, and '-' unless it is in [a-z0-9]. */
  function IdChar(c: char): char
  {
    var l := LowerChar(c);
    if IsLowerAlnum(l) then l else '-'
  }

  /** `name.toLowerCase().replace(/[^a-z0-9]/g, '-')`. */
  function Slug(name: string): (r: string)
    ensures |r| == |name|
    ensures forall i :: 0 <= i < |r| ==> IsLowerAlnum(r[i]) || r[i] == '-'
    ensures forall i :: 0 <= i < |r| ==> IsLowerAlnum(LowerChar(name[i])) ==> r[i] == LowerChar(name[i])
  {
    if name == [] then [] else [IdChar(name[0])] + Slug(name[1..])
  }

  /** A slug is its own slug. */
  lemma {:induction false} SlugIdempotent(name: string)
    ensures Slug(Slug(name)) == Slug(name)
  {
    if name != [] {
      SlugIdempotent(name[1..]);
      assert Slug(name)[1..] == Slug(name[1..]);
    }
  }

  /** Names that differ only in letter case get the same id. */
  lemma {:induction false} SlugIgnoresCase(name: string)
    ensures Slug(Lower(name)) == Slug(name)
  {
    if name != [] {
      SlugIgnoresCase(name[1..]);
      assert Lower(name)[1..] == Lower(name[1..]);
    }
  }

  /** `generateChannelId`: the `tvg-id` when set, otherwise the slug of the name. */
  function ChannelId(info: Extinf): (r: string)
    ensures info.tvgId != [] ==> r == info.tvgId
    ensures info.tvgId == [] ==> |r| == |info.name| && forall i :: 0 <= i < |r| ==> IsLowerAlnum(r[i]) || r[i] == '-'
  {
    if info.tvgId != [] then info.tvgId else Slug(info.name)
  }

  // ---------------------------------------------------------------- parseM3U

  function NonBlank(): string -> bool
  {
    (s: string) => s != []
  }

  /** `content.split('\n').map(line => line.trim()).filter(line => line)`. */
  function Lines(content: string): (r: seq<string>)
    ensures forall k :: 0 <= k < |r| ==> r[k] != [] && !IsSpace(r[k][0]) && !IsSpace(r[k][|r[k]| - 1])
  {
    var parts := Split(content, '\n');
    var trimmed := seq(|parts|, i requires 0 <= i < |parts| => Trim(parts[i]));
    var r := Filter(trimmed, NonBlank());
    forall k | 0 <= k < |r|
      ensures r[k] != [] && !IsSpace(r[k][0]) && !IsSpace(r[k][|r[k]| - 1])
    {
      assert r[k] in trimmed by {
        FilterMembers(trimmed, NonBlank(), r[k]);
      }
    }
    r
  }

  predicate IsExtinfLine(line: string)
  {
    "#EXTINF" <= line
  }

  predicate IsStreamUrl(line: string)
  {
    "http" <= line || "rtmp" <= line || "rtsp" <= line
  }

  /** The parser's state between lines: the channels so far and the `#EXTINF` waiting for its URL. */
  datatype ParseState = ParseState(channels: seq<Entry>, pending: Option<Extinf>)

  /** One turn of the loop in `parseM3U`. */
  function Step(st: ParseState, line: string): ParseState
  {
    if line == [] || ("#" <= line && !IsExtinfLine(line)) then st
    else if IsExtinfLine(line) then ParseState(st.channels, Some(ParseExtinf(line)))
    else if st.pending.Some? && IsStreamUrl(line) then
      var info := st.pending.value;
      ParseState(st.channels + [Entry(info, line, ChannelId(info))], None)
    else st
  }

  /** The state after the given lines. */
  function Scan(lines: seq<string>): ParseState
  {
    if lines == [] then ParseState([], None) else Step(Scan(lines[..|lines| - 1]), lines[|lines| - 1])
  }

  /** The channels of a playlist. */
  function Parse(content: string): seq<Entry>
  {
    Scan(Lines(content)).channels
  }

  /** `parseM3U`: the loop over the lines with `currentChannel`. */
  method ParseM3u(content: string) returns (channels: seq<Entry>)
    ensures channels == Parse(content)
  {
    var lines := Lines(content);
    channels := [];
    var current: Option<Extinf> := None;
    var i := 0;
    while i < |lines|
      invariant 0 <= i <= |lines|
      invariant ParseState(channels, current) == Scan(lines[..i])
    {
      var line := lines[i];
      ScanStep(lines, i);
      if line == [] || ("#" <= line && !IsExtinfLine(line)) {
      } else if IsExtinfLine(line) {
        current := Some(ParseExtinf(line));
      } else if current.Some? && IsStreamUrl(line) {
        var info := current.value;
        channels := channels + [Entry(info, line, ChannelId(info))];
        current := None;
      }
      i := i + 1;
    }
    assert lines[..|lines|] == lines;
  }

  lemma ScanStep(lines: seq<string>, i: nat)
    requires i < |lines|
    ensures Scan(lines[..i + 1]) == Step(Scan(lines[..i]), lines[i])
  {
    assert lines[..i + 1][..i] == lines[..i];
  }

  function IsExtinf(): string -> bool
  {
    (line: string) => IsExtinfLine(line)
  }

  /** Every channel and the waiting entry come from distinct `#EXTINF` lines. */
  lemma {:induction false} ScanBound(lines: seq<string>)
    ensures |Scan(lines).channels| + (if Scan(lines).pending.Some? then 1 else 0) <= |Filter(lines, IsExtinf())|
  {
    if lines != [] {
      ScanBound(lines[..|lines| - 1]);
    }
  }

  /** A playlist yields at most one channel per `#EXTINF` line. */
  lemma ParseBound(content: string)
    ensures |Parse(content)| <= |Filter(Lines(content), IsExtinf())|
  {
    ScanBound(Lines(content));
  }

  /** Every channel has a stream URL and the id `generateChannelId` gives it. */
  lemma {:induction false} ScanChannels(lines: seq<string>)
    ensures forall k :: 0 <= k < |Scan(lines).channels| ==>
      IsStreamUrl(Scan(lines).channels[k].url) && Scan(lines).channels[k].url in lines &&
      Scan(lines).channels[k].id == ChannelId(Scan(lines).channels[k].info)
  {
    if lines != [] {
      var front := lines[..|lines| - 1];
      ScanChannels(front);
      assert forall x :: x in front ==> x in lines;
    }
  }

  /** Channels are emitted in file order: reading more lines only appends. */
  lemma {:induction false} ScanExtends(lines: seq<string>, i: nat)
    requires i <= |lines|
    ensures Scan(lines[..i]).channels <= Scan(lines).channels
    decreases |lines| - i
  {
    if i < |lines| {
      ScanExtends(lines, i + 1);
      assert lines[..i + 1][..i] == lines[..i];
    } else {
      assert lines[..i] == lines;
    }
  }

  /** A URL line with no `#EXTINF` waiting is ignored. */
  lemma OrphanUrlIgnored(lines: seq<string>, url: string)
    requires Scan(lines).pending.None? && !IsExtinfLine(url)
    ensures Scan(lines + [url]) == Scan(lines)
  {
    assert (lines + [url])[..|lines|] == lines;
  }

  /** An `#EXTINF` line followed by a stream URL adds exactly that channel. */
  lemma PairEmits(lines: seq<string>, extinf: string, url: string)
    requires IsExtinfLine(extinf) && IsStreamUrl(url) && !("#" <= url)
    ensures var info := ParseExtinf(extinf);
      Scan(lines + [extinf, url]) == ParseState(Scan(lines).channels + [Entry(info, url, ChannelId(info))], None)
  {
    var info := ParseExtinf(extinf);
    ScanSnoc(lines, extinf);
    StepExtinf(Scan(lines), extinf);
    ScanSnoc(lines + [extinf], url);
    StepUrl(ParseState(Scan(lines).channels, Some(info)), url);
    assert lines + [extinf] + [url] == lines + [extinf, url];
  }

  /** An `#EXTINF` line becomes the waiting entry. */
  lemma StepExtinf(st: ParseState, line: string)
    requires IsExtinfLine(line)
    ensures Step(st, line) == ParseState(st.channels, Some(ParseExtinf(line)))
  {
    assert line != [];
  }

  /** A stream URL after a waiting entry completes that entry. */
  lemma StepUrl(st: ParseState, url: string)
    requires st.pending.Some? && IsStreamUrl(url) && !("#" <= url)
    ensures Step(st, url) == ParseState(st.channels + [Entry(st.pending.value, url, ChannelId(st.pending.value))], None)
  {
    assert url != [] && !IsExtinfLine(url);
  }

  /** Scanning one more line is one more step. */
  lemma ScanSnoc(lines: seq<string>, line: string)
    ensures Scan(lines + [line]) == Step(Scan(lines), line)
  {
    assert (lines + [line])[..|lines|] == lines;
  }

  // ---------------------------------------------------------------- cache

  datatype CacheEntry = CacheEntry(timestamp: int, data: seq<Entry>)

  type Cache = map<string, CacheEntry>

  const DefaultExpiry: int := 24 * 60 * 60 * 1000

  function CacheKey(packageName: string): string
  {
    "m3u_" + packageName
  }

  lemma CacheKeyInjective(p: string, q: string)
    requires CacheKey(p) == CacheKey(q)
    ensures p == q
  {
    assert p == CacheKey(p)[4..] && q == CacheKey(q)[4..];
  }

  predicate Expired(e: CacheEntry, now: int, expiry: int)
  {
    now - e.timestamp > expiry
  }

  /** What `getFromCache` returns. */
  function Lookup(cache: Cache, packageName: string, now: int, expiry: int): (r: Option<seq<Entry>>)
    ensures r.Some? <==> CacheKey(packageName) in cache && !Expired(cache[CacheKey(packageName)], now, expiry)
  {
    var key := CacheKey(packageName);
    if key !in cache || Expired(cache[key], now, expiry) then None else Some(cache[key].data)
  }

  /** The cache after `getFromCache`: an expired entry is deleted. */
  function AfterLookup(cache: Cache, packageName: string, now: int, expiry: int): (r: Cache)
    ensures r.Keys <= cache.Keys
    ensures forall k :: k in r ==> r[k] == cache[k]
  {
    var key := CacheKey(packageName);
    if key in cache && Expired(cache[key], now, expiry) then cache - {key} else cache
  }

  /** The cache after `saveToCache`. */
  function Saved(cache: Cache, packageName: string, data: seq<Entry>, now: int): Cache
  {
    cache[CacheKey(packageName) := CacheEntry(now, data)]
  }

  /** The cache after `clearCache`: an empty package name clears everything, as a missing one does. */
  function Cleared(cache: Cache, packageName: Option<string>): (r: Cache)
    ensures r.Keys <= cache.Keys
  {
    if packageName.Some? && packageName.value != [] then cache - {CacheKey(packageName.value)} else map[]
  }

  /** A saved list is found again until it is older than the expiry; an age equal to the expiry still hits. */
  lemma SaveThenLookup(cache: Cache, p: string, data: seq<Entry>, saved: int, now: int, expiry: int)
    ensures Lookup(Saved(cache, p, data, saved), p, now, expiry) == (if now - saved <= expiry then Some(data) else None)
  {
  }

  /** Saving one package leaves every other package's lookup as it was. */
  lemma SaveKeepsOthers(cache: Cache, p: string, q: string, data: seq<Entry>, saved: int, now: int, expiry: int)
    requires p != q
    ensures Lookup(Saved(cache, p, data, saved), q, now, expiry) == Lookup(cache, q, now, expiry)
  {
    if CacheKey(p) == CacheKey(q) {
      CacheKeyInjective(p, q);
    }
  }

  /** An expired entry is gone after the lookup that found it expired. */
  lemma ExpiredRemoved(cache: Cache, p: string, now: int, expiry: int)
    requires CacheKey(p) in cache && Expired(cache[CacheKey(p)], now, expiry)
    ensures Lookup(cache, p, now, expiry).None?
    ensures CacheKey(p) !in AfterLookup(cache, p, now, expiry)
  {
  }

  /** Clearing one package removes its entry and only that one; clearing without a name empties the cache. */
  lemma ClearedEntries(cache: Cache, p: Option<string>, k: string)
    ensures p.Some? && p.value != [] ==> (k in Cleared(cache, p) <==> k in cache && k != CacheKey(p.value))
    ensures (p.None? || p.value == []) ==> Cleared(cache, p) == map[]
  {
  }

  // ---------------------------------------------------------------- the manager

  /** `packageMapping`: the playlist file of each package. */
  const Packages: map<string, string> :=
    map["english" := "english.m3u", "france" := "france.m3u", "german" := "german.m3u",
        "italy" := "italy.m3u", "latin" := "latin.m3u", "scandinavia" := "scandinavia.m3u",
        "india" := "india.m3u", "netherlands" := "netherlands.m3u", "world" := "world.m3u"]

  /** What fetching a playlist file gave. */
  datatype Response = Body(text: string) | HttpError(status: int) | NetworkError

  /** How `getChannels` settles: the channels, or the error it throws. */
  datatype Outcome = Loaded(channels: seq<Entry>) | UnknownPackage(name: string) | FetchFailed

  /** The cache after `getChannels` consulted it (or did not). */
  function CacheAfterCheck(cache: Cache, name: string, now: int, expiry: int, consult: bool): Cache
  {
    if consult then AfterLookup(cache, name, now, expiry) else cache
  }

  class Manager {
    var cache: Cache
    const cacheExpiry: int
    const enableCache: bool

    /** `config.cacheExpiry || 24h` and `config.enableCache !== false`; the cache starts as what storage held. */
    constructor (expiry: Option<int>, cacheSetting: Option<bool>, stored: Cache)
      ensures cacheExpiry == (if expiry.None? || expiry.value == 0 then DefaultExpiry else expiry.value)
      ensures enableCache == (cacheSetting != Some(false))
      ensures cache == stored
    {
      cacheExpiry := if expiry.None? || expiry.value == 0 then DefaultExpiry else expiry.value;
      enableCache := cacheSetting != Some(false);
      cache := stored;
    }

    method GetFromCache(packageName: string, now: int) returns (r: Option<seq<Entry>>)
      modifies this
      ensures r == Lookup(old(cache), packageName, now, cacheExpiry)
      ensures cache == AfterLookup(old(cache), packageName, now, cacheExpiry)
    {
      var key := CacheKey(packageName);
      if key !in cache {
        return None;
      }
      if now - cache[key].timestamp > cacheExpiry {
        cache := cache - {key};
        return None;
      }
      return Some(cache[key].data);
    }

    method SaveToCache(packageName: string, channels: seq<Entry>, now: int)
      modifies this
      ensures cache == Saved(old(cache), packageName, channels, now)
    {
      cache := cache[CacheKey(packageName) := CacheEntry(now, channels)];
    }

    method ClearCache(packageName: Option<string>)
      modifies this
      ensures cache == Cleared(old(cache), packageName)
    {
      if packageName.Some? && packageName.value != [] {
        cache := cache - {CacheKey(packageName.value)};
      } else {
        cache := map[];
      }
    }

    /**
     * `getChannels`: the lower-cased package must be known; a live cache
     * entry answers unless a refresh is forced or caching is off; otherwise
     * the playlist is fetched, parsed and, with caching on, saved.
     */
    method GetChannels(packageName: string, forceRefresh: bool, now: int, response: Response) returns (r: Outcome)
      modifies this
      ensures Lower(packageName) !in Packages ==> r == UnknownPackage(Lower(packageName)) && cache == old(cache)
      ensures Lower(packageName) in Packages ==>
        var name := Lower(packageName);
        var consult := !forceRefresh && enableCache;
        var hit := if consult then Lookup(old(cache), name, now, cacheExpiry) else None;
        var checked := CacheAfterCheck(old(cache), name, now, cacheExpiry, consult);
        if hit.Some? then r == Loaded(hit.value) && cache == checked
        else if !response.Body? then r == FetchFailed && cache == checked
        else r == Loaded(Parse(response.text)) &&
             cache == (if enableCache then Saved(checked, name, Parse(response.text), now) else checked)
    {
      var name := Lower(packageName);
      if name !in Packages {
        return UnknownPackage(name);
      }
      if !forceRefresh && enableCache {
        var cached := GetFromCache(name, now);
        if cached.Some? {
          return Loaded(cached.value);
        }
      }
      if !response.Body? {
        return FetchFailed;
      }
      var channels := ParseM3u(response.text);
      if enableCache {
        SaveToCache(name, channels, now);
      }
      return Loaded(channels);
    }

    /** `getCacheStats` over the cache keys in their enumeration order. */
    method GetCacheStats(keys: seq<string>, now: int) returns (stats: Stats)
      requires Enumerates(keys, cache.Keys)
      ensures stats == StatsOf(cache, keys, now)
    {
      stats := Stats(0, [], None, None);
      var i := 0;
      while i < |keys|
        invariant 0 <= i <= |keys|
        invariant stats == StatsOf(cache, keys[..i], now)
      {
        assert keys[..i + 1][..i] == keys[..i];
        stats := StatsStep(stats, cache, keys[i], now);
        i := i + 1;
      }
      assert keys[..|keys|] == keys;
    }
  }

  // ---------------------------------------------------------------- grouping and search

  /** `channel.groupTitle || 'Uncategorized'`. */
  function Category(e: Entry): string
  {
    if e.info.groupTitle != [] then e.info.groupTitle else DefaultGroup
  }

  function InCategory(c: string): Entry -> bool
  {
    (e: Entry) => Category(e) == c
  }

  /** The buckets of `getChannelsByCategory`. */
  function Grouped(channels: seq<Entry>): map<string, seq<Entry>>
  {
    if channels == [] then map[]
    else
      var g := Grouped(channels[..|channels| - 1]);
      var e := channels[|channels| - 1];
      var c := Category(e);
      g[c := (if c in g then g[c] else []) + [e]]
  }

  /** The `forEach` loop of `getChannelsByCategory`. */
  method GroupByCategory(channels: seq<Entry>) returns (grouped: map<string, seq<Entry>>)
    ensures grouped == Grouped(channels)
  {
    grouped := map[];
    var i := 0;
    while i < |channels|
      invariant 0 <= i <= |channels|
      invariant grouped == Grouped(channels[..i])
    {
      assert channels[..i + 1][..i] == channels[..i];
      var c := Category(channels[i]);
      if c !in grouped {
        grouped := grouped[c := []];
      }
      grouped := grouped[c := grouped[c] + [channels[i]]];
      i := i + 1;
    }
    assert channels[..|channels|] == channels;
  }

  /** There is a bucket for exactly the categories that occur, and it holds that category's channels in list order. */
  lemma {:induction false} GroupedIsFilter(channels: seq<Entry>, c: string)
    ensures c in Grouped(channels) <==> exists k :: 0 <= k < |channels| && Category(channels[k]) == c
    ensures c in Grouped(channels) ==> Grouped(channels)[c] == Filter(channels, InCategory(c))
  {
    if channels != [] {
      var front := channels[..|channels| - 1];
      GroupedIsFilter(front, c);
      if c !in Grouped(front) {
        if Filter(front, InCategory(c)) != [] {
          var x := Filter(front, InCategory(c))[0];
          FilterMembers(front, InCategory(c), x);
        }
      }
      if exists k :: 0 <= k < |channels| && Category(channels[k]) == c {
        var k :| 0 <= k < |channels| && Category(channels[k]) == c;
        if k < |front| {
          assert front[k] == channels[k];
        }
      }
    }
  }

  /** Each channel lands in its own category's bucket and in no other. */
  lemma OneBucket(channels: seq<Entry>, x: Entry, c: string)
    requires x in channels
    ensures c in Grouped(channels) && x in Grouped(channels)[c] <==> c == Category(x)
  {
    var k :| 0 <= k < |channels| && channels[k] == x;
    GroupedIsFilter(channels, c);
    if c in Grouped(channels) {
      FilterMembers(channels, InCategory(c), x);
    }
  }

  /** The case-insensitive match of `searchChannels` on name, `tvg-name` or group. */
  function Matches(lowerQuery: string): Entry -> bool
  {
    (e: Entry) => Contains(Lower(e.info.name), lowerQuery) || Contains(Lower(e.info.tvgName), lowerQuery) ||
                  Contains(Lower(e.info.groupTitle), lowerQuery)
  }

  /** `searchChannels` on the loaded channels. */
  function Search(channels: seq<Entry>, query: string): seq<Entry>
  {
    Filter(channels, Matches(Lower(query)))
  }

  /** A channel is found iff one of its three fields contains the query, ignoring case. */
  lemma SearchMembers(channels: seq<Entry>, query: string, x: Entry)
    ensures x in Search(channels, query) <==> x in channels && Matches(Lower(query))(x)
  {
    FilterMembers(channels, Matches(Lower(query)), x);
  }

  /** The letter case of the query does not matter. */
  lemma SearchIgnoresCase(channels: seq<Entry>, query: string)
    ensures Search(channels, Lower(query)) == Search(channels, query)
  {
    LowerIdempotent(query);
  }

  /** An empty query finds every channel, in order. */
  lemma EmptySearchKeepsAll(channels: seq<Entry>)
    ensures Search(channels, "") == channels
  {
    forall k | 0 <= k < |channels|
      ensures Matches(Lower(""))(channels[k])
    {
      assert "" <= Lower(channels[k].info.name);
    }
    FilterAll(channels, Matches(Lower("")));
  }

  /** Search results keep the list order: searching a concatenation concatenates the results. */
  lemma SearchAppend(a: seq<Entry>, b: seq<Entry>, query: string)
    ensures Search(a + b, query) == Search(a, query) + Search(b, query)
  {
    FilterAppend(a, b, Matches(Lower(query)));
  }

  // ---------------------------------------------------------------- cache statistics

  datatype PackageStat = PackageStat(package: string, channels: nat, timestamp: int, age: int)

  datatype Stats = Stats(totalPackages: nat, cachedPackages: seq<PackageStat>, oldest: Option<int>, newest: Option<int>)

  /** `Math.round(ms / 1000 / 60)`: whole minutes, halves rounded up. */
  function RoundMinutes(ms: int): (r: int)
    ensures r * 60000 - 30000 <= ms < r * 60000 + 30000
  {
    (ms + 30000) / 60000
  }

  /** `!x` for a timestamp slot: unset, or the falsy 0. */
  predicate Unset(x: Option<int>)
  {
    x.None? || x.value == 0
  }

  /** One key of the `forEach` in `getCacheStats`. */
  function StatsStep(s: Stats, cache: Cache, key: string, now: int): Stats
    requires key in cache
  {
    if !("m3u_" <= key) then s
    else
      var e := cache[key];
      Stats(s.totalPackages + 1,
            s.cachedPackages + [PackageStat(key[4..], |e.data|, e.timestamp, RoundMinutes(now - e.timestamp))],
            if Unset(s.oldest) || e.timestamp < s.oldest.value then Some(e.timestamp) else s.oldest,
            if Unset(s.newest) || e.timestamp > s.newest.value then Some(e.timestamp) else s.newest)
  }

  function StatsOf(cache: Cache, keys: seq<string>, now: int): Stats
    requires forall k :: k in keys ==> k in cache
  {
    if keys == [] then Stats(0, [], None, None)
    else StatsStep(StatsOf(cache, keys[..|keys| - 1], now), cache, keys[|keys| - 1], now)
  }

  function IsPackageKey(): string -> bool
  {
    (key: string) => "m3u_" <= key
  }

  /**
   * Over a prefix of the key order: the count is the number of `m3u_` keys and there is one row per such key;
   * with positive timestamps, `oldest` and `newest` are the smallest and the
   * largest of them, and both are unset exactly when no key counted.
   */
  lemma {:induction false} StatsOverKeys(cache: Cache, keys: seq<string>, now: int)
    requires forall k :: k in keys ==> k in cache
    requires forall k :: k in keys ==> cache[k].timestamp > 0
    ensures var s := StatsOf(cache, keys, now);
      s.totalPackages == |s.cachedPackages| == |Filter(keys, IsPackageKey())| &&
      (s.totalPackages == 0 <==> s.oldest.None?) && (s.totalPackages == 0 <==> s.newest.None?) &&
      (forall k :: k in keys && "m3u_" <= k ==>
         s.oldest.Some? && s.newest.Some? && s.oldest.value <= cache[k].timestamp <= s.newest.value) &&
      (s.oldest.Some? ==> exists k :: k in keys && "m3u_" <= k && cache[k].timestamp == s.oldest.value) &&
      (s.newest.Some? ==> exists k :: k in keys && "m3u_" <= k && cache[k].timestamp == s.newest.value)
  {
    if keys != [] {
      var front := keys[..|keys| - 1];
      StatsOverKeys(cache, front, now);
      var s0 := StatsOf(cache, front, now);
      var key := keys[|keys| - 1];
      assert forall k :: k in keys ==> k in front || k == key;
      if s0.oldest.Some? {
        var w :| w in front && "m3u_" <= w && cache[w].timestamp == s0.oldest.value;
        assert w in keys;
      }
      if s0.newest.Some? {
        var w :| w in front && "m3u_" <= w && cache[w].timestamp == s0.newest.value;
        assert w in keys;
      }
    }
  }

  /**
   * `getCacheStats` over the whole cache, its keys enumerated once each: the
   * count is the number of `m3u_` keys in the cache, with one row each; with
   * positive timestamps, `oldest` and `newest` are the smallest and the largest
   * of those keys' timestamps, unset exactly when the cache has no such key.
   */
  lemma StatsCorrect(cache: Cache, keys: seq<string>, now: int)
    requires Enumerates(keys, cache.Keys)
    requires forall k :: k in cache ==> cache[k].timestamp > 0
    ensures var s := StatsOf(cache, keys, now);
      s.totalPackages == |s.cachedPackages| == |set k | k in cache && "m3u_" <= k| &&
      (s.totalPackages == 0 <==> s.oldest.None?) && (s.totalPackages == 0 <==> s.newest.None?) &&
      (forall k :: k in cache && "m3u_" <= k ==>
         s.oldest.Some? && s.newest.Some? && s.oldest.value <= cache[k].timestamp <= s.newest.value) &&
      (s.oldest.Some? ==> exists k :: k in cache && "m3u_" <= k && cache[k].timestamp == s.oldest.value) &&
      (s.newest.Some? ==> exists k :: k in cache && "m3u_" <= k && cache[k].timestamp == s.newest.value)
  {
    StatsOverKeys(cache, keys, now);
    FilterDistinctCount(keys, IsPackageKey(), set k | k in cache && "m3u_" <= k);
  }
}

/**
 * The XMLTV programme guide behind the EPG page: the time-stamp slicing,
 * the channel/time range query, the programme on air, the cache-age test,
 * keyword categorisation, the fetch/cache/fallback decision and the sample
 * schedule used when nothing could be fetched.
 */
module EpgParser {
  import opened Wrappers
  import opened Strings
  import opened Sequences

  /** A `<channel>` as the parser records it. */
  datatype Channel = Channel(id: string, displayName: string, icon: string, category: string)

  /** A `<programme>`; `start` and `stop` are the parsed times in milliseconds. */
  datatype Programme = Programme(channel: string, start: int, stop: int, title: string, subTitle: string, desc: string, category: string)

  const MinuteMs: int := 60000
  const HourMs: int := 3600000

  // ---------------------------------------------------------------- XMLTV time stamps

  /** `s.substring(a, b)` for `a <= b`: positions past the end are clamped to the length. */
  function Substring(s: string, a: nat, b: nat): (r: string)
    requires a <= b
    ensures |r| <= b - a
    ensures b <= |s| ==> r == s[a..b]
  {
    var lo := if a < |s| then a else |s|;
    var hi := if b < |s| then b else |s|;
    s[lo..hi]
  }

  /**
   * `parseXMLTVTime`: nothing for a missing or empty attribute; otherwise the
   * text `YYYY-MM-DDTHH:mm:ss` cut from the first fourteen characters, which
   * `new Date` then reads. The ` +zzzz` offset is not looked at.
   */
  function XmltvDateText(timeStr: Option<string>): (r: Option<string>)
    ensures r.None? <==> timeStr == None || timeStr == Some([])
  {
    match timeStr
    case None => None
    case Some(t) =>
      if t == [] then None
      else Some(Substring(t, 0, 4) + "-" + Substring(t, 4, 6) + "-" + Substring(t, 6, 8) + "T" +
                Substring(t, 8, 10) + ":" + Substring(t, 10, 12) + ":" + Substring(t, 12, 14))
  }

  /** A full stamp is laid out as `YYYY-MM-DDTHH:mm:ss`, and dropping the separators gives its fourteen digits back. */
  lemma XmltvLayout(t: string)
    requires |t| >= 14
    ensures XmltvDateText(Some(t)).Some?
    ensures var d := XmltvDateText(Some(t)).value;
      |d| == 19 && d[4] == '-' && d[7] == '-' && d[10] == 'T' && d[13] == ':' && d[16] == ':' &&
      d[..4] + d[5..7] + d[8..10] + d[11..13] + d[14..16] + d[17..] == t[..14]
  {
    var d := XmltvDateText(Some(t)).value;
    assert d == t[0..4] + "-" + t[4..6] + "-" + t[6..8] + "T" + t[8..10] + ":" + t[10..12] + ":" + t[12..14];
    assert d[..4] == t[0..4] && d[5..7] == t[4..6] && d[8..10] == t[6..8];
    assert d[11..13] == t[8..10] && d[14..16] == t[10..12] && d[17..] == t[12..14];
    assert t[..14] == t[0..4] + t[4..6] + t[6..8] + t[8..10] + t[10..12] + t[12..14];
  }

  /** The zone offset after the fourteen digits makes no difference. */
  lemma XmltvOffsetIgnored(t: string, zone: string)
    requires |t| == 14
    ensures XmltvDateText(Some(t + zone)) == XmltvDateText(Some(t))
  {
    var s := t + zone;
    assert s[0..4] == t[0..4] && s[4..6] == t[4..6] && s[6..8] == t[6..8];
    assert s[8..10] == t[8..10] && s[10..12] == t[10..12] && s[12..14] == t[12..14];
  }

  // ---------------------------------------------------------------- queries

  /** The `getProgrammesForChannel` filter: that channel, starting in `[from, to)`. */
  function InRange(channelId: string, from: int, to: int): Programme -> bool
  {
    (p: Programme) => p.channel == channelId && from <= p.start < to
  }

  function StartOf(p: Programme): int
  {
    p.start
  }

  /** `getProgrammesForChannel`: the channel's programmes starting in `[from, to)`, ordered by start. */
  function ProgrammesForChannel(programmes: seq<Programme>, channelId: string, from: int, to: int): seq<Programme>
  {
    SortBy(Filter(programmes, InRange(channelId, from, to)), StartOf)
  }

  /** The range query returns exactly the matching programmes, each as often as stored, sorted by start. */
  lemma ProgrammesForChannelCorrect(programmes: seq<Programme>, channelId: string, from: int, to: int, p: Programme)
    ensures SortedBy(ProgrammesForChannel(programmes, channelId, from, to), StartOf)
    ensures multiset(ProgrammesForChannel(programmes, channelId, from, to)) == multiset(Filter(programmes, InRange(channelId, from, to)))
    ensures p in ProgrammesForChannel(programmes, channelId, from, to) <==>
      p in programmes && p.channel == channelId && from <= p.start < to
  {
    var kept := Filter(programmes, InRange(channelId, from, to));
    SortByCorrect(kept, StartOf);
    FilterMembers(programmes, InRange(channelId, from, to), p);
    assert p in ProgrammesForChannel(programmes, channelId, from, to) <==> p in multiset(kept);
  }

  /** The `getCurrentProgramme` test: that channel, on air at `now`. */
  function OnAir(channelId: string, now: int): Programme -> bool
  {
    (p: Programme) => p.channel == channelId && p.start <= now < p.stop
  }

  /** `getCurrentProgramme`: the first stored programme of the channel that is on air, if any. */
  function CurrentProgramme(programmes: seq<Programme>, channelId: string, now: int): (r: Option<Programme>)
  {
    match FindIndex(programmes, OnAir(channelId, now))
    case None => None
    case Some(i) => Some(programmes[i])
  }

  /** The programme found is on air on that channel and no earlier one is; nothing is found iff none is on air. */
  lemma CurrentProgrammeCorrect(programmes: seq<Programme>, channelId: string, now: int)
    ensures CurrentProgramme(programmes, channelId, now).None? <==>
      forall j :: 0 <= j < |programmes| ==> !(programmes[j].channel == channelId && programmes[j].start <= now < programmes[j].stop)
    ensures CurrentProgramme(programmes, channelId, now).Some? ==>
      exists i :: 0 <= i < |programmes| && programmes[i] == CurrentProgramme(programmes, channelId, now).value &&
        programmes[i].channel == channelId && programmes[i].start <= now < programmes[i].stop &&
        forall j :: 0 <= j < i ==> !(programmes[j].channel == channelId && programmes[j].start <= now < programmes[j].stop)
  {
    var found := FindIndex(programmes, OnAir(channelId, now));
    if found.Some? {
      var i := found.value;
      assert programmes[i].channel == channelId && programmes[i].start <= now < programmes[i].stop;
      forall j | 0 <= j < i
        ensures !(programmes[j].channel == channelId && programmes[j].start <= now < programmes[j].stop)
      {
        assert !OnAir(channelId, now)(programmes[j]);
      }
    } else {
      forall j | 0 <= j < |programmes|
        ensures !(programmes[j].channel == channelId && programmes[j].start <= now < programmes[j].stop)
      {
        assert !OnAir(channelId, now)(programmes[j]);
      }
    }
  }

  // ---------------------------------------------------------------- cache

  /**
   * `isCacheValid`: caching is on, a fetch time is recorded (a zero stamp
   * counts as none) and fewer than `cacheDuration` minutes have passed.
   */
  function IsCacheValid(cacheEnabled: bool, cacheTime: Option<int>, now: int, cacheDuration: int): (r: bool)
    ensures r ==> cacheEnabled && cacheTime.Some? && cacheTime.value != 0
  {
    cacheEnabled && cacheTime.Some? && cacheTime.value != 0 && now - cacheTime.value < cacheDuration * MinuteMs
  }

  /** The integer test is the source's `(now - cacheTime) / 1000 / 60 < cacheDuration` in exact arithmetic. */
  lemma CacheAgeInMinutes(cacheTime: int, now: int, cacheDuration: int)
    requires cacheTime != 0
    ensures IsCacheValid(true, Some(cacheTime), now, cacheDuration) <==>
      ((now - cacheTime) as real) / 1000.0 / 60.0 < cacheDuration as real
  {
    var age := ((now - cacheTime) as real) / 1000.0 / 60.0;
    assert age * 60000.0 == (now - cacheTime) as real;
    assert (cacheDuration * MinuteMs) as real == cacheDuration as real * 60000.0;
  }

  // ---------------------------------------------------------------- categories

  /** One entry of `categoryMap`: a category name and its keywords, in map order. */
  type CategoryEntry = (string, seq<string>)

  const DefaultCategory: string := "entertainment"

  /** Some keyword of the entry occurs in the (lower-cased) display name. */
  function Mentions(name: string): CategoryEntry -> bool
  {
    (e: CategoryEntry) => exists k :: k in e.1 && Contains(name, k)
  }

  /** The category `determineCategory` settles on for a lower-cased display name. */
  function CategoryOf(name: string, categoryMap: seq<CategoryEntry>): (r: string)
    ensures (forall i :: 0 <= i < |categoryMap| ==> forall k :: k in categoryMap[i].1 ==> !Contains(name, k)) ==> r == DefaultCategory
    ensures forall i, k ::
      (0 <= i < |categoryMap| && k in categoryMap[i].1 && Contains(name, k) &&
       forall j :: 0 <= j < i ==> !Mentions(name)(categoryMap[j])) ==> r == Lower(categoryMap[i].0)
  {
    match FindIndex(categoryMap, Mentions(name))
    case None => DefaultCategory
    case Some(i) => Lower(categoryMap[i].0)
  }

  /**
   * `determineCategory`: the first category, in map order, with a keyword in
   * the lower-cased display name, lower-cased; "entertainment" otherwise.
   */
  method DetermineCategory(displayName: string, categoryMap: seq<CategoryEntry>) returns (category: string)
    ensures category == CategoryOf(Lower(displayName), categoryMap)
  {
    var name := Lower(displayName);
    for i := 0 to |categoryMap|
      invariant forall j :: 0 <= j < i ==> !Mentions(name)(categoryMap[j])
    {
      var keywords := categoryMap[i].1;
      for k := 0 to |keywords|
        invariant forall m :: 0 <= m < k ==> !Contains(name, keywords[m])
      {
        if Contains(name, keywords[k]) {
          assert Mentions(name)(categoryMap[i]);
          return Lower(categoryMap[i].0);
        }
      }
      assert !Mentions(name)(categoryMap[i]);
    }
    return DefaultCategory;
  }

  // ---------------------------------------------------------------- sample data

  /** The eight channels of the fallback guide. */
  const SampleChannels: seq<Channel> := [
    Channel("bbc1", "BBC One HD", "", "entertainment"),
    Channel("skysports", "Sky Sports Premier League", "", "sports"),
    Channel("skymovies", "Sky Cinema Premiere", "", "movies"),
    Channel("discovery", "Discovery Channel", "", "documentary"),
    Channel("cartoonnet", "Cartoon Network", "", "kids"),
    Channel("bbcnews", "BBC News HD", "", "news"),
    Channel("espn", "ESPN HD", "", "sports"),
    Channel("hbo", "HBO HD", "", "movies")
  ]

  const SampleCategories: seq<string> := ["sports", "movies", "entertainment", "news", "kids", "documentary"]

  /** The title list of a category (`titles[category] || titles.entertainment`); the news list names the hour. */
  function TitleList(category: string, hour: nat): (r: seq<string>)
    ensures |r| == 5
  {
    if category == "sports" then ["Premier League Live", "NFL Game Day", "NBA Tonight", "Champions League", "Tennis Masters"]
    else if category == "movies" then ["Action Thriller", "Romantic Comedy", "Sci-Fi Adventure", "Drama Special", "Horror Night"]
    else if category == "news" then ["News at " + NatToString(hour) + ":00", "Breaking News", "World News", "Business Update", "Weather Report"]
    else if category == "kids" then ["Cartoon Time", "Kids Adventure", "Animated Series", "Family Fun", "Junior Show"]
    else if category == "documentary" then ["Nature Documentary", "History Special", "Science Explained", "Wild Life", "Space Exploration"]
    else ["Talent Show", "Reality TV", "Game Show", "Late Night Talk", "Variety Special"]
  }

  /** `generateSampleTitle`: the category's titles taken in turn by the hour. */
  function SampleTitle(category: string, hour: nat): string
  {
    var titles := TitleList(category, hour);
    titles[hour % |titles|]
  }

  /** A category without its own list uses the entertainment titles. */
  lemma SampleTitleFallback(category: string, hour: nat)
    requires category !in SampleCategories
    ensures SampleTitle(category, hour) == SampleTitle(DefaultCategory, hour)
  {
  }

  /** Titles repeat every five hours, except the news slot that names its hour. */
  lemma SampleTitleCycle(category: string, hour: nat)
    requires category != "news" || hour % 5 != 0
    ensures SampleTitle(category, hour + 5) == SampleTitle(category, hour)
  {
    assert (hour + 5) % 5 == hour % 5;
  }

  /** The news title on the hours divisible by five reads back its hour. */
  lemma NewsTitleNamesHour(hour: nat)
    requires hour % 5 == 0
    ensures var t := SampleTitle("news", hour);
      |t| > 11 && t[..8] == "News at " && t[|t| - 3..] == ":00" && DigitsValue(t[8..|t| - 3]) == hour
  {
    var t := SampleTitle("news", hour);
    assert t == "News at " + NatToString(hour) + ":00";
    assert t[8..|t| - 3] == NatToString(hour);
    DigitsRoundTrip(hour);
  }

  /** `generateSampleDescription`: one line per category, entertainment's for the rest. */
  function SampleDescription(category: string): string
  {
    if category == "sports" then "Live coverage of today's biggest sporting event with expert commentary and analysis."
    else if category == "movies" then "Award-winning feature film with incredible performances and stunning visuals."
    else if category == "news" then "The latest news, weather, and sports from around the world."
    else if category == "kids" then "Fun and educational programming for children of all ages."
    else if category == "documentary" then "Fascinating documentary exploring the wonders of our world."
    else "Join us for an evening of entertainment, laughter, and excitement."
  }

  /** The sample programme of one channel at one hour; `dayStart` is today's local midnight. */
  function SampleProgramme(channel: Channel, hour: nat, dayStart: int): Programme
  {
    Programme(channel.id, dayStart + hour * HourMs, dayStart + (hour + 1) * HourMs,
              SampleTitle(channel.category, hour), "", SampleDescription(channel.category), channel.category)
  }

  const HoursPerDay: nat := 24

  /** One channel's day of sample programmes, the first `hours` of them. */
  function SampleDay(channel: Channel, dayStart: int, hours: nat): (r: seq<Programme>)
    ensures |r| == hours
    ensures forall h :: 0 <= h < hours ==> r[h] == SampleProgramme(channel, h, dayStart)
  {
    seq(hours, h requires 0 <= h => SampleProgramme(channel, h, dayStart))
  }

  /** The sample schedule: every channel's day, channel by channel. */
  function SampleSchedule(channels: seq<Channel>, dayStart: int): seq<Programme>
  {
    if channels == [] then []
    else SampleSchedule(channels[..|channels| - 1], dayStart) + SampleDay(channels[|channels| - 1], dayStart, HoursPerDay)
  }

  /** The schedule has 24 programmes per channel; programme `24c + h` is channel `c`'s hour `h`, lasting one hour. */
  lemma {:induction false} SampleScheduleShape(channels: seq<Channel>, dayStart: int)
    ensures |SampleSchedule(channels, dayStart)| == HoursPerDay * |channels|
    ensures forall c, h :: 0 <= c < |channels| && 0 <= h < HoursPerDay ==>
      SampleSchedule(channels, dayStart)[HoursPerDay * c + h] == SampleProgramme(channels[c], h, dayStart)
  {
    if channels != [] {
      var front := channels[..|channels| - 1];
      SampleScheduleShape(front, dayStart);
      var s := SampleSchedule(channels, dayStart);
      forall c, h | 0 <= c < |channels| && 0 <= h < HoursPerDay
        ensures s[HoursPerDay * c + h] == SampleProgramme(channels[c], h, dayStart)
      {
        assert HoursPerDay == 24;
        if c < |front| {
          assert 24 * c + h < 24 * |front|;
          assert channels[c] == front[c];
        } else {
          assert c == |front|;
          assert 24 * c + h - 24 * |front| == h;
        }
      }
    }
  }

  /** The fallback guide holds 192 programmes, each one hour long. */
  lemma SampleDataSize(dayStart: int)
    ensures |SampleChannels| == 8
    ensures |SampleSchedule(SampleChannels, dayStart)| == 192
    ensures forall i :: 0 <= i < 192 ==>
      SampleSchedule(SampleChannels, dayStart)[i].stop - SampleSchedule(SampleChannels, dayStart)[i].start == HourMs
  {
    var chans := SampleChannels;
    SampleScheduleShape(chans, dayStart);
    forall i | 0 <= i < 192
      ensures SampleSchedule(chans, dayStart)[i].stop - SampleSchedule(chans, dayStart)[i].start == HourMs
    {
      var c, h := i / HoursPerDay, i % HoursPerDay;
      assert i == HoursPerDay * c + h;
      var p := SampleProgramme(chans[c], h, dayStart);
      assert (h + 1) * HourMs == h * HourMs + HourMs;
      assert p.stop - p.start == HourMs;
    }
  }

  /** The nested loops of `getSampleData`: for each channel, hours 0 to 23. */
  method BuildSampleSchedule(channels: seq<Channel>, dayStart: int) returns (programmes: seq<Programme>)
    ensures programmes == SampleSchedule(channels, dayStart)
  {
    programmes := [];
    for c := 0 to |channels|
      invariant programmes == SampleSchedule(channels[..c], dayStart)
    {
      var day: seq<Programme> := [];
      for hour := 0 to HoursPerDay
        invariant day == SampleDay(channels[c], dayStart, hour)
      {
        SampleDayNext(channels[c], dayStart, hour);
        day := day + [SampleProgramme(channels[c], hour, dayStart)];
      }
      SampleScheduleNext(channels, dayStart, c);
      programmes := programmes + day;
    }
    assert channels[..|channels|] == channels;
  }

  /** One more hour of a day is one more sample programme. */
  lemma SampleDayNext(channel: Channel, dayStart: int, hours: nat)
    ensures SampleDay(channel, dayStart, hours + 1) == SampleDay(channel, dayStart, hours) + [SampleProgramme(channel, hours, dayStart)]
  {
    var r := SampleDay(channel, dayStart, hours + 1);
    var q := SampleDay(channel, dayStart, hours) + [SampleProgramme(channel, hours, dayStart)];
    assert forall h :: 0 <= h < hours + 1 ==> r[h] == q[h];
  }

  /** One more channel of the schedule is that channel's day. */
  lemma SampleScheduleNext(channels: seq<Channel>, dayStart: int, c: nat)
    requires c < |channels|
    ensures SampleSchedule(channels[..c + 1], dayStart) == SampleSchedule(channels[..c], dayStart) + SampleDay(channels[c], dayStart, HoursPerDay)
  {
    assert channels[..c + 1][..c] == channels[..c];
  }

  // ---------------------------------------------------------------- fetching

  /** What one attempt to fetch and parse the XMLTV feed produced. */
  datatype FetchOutcome =
    | Parsed(channels: seq<Channel>, programmes: seq<Programme>)
    | FetchError(message: string)   // a network error, a non-OK status or an XML parse error

  /** What `fetchEPG` hands back: the guide, or the error it rethrows. */
  datatype Guide = Guide(channels: seq<Channel>, programmes: seq<Programme>) | Rethrown(message: string)

  /** The parser's state: the last guide and when it was fetched. */
  class EpgStore {
    var channels: seq<Channel>
    var programmes: seq<Programme>
    var cacheTime: Option<int>
    const cacheEnabled: bool
    const cacheDuration: int

    constructor(cacheEnabled: bool, cacheDuration: int)
      ensures channels == [] && programmes == [] && cacheTime == None
      ensures this.cacheEnabled == cacheEnabled && this.cacheDuration == cacheDuration
    {
      channels := [];
      programmes := [];
      cacheTime := None;
      this.cacheEnabled := cacheEnabled;
      this.cacheDuration := cacheDuration;
    }

    /** `getSampleData`: the eight sample channels and their 192 programmes become the guide. */
    method GetSampleData(dayStart: int) returns (guide: Guide)
      modifies this`channels, this`programmes
      ensures channels == SampleChannels && programmes == SampleSchedule(SampleChannels, dayStart)
      ensures guide == Guide(channels, programmes)
    {
      channels := SampleChannels;
      programmes := BuildSampleSchedule(SampleChannels, dayStart);
      guide := Guide(channels, programmes);
    }

    /**
     * `fetchEPG`: a valid cache is served without fetching; a parsed feed
     * replaces the guide and stamps the cache; a failure falls back to the
     * sample guide only while no channel is loaded, and is rethrown otherwise.
     */
    method FetchEpg(now: int, dayStart: int, outcome: FetchOutcome) returns (guide: Guide)
      modifies this`channels, this`programmes, this`cacheTime
      ensures old(IsCacheValid(cacheEnabled, cacheTime, now, cacheDuration)) ==>
        guide == Guide(channels, programmes) && channels == old(channels) && programmes == old(programmes) && cacheTime == old(cacheTime)
      ensures !old(IsCacheValid(cacheEnabled, cacheTime, now, cacheDuration)) && outcome.Parsed? ==>
        channels == outcome.channels && programmes == outcome.programmes && guide == Guide(channels, programmes) &&
        cacheTime == (if cacheEnabled then Some(now) else old(cacheTime))
      ensures !old(IsCacheValid(cacheEnabled, cacheTime, now, cacheDuration)) && outcome.FetchError? && old(channels) == [] ==>
        channels == SampleChannels && programmes == SampleSchedule(SampleChannels, dayStart) &&
        guide == Guide(channels, programmes) && cacheTime == old(cacheTime)
      ensures !old(IsCacheValid(cacheEnabled, cacheTime, now, cacheDuration)) && outcome.FetchError? && old(channels) != [] ==>
        guide == Rethrown(outcome.message) && channels == old(channels) && programmes == old(programmes) && cacheTime == old(cacheTime)
    {
      if IsCacheValid(cacheEnabled, cacheTime, now, cacheDuration) {
        return Guide(channels, programmes);
      }
      match outcome
      case Parsed(cs, ps) =>
        channels := cs;
        programmes := ps;
        if cacheEnabled {
          cacheTime := Some(now);
        }
        guide := Guide(channels, programmes);
      case FetchError(message) =>
        if channels == [] {
          guide := GetSampleData(dayStart);
        } else {
          guide := Rethrown(message);
        }
    }
  }
}

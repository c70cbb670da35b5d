/**
 * The live-sports page: the countdown's day/hour/minute/second split, team
 * initials, the channel chips of an event card, the league filter buttons,
 * the flattened event list and the "top events" slider fed by `loadEvents`.
 */
module LiveEvents {
  import opened Wrappers
  import opened Strings
  import opened Sequences

  // ---------------------------------------------------------------- countdown

  /** The four zero-padded fields `formatDuration` returns. */
  datatype Countdown = Countdown(days: string, hours: string, minutes: string, seconds: string)

  const Zero: string := "00"

  /**
   * `formatDuration(diffMs)`: all "00" once the kick-off has passed; otherwise
   * the whole seconds split into days, hours, minutes and seconds, each
   * padded to two digits (days may use more).
   */
  function FormatDuration(diffMs: int): (r: Countdown)
    ensures diffMs <= 0 ==> r == Countdown(Zero, Zero, Zero, Zero)
    ensures |r.days| >= 2 && |r.hours| == 2 && |r.minutes| == 2 && |r.seconds| == 2
  {
    if diffMs <= 0 then Countdown(Zero, Zero, Zero, Zero)
    else
      var total := diffMs / 1000;
      TwoDigits(total % 86400 / 3600);
      TwoDigits(total % 3600 / 60);
      TwoDigits(total % 60);
      Countdown(Pad2(NatToString(total / 86400)), Pad2(NatToString(total % 86400 / 3600)),
                Pad2(NatToString(total % 3600 / 60)), Pad2(NatToString(total % 60)))
  }

  /** The days/hours/minutes/seconds split as the source computes it adds back up to the whole seconds. */
  lemma DurationSplit(t: nat)
    ensures (t / 86400) * 86400 + (t % 86400 / 3600) * 3600 + (t % 3600 / 60) * 60 + t % 60 == t
    ensures t % 86400 / 3600 < 24 && t % 3600 / 60 < 60 && t % 60 < 60
  {
    var d, r := t / 86400, t % 86400;
    var h, r2 := r / 3600, r % 3600;
    var m, s := r2 / 60, r2 % 60;
    ModHour(t, 24 * d + h, r2);
    ModMinute(t, 1440 * d + 60 * h + m, s);
  }

  lemma ModHour(t: int, q: int, r: int)
    requires t == 3600 * q + r && 0 <= r < 3600
    ensures t % 3600 == r
  {
  }

  lemma ModMinute(t: int, q: int, r: int)
    requires t == 60 * q + r && 0 <= r < 60
    ensures t % 60 == r
  {
  }

  /** Reading the four fields back as numbers gives the whole seconds left, with hours, minutes and seconds in range. */
  lemma FormatDurationReadsBack(diffMs: int)
    requires diffMs > 0
    ensures AllDigits(FormatDuration(diffMs).days) && AllDigits(FormatDuration(diffMs).hours)
    ensures AllDigits(FormatDuration(diffMs).minutes) && AllDigits(FormatDuration(diffMs).seconds)
    ensures DigitsValue(FormatDuration(diffMs).days) * 86400 + DigitsValue(FormatDuration(diffMs).hours) * 3600
      + DigitsValue(FormatDuration(diffMs).minutes) * 60 + DigitsValue(FormatDuration(diffMs).seconds) == diffMs / 1000
    ensures DigitsValue(FormatDuration(diffMs).hours) < 24
    ensures DigitsValue(FormatDuration(diffMs).minutes) < 60 && DigitsValue(FormatDuration(diffMs).seconds) < 60
  {
    var t := diffMs / 1000;
    PaddedValue(t / 86400);
    PaddedValue(t % 86400 / 3600);
    PaddedValue(t % 3600 / 60);
    PaddedValue(t % 60);
    DurationSplit(t);
  }

  // ---------------------------------------------------------------- team initials

  /** The first character of each part (`part[0]`); an empty part contributes nothing. */
  function Heads(parts: seq<string>): (r: string)
    ensures |r| <= |parts|
  {
    if parts == [] then []
    else Heads(parts[..|parts| - 1]) + (if parts[|parts| - 1] == [] then [] else [parts[|parts| - 1][0]])
  }

  /**
   * The text of a team badge without an image: the initials of the
   * space-separated words, at most three, upper-cased; "?" without a name.
   */
  function Initials(name: Option<string>): (r: string)
    ensures |r| <= 3
    ensures name == None || name == Some([]) ==> r == "?"
    ensures forall i :: 0 <= i < |r| ==> !('a' <= r[i] <= 'z')
  {
    match name
    case None => "?"
    case Some(n) =>
      if n == [] then "?"
      else
        var h := Heads(Split(n, ' '));
        Upper(if |h| <= 3 then h else h[..3])
  }

  /** Of words that are all non-empty, `Heads` takes exactly the first letters. */
  lemma {:induction false} HeadsOfWords(words: seq<string>)
    requires forall k :: 0 <= k < |words| ==> words[k] != []
    ensures |Heads(words)| == |words|
    ensures forall k :: 0 <= k < |words| ==> Heads(words)[k] == words[k][0]
  {
    if words != [] {
      HeadsOfWords(words[..|words| - 1]);
    }
  }

  /** A name of words separated by single spaces gets the upper-cased first letters of its first three words. */
  lemma InitialsOfWords(words: seq<string>)
    requires words != []
    requires forall k :: 0 <= k < |words| ==> words[k] != [] && ' ' !in words[k]
    ensures |Initials(Some(Join(words, " ")))| == if |words| < 3 then |words| else 3
    ensures forall k :: 0 <= k < |Initials(Some(Join(words, " ")))| ==>
      Initials(Some(Join(words, " ")))[k] == UpperChar(words[k][0])
  {
    JoinSplit(words, ' ');
    JoinEnds(words, " ");
    HeadsOfWords(words);
  }

  /** A name made only of spaces has no initials at all (every part is empty). */
  lemma {:induction false} BlankNameNoInitials(n: nat)
    requires n > 0
    ensures Initials(Some(seq(n, _ => ' '))) == []
  {
    var s := seq(n, _ => ' ');
    BlankParts(s);
    EmptyHeads(Split(s, ' '));
  }

  lemma {:induction false} BlankParts(s: string)
    requires forall i :: 0 <= i < |s| ==> s[i] == ' '
    ensures forall k :: 0 <= k < |Split(s, ' ')| ==> Split(s, ' ')[k] == []
    decreases |s|
  {
    if s != [] {
      BlankParts(s[1..]);
    }
  }

  lemma {:induction false} EmptyHeads(parts: seq<string>)
    requires forall k :: 0 <= k < |parts| ==> parts[k] == []
    ensures Heads(parts) == []
  {
    if parts != [] {
      EmptyHeads(parts[..|parts| - 1]);
    }
  }

  // ---------------------------------------------------------------- channel chips

  const NoStationsChip: string := "Channel list tbc"
  const MaxChips: nat := 6

  /** The "+k more" chip. */
  function MoreChip(k: nat): string
  {
    "+" + NatToString(k) + " more"
  }

  /**
   * `renderChannels`: one "Channel list tbc" chip without stations; otherwise
   * the first six stations in order, then a "+k more" chip when some are
   * left over.
   */
  function Chips(stations: seq<string>): (r: seq<string>)
    ensures stations == [] ==> r == [NoStationsChip]
    ensures stations != [] ==> |r| == if |stations| <= MaxChips then |stations| else MaxChips + 1
    ensures forall i :: 0 <= i < |stations| && i < MaxChips ==> r[i] == stations[i]
  {
    if stations == [] then [NoStationsChip]
    else if |stations| <= MaxChips then stations
    else stations[..MaxChips] + [MoreChip(|stations| - MaxChips)]
  }

  /** The "+k more" chip appears iff stations are hidden, and its number plus the six shown is the station count. */
  lemma MoreChipCounts(stations: seq<string>)
    ensures |stations| > MaxChips <==> |Chips(stations)| == MaxChips + 1
    ensures |stations| > MaxChips ==>
      var chip := Chips(stations)[MaxChips];
      |chip| > 6 && chip[..1] == "+" && chip[|chip| - 5..] == " more" &&
      AllDigits(chip[1..|chip| - 5]) && DigitsValue(chip[1..|chip| - 5]) + MaxChips == |stations|
  {
    if |stations| > MaxChips {
      var k := |stations| - MaxChips;
      var chip := MoreChip(k);
      assert chip[1..|chip| - 5] == NatToString(k);
      DigitsRoundTrip(k);
    }
  }

  // ---------------------------------------------------------------- leagues

  /** One event of the feed, as far as the page uses it; `startUtc` is `start.utc` in milliseconds. */
  datatype Event = Event(id: string, title: string, startUtc: Option<int>, tvStations: seq<string>)

  /** One league of the feed; `events` may be absent. */
  datatype League = League(slug: string, name: string, sport: string, events: Option<seq<Event>>)

  /** An event copied out of its league, with the league's label and sport attached. */
  datatype ListedEvent = ListedEvent(event: Event, league: string, sport: string)

  const AllSlug: string := "all"

  /** `league.events || []`. */
  function EventsOf(l: League): seq<Event>
  {
    match l.events
    case None => []
    case Some(es) => es
  }

  /** The test `league.slug === slug`. */
  function SlugIs(slug: string): League -> bool
  {
    (l: League) => l.slug == slug
  }

  /** `filteredLeagues`: every league for "all", otherwise those of the active slug. */
  function FilteredLeagues(leagues: seq<League>, activeSlug: string): (r: seq<League>)
    ensures activeSlug == AllSlug ==> r == leagues
    ensures |r| <= |leagues|
  {
    if activeSlug == AllSlug then leagues else Filter(leagues, SlugIs(activeSlug))
  }

  /** Under a slug other than "all", a league is shown iff it is one of the leagues and has that slug. */
  lemma FilteredLeaguesMembers(leagues: seq<League>, activeSlug: string, l: League)
    requires activeSlug != AllSlug
    ensures l in FilteredLeagues(leagues, activeSlug) <==> l in leagues && l.slug == activeSlug
  {
    FilterMembers(leagues, SlugIs(activeSlug), l);
  }

  /** The filter works piecewise, so the shown leagues keep their order. */
  lemma FilteredLeaguesAppend(a: seq<League>, b: seq<League>, activeSlug: string)
    ensures FilteredLeagues(a + b, activeSlug) == FilteredLeagues(a, activeSlug) + FilteredLeagues(b, activeSlug)
  {
    if activeSlug != AllSlug {
      FilterAppend(a, b, SlugIs(activeSlug));
    }
  }

  /** The events of one league as `flattenEvents` copies them. */
  function Listed(l: League): (r: seq<ListedEvent>)
  {
    seq(|EventsOf(l)|, i requires 0 <= i < |EventsOf(l)| => ListedEvent(EventsOf(l)[i], l.name, l.sport))
  }

  /** `flattenEvents`: each league's events in turn, tagged with the league's label and sport. */
  function Flatten(leagues: seq<League>): (r: seq<ListedEvent>)
  {
    if leagues == [] then [] else Flatten(leagues[..|leagues| - 1]) + Listed(leagues[|leagues| - 1])
  }

  function EventCount(leagues: seq<League>): nat
  {
    if leagues == [] then 0 else EventCount(leagues[..|leagues| - 1]) + |EventsOf(leagues[|leagues| - 1])|
  }

  /** The flattened list has one entry per event of every league. */
  lemma {:induction false} FlattenLength(leagues: seq<League>)
    ensures |Flatten(leagues)| == EventCount(leagues)
  {
    if leagues != [] {
      FlattenLength(leagues[..|leagues| - 1]);
    }
  }

  /** Flattening works piecewise, so leagues and their events keep their order. */
  lemma {:induction false} FlattenAppend(a: seq<League>, b: seq<League>)
    ensures Flatten(a + b) == Flatten(a) + Flatten(b)
    decreases |b|
  {
    if b == [] {
      assert a + b == a;
    } else {
      FlattenAppend(a, b[..|b| - 1]);
      assert (a + b)[..|a + b| - 1] == a + b[..|b| - 1];
    }
  }

  /** Flattening one league copies its events in order, each tagged with that league's label and sport. */
  lemma FlattenOne(l: League)
    ensures |Flatten([l])| == |EventsOf(l)|
    ensures forall i :: 0 <= i < |EventsOf(l)| ==> Flatten([l])[i] == ListedEvent(EventsOf(l)[i], l.name, l.sport)
  {
    assert [l][..0] == [];
  }

  // ---------------------------------------------------------------- loading the feed

  /** `league.events?.length` is truthy. */
  predicate HasEvents(l: League)
  {
    l.events.Some? && l.events.value != []
  }

  /** `event.start?.utc` is truthy. */
  predicate HasStart(e: ListedEvent)
  {
    e.event.startUtc.Some?
  }

  /** The sort key, `new Date(start.utc).getTime()`. */
  function StartKey(e: ListedEvent): int
  {
    match e.event.startUtc
    case None => 0
    case Some(t) => t
  }

  const TopCount: nat := 8

  /** `leagues.filter(league => league.events?.length)`. */
  function LoadedLeagues(leagues: seq<League>): (r: seq<League>)
    ensures forall k :: 0 <= k < |r| ==> HasEvents(r[k])
  {
    Filter(leagues, HasEvents)
  }

  /** A league is kept iff it has events, and the kept ones keep their order. */
  lemma LoadedLeaguesMembers(leagues: seq<League>, l: League)
    ensures l in LoadedLeagues(leagues) <==> l in leagues && HasEvents(l)
    ensures forall a, b :: leagues == a + b ==> LoadedLeagues(leagues) == LoadedLeagues(a) + LoadedLeagues(b)
  {
    FilterMembers(leagues, HasEvents, l);
    forall a, b | leagues == a + b
      ensures LoadedLeagues(leagues) == LoadedLeagues(a) + LoadedLeagues(b)
    {
      FilterAppend(a, b, HasEvents);
    }
  }

  /** The events that carry a start time (`filter(event => event.start?.utc)`), soonest first. */
  function Timeline(leagues: seq<League>): seq<ListedEvent>
  {
    SortBy(Filter(Flatten(leagues), HasStart), StartKey)
  }

  /** `allEvents.slice(0, 8)` after the filter and the sort. */
  function TopEvents(leagues: seq<League>): (r: seq<ListedEvent>)
    ensures |r| <= TopCount
  {
    var all := Timeline(leagues);
    if |all| <= TopCount then all else all[..TopCount]
  }

  /** The slider holds at most eight events, each with a start time, soonest first, all from the flattened list. */
  lemma TopEventsCorrect(leagues: seq<League>)
    ensures var all := Filter(Flatten(leagues), HasStart);
      |TopEvents(leagues)| == if |all| < TopCount then |all| else TopCount
    ensures forall k :: 0 <= k < |TopEvents(leagues)| ==> HasStart(TopEvents(leagues)[k])
    ensures SortedBy(TopEvents(leagues), StartKey)
    ensures multiset(TopEvents(leagues)) <= multiset(Flatten(leagues))
  {
    var all := Filter(Flatten(leagues), HasStart);
    var sorted := SortBy(all, StartKey);
    SortByCorrect(all, StartKey);
    FilterWithin(Flatten(leagues), HasStart);
    var top := TopEvents(leagues);
    if top != [] {
      SortedCut(sorted, StartKey, |top|);
      assert top == sorted[..|top|];
    }
    forall k | 0 <= k < |top|
      ensures HasStart(top[k])
    {
      assert top[k] in multiset(all);
    }
  }

  /** The events with a start time that miss the slider start no earlier than the last one shown. */
  lemma TopEventsSoonest(leagues: seq<League>)
    ensures var top := TopEvents(leagues); var rest := Timeline(leagues)[|top|..];
      multiset(top) + multiset(rest) == multiset(Filter(Flatten(leagues), HasStart)) &&
      (top != [] ==> KeysAtLeast(rest, StartKey, StartKey(top[|top| - 1])))
  {
    var all := Filter(Flatten(leagues), HasStart);
    var top := TopEvents(leagues);
    SortByCut(all, StartKey, |top|);
    assert top == SortBy(all, StartKey)[..|top|];
  }

  /** The outcome of one fetch of the feed. */
  datatype Feed =
    | FetchFailed                               // a network error, a non-OK status or unreadable JSON
    | Fetched(leagues: Option<seq<League>>)     // `data?.leagues`

  /** What the page shows after loading. */
  datatype Shown = ErrorState | EmptyState | Fixtures

  /** The page's `state` object. */
  class EventsPage {
    var leagues: seq<League>
    var topEvents: seq<ListedEvent>
    var activeSlug: string

    constructor()
      ensures leagues == [] && topEvents == [] && activeSlug == AllSlug
    {
      leagues := [];
      topEvents := [];
      activeSlug := AllSlug;
    }

    /**
     * `loadEvents`: on a failed fetch nothing changes; otherwise the leagues
     * with events are kept, and when there are any the slider's events are
     * the eight soonest. Without leagues the slider keeps its earlier events.
     */
    method LoadEvents(feed: Feed) returns (shown: Shown)
      modifies this`leagues, this`topEvents
      ensures feed == FetchFailed ==> shown == ErrorState && leagues == old(leagues) && topEvents == old(topEvents)
      ensures feed.Fetched? ==> leagues == LoadedLeagues(if feed.leagues.Some? then feed.leagues.value else [])
      ensures feed.Fetched? && leagues == [] ==> shown == EmptyState && topEvents == old(topEvents)
      ensures feed.Fetched? && leagues != [] ==> shown == Fixtures && topEvents == TopEvents(leagues)
    {
      match feed
      case FetchFailed =>
        return ErrorState;
      case Fetched(data) =>
        leagues := LoadedLeagues(if data.Some? then data.value else []);
        if leagues == [] {
          return EmptyState;
        }
        topEvents := TopEvents(leagues);
        shown := Fixtures;
    }

    /** A filter button: "All Sports" sets "all", a league's button sets its slug. */
    method SelectFilter(slug: string)
      modifies this`activeSlug
      ensures activeSlug == slug
    {
      activeSlug := slug;
    }

    /** `renderEvents` shows the empty state iff no league passes the filter. */
    predicate ShowsEmptyState()
      reads this`leagues, this`activeSlug
    {
      FilteredLeagues(leagues, activeSlug) == []
    }
  }

  /** Once the feed has leagues, the "all" filter never shows the empty state, and each league's own button shows it. */
  lemma LoadedLeaguesShown(leagues: seq<League>, k: nat)
    requires k < |leagues|
    ensures FilteredLeagues(leagues, AllSlug) != []
    ensures leagues[k] in FilteredLeagues(leagues, leagues[k].slug)
  {
    if leagues[k].slug != AllSlug {
      FilteredLeaguesMembers(leagues, leagues[k].slug, leagues[k]);
    }
  }
}

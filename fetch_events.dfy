/**
 * `scripts/fetch-events.py`: upcoming fixtures of a fixed list of leagues,
 * turned from the sports database's records into the site's event records
 * and kept when they fall inside the next sixty days.
 *
 * A JSON field is an `Option<string>`, `None` standing for a missing key
 * or `null`; Python's truthiness of a string is `IsTruthy`. The network
 * reply for each league is a parameter, and so is the clock: the current
 * time is a day number (the proleptic Gregorian ordinal Python's `date`
 * uses) and the seconds since midnight.
 */
module FetchEvents {
  import opened Wrappers
  import opened Strings

  const DaysAhead: nat := 60

  /** One entry of the league table. */
  datatype League = League(id: string, name: string, slug: string, sport: string)

  const LeaguesConfig: seq<League> := [
    League("4328", "English Premier League", "premier-league", "Soccer"),
    League("4335", "Spanish La Liga", "la-liga", "Soccer"),
    League("4331", "Italian Serie A", "serie-a", "Soccer"),
    League("4332", "German Bundesliga", "bundesliga", "Soccer"),
    League("4334", "French Ligue 1", "ligue-1", "Soccer"),
    League("4380", "UEFA Champions League", "uefa-champions-league", "Soccer"),
    League("4481", "UEFA Europa League", "uefa-europa-league", "Soccer"),
    League("4391", "National Football League", "nfl", "American Football"),
    League("4387", "NBA", "nba", "Basketball"),
    League("4424", "Major League Baseball", "mlb", "Baseball"),
    League("4370", "National Hockey League", "nhl", "Ice Hockey"),
    League("4346", "Major League Soccer", "mls", "Soccer"),
    League("4443", "Ultimate Fighting Championship", "ufc", "Mixed Martial Arts"),
    League("4444", "Bellator MMA", "bellator", "Mixed Martial Arts"),
    League("4370", "Formula 1", "formula-1", "Motorsport"),
    League("4460", "Six Nations Rugby", "rugby-six-nations", "Rugby"),
    League("4482", "Indian Premier League", "cricket-ipl", "Cricket"),
    League("4511", "Big Bash League", "cricket-bbl", "Cricket")
  ]

  predicate IsTruthy(v: Option<string>)
  {
    v.Some? && v.value != []
  }

  /** `a or b` on two JSON strings. */
  function Or(a: Option<string>, b: Option<string>): (r: Option<string>)
    ensures IsTruthy(a) ==> r == a
    ensures !IsTruthy(a) ==> r == b
  {
    if IsTruthy(a) then a else b
  }

  // ------------------------------------------------------------ records

  /** The fields of a sports-database event that the script reads. */
  datatype RawEvent = RawEvent(
    idEvent: Option<string>, strEvent: Option<string>, strLeague: Option<string>, strSeason: Option<string>,
    strSport: Option<string>, dateEvent: Option<string>, strTime: Option<string>,
    strVenue: Option<string>, strCity: Option<string>, stations: seq<Option<string>>,
    strThumb: Option<string>, strPoster: Option<string>, strArticle: Option<string>, strVideo: Option<string>,
    home: Team, away: Team)

  datatype Team = Team(id: Option<string>, name: Option<string>, badge: Option<string>)

  /** The `start` object: the UTC stamp (`None` is `null`), the date and the time. */
  datatype Start = Start(utc: Option<string>, date: string, time: string)

  /** The site's event record. */
  datatype Event = Event(
    id: Option<string>, slug: string, title: Option<string>, league: Option<string>, season: Option<string>,
    sport: Option<string>, start: Start, venue: Option<string>, city: Option<string>,
    tvStations: seq<string>, image: Option<string>, article: Option<string>, highlights: Option<string>,
    mapsUrl: Option<string>, eventUrl: string, homeTeam: Team, awayTeam: Team)

  // ------------------------------------------------------------ parse_event

  /** The UTC stamp: date and time, or the date at midnight, or nothing without a date. */
  function StartUtc(date: string, time: string): (r: Option<string>)
    ensures date == [] <==> r.None?
    ensures date != [] && time != [] ==> r == Some(date + "T" + time + "Z")
    ensures date != [] && time == [] ==> r == Some(date + "T00:00:00Z")
  {
    if date == [] then None
    else if time != [] then Some(date + "T" + time + "Z")
    else Some(date + "T00:00:00Z")
  }

  /** `strTVStation1` to `strTVStation5`: the truthy ones, in order. */
  function Stations(slots: seq<Option<string>>): (r: seq<string>)
    ensures |r| <= |slots|
    ensures forall k :: 0 <= k < |r| ==> r[k] != [] && Some(r[k]) in slots
  {
    if slots == [] then []
    else
      var init := Stations(slots[..|slots| - 1]);
      var last := slots[|slots| - 1];
      assert forall x :: x in slots[..|slots| - 1] ==> x in slots;
      if IsTruthy(last) then init + [last.value] else init
  }

  /** A truthy slot is listed. */
  lemma {:induction false} StationListed(slots: seq<Option<string>>, i: nat)
    requires i < |slots| && IsTruthy(slots[i])
    ensures slots[i].value in Stations(slots)
  {
    if i < |slots| - 1 {
      StationListed(slots[..|slots| - 1], i);
    }
  }

  /** The loop over the five station slots. */
  method CollectStations(slots: seq<Option<string>>) returns (stations: seq<string>)
    ensures stations == Stations(slots)
  {
    stations := [];
    for i := 0 to |slots|
      invariant stations == Stations(slots[..i])
    {
      assert slots[..i + 1][..i] == slots[..i];
      if IsTruthy(slots[i]) {
        stations := stations + [slots[i].value];
      }
    }
    assert slots[..|slots|] == slots;
  }

  /** The slug: the title lowercased, each space a `-`. */
  function Slug(title: Option<string>): (r: string)
    ensures |r| == |title.GetOr("")|
    ensures ' ' !in r
  {
    var s := Lower(title.GetOr(""));
    ReplaceAllLength(s, " ", "-");
    ReplaceAllCharGone(s, ' ', "-");
    ReplaceAll(s, " ", "-")
  }

  /** `%20`-encoding of spaces. */
  function EncodeSpaces(s: string): (r: string)
    ensures ' ' !in r
  {
    ReplaceAllCharGone(s, ' ', "%20");
    ReplaceAll(s, " ", "%20")
  }

  const MapsSearch: string := "https://www.google.com/maps/search/?api=1&query="

  /** The map link, when both venue and city are truthy. */
  function MapsUrl(venue: Option<string>, city: Option<string>): (r: Option<string>)
    ensures r.Some? <==> IsTruthy(venue) && IsTruthy(city)
    ensures r.Some? ==> r.value == MapsSearch + EncodeSpaces(venue.value + " " + city.value)
  {
    if IsTruthy(venue) && IsTruthy(city) then Some(MapsSearch + EncodeSpaces(venue.value + " " + city.value)) else None
  }

  /** `parse_event`. A missing `idEvent` is written `None` into the event link, as the f-string does. */
  function ParseEvent(e: RawEvent): (r: Event)
    ensures r.start.date == e.dateEvent.GetOr("")
    ensures r.start.utc == StartUtc(e.dateEvent.GetOr(""), e.strTime.GetOr(""))
    ensures r.start.time == (if IsTruthy(e.strTime) then e.strTime.value else "00:00")
    ensures r.tvStations == Stations(e.stations)
    ensures r.mapsUrl.Some? <==> IsTruthy(e.strVenue) && IsTruthy(e.strCity)
    ensures r.image == Or(e.strThumb, e.strPoster)
  {
    var date := e.dateEvent.GetOr("");
    var time := e.strTime.GetOr("");
    Event(e.idEvent, Slug(e.strEvent), e.strEvent, e.strLeague, e.strSeason, e.strSport,
      Start(StartUtc(date, time), date, if time != [] then time else "00:00"),
      e.strVenue, e.strCity, Stations(e.stations), Or(e.strThumb, e.strPoster), e.strArticle, e.strVideo,
      MapsUrl(e.strVenue, e.strCity), "https://www.thesportsdb.com/event/" + e.idEvent.GetOr("None"),
      e.home, e.away)
  }

  /** Five slots give at most five stations. */
  lemma AtMostFiveStations(e: RawEvent)
    requires |e.stations| == 5
    ensures |ParseEvent(e).tvStations| <= 5
  {
  }

  /** A date without a time gives a midnight stamp and the time "00:00". */
  lemma DateOnly(e: RawEvent)
    requires IsTruthy(e.dateEvent) && !IsTruthy(e.strTime)
    ensures ParseEvent(e).start.utc == Some(e.dateEvent.value + "T00:00:00Z")
    ensures ParseEvent(e).start.time == "00:00"
  {
  }

  // ------------------------------------------------------------ dates

  predicate IsLeap(y: int)
  {
    y % 4 == 0 && (y % 100 != 0 || y % 400 == 0)
  }

  function DaysInMonth(y: int, m: int): (r: nat)
    requires 1 <= m <= 12
    ensures 28 <= r <= 31
  {
    if m == 2 then (if IsLeap(y) then 29 else 28)
    else if m == 4 || m == 6 || m == 9 || m == 11 then 30
    else 31
  }

  /** Days of the year before the first of month `m`. */
  function DaysBeforeMonth(y: int, m: int): (r: nat)
    requires 1 <= m <= 12
    ensures r <= 31 * (m - 1)
    decreases m
  {
    if m == 1 then 0 else DaysBeforeMonth(y, m - 1) + DaysInMonth(y, m - 1)
  }

  /** The ordinal of `y-m-d`: day 1 is 0001-01-01 (`date.toordinal`). */
  function DayNumber(y: nat, m: nat, d: nat): int
    requires 1 <= y && 1 <= m <= 12
  {
    var p := y - 1;
    365 * p + p / 4 - p / 100 + p / 400 + DaysBeforeMonth(y, m) + d
  }

  /**
   * `strptime(s, "%Y-%m-%d")` on the zero-padded form: four digits, `-`,
   * two digits, `-`, two digits, naming a real calendar day.
   */
  function ParseDate(s: string): (r: Option<int>)
    ensures r.Some? ==> |s| == 10 && s[4] == '-' && s[7] == '-'
  {
    if |s| == 10 && s[4] == '-' && s[7] == '-' && AllDigits(s[..4]) && AllDigits(s[5..7]) && AllDigits(s[8..]) then
      var y, m, d := DigitsValue(s[..4]), DigitsValue(s[5..7]), DigitsValue(s[8..]);
      if 1 <= y && 1 <= m <= 12 && 1 <= d <= DaysInMonth(y, m) then Some(DayNumber(y, m, d)) else None
    else None
  }

  /** The current time: a day ordinal and the seconds since midnight. */
  datatype Now = Now(day: int, seconds: nat)

  /**
   * `now <= event_date <= now + days`, where the event's date is at
   * midnight: on the current day it is only reached when the clock reads
   * exactly midnight.
   */
  predicate InWindow(now: Now, day: int, days: nat)
  {
    (now.day < day || (now.day == day && now.seconds == 0)) && day <= now.day + days
  }

  /** Whether an event is kept: its date is present, parses, and lies in the window. */
  predicate Upcoming(e: Event, now: Now, days: nat)
  {
    e.start.date != [] && ParseDate(e.start.date).Some? && InWindow(now, ParseDate(e.start.date).value, days)
  }

  function Filter(events: seq<Event>, now: Now, days: nat): (r: seq<Event>)
    ensures |r| <= |events|
    ensures forall k :: 0 <= k < |r| ==> Upcoming(r[k], now, days) && r[k] in events
  {
    if events == [] then []
    else
      var init := Filter(events[..|events| - 1], now, days);
      var e := events[|events| - 1];
      assert forall x :: x in events[..|events| - 1] ==> x in events;
      if Upcoming(e, now, days) then init + [e] else init
  }

  /** Every upcoming event is kept. */
  lemma {:induction false} FilterKeeps(events: seq<Event>, now: Now, days: nat, i: nat)
    requires i < |events| && Upcoming(events[i], now, days)
    ensures events[i] in Filter(events, now, days)
  {
    if i < |events| - 1 {
      FilterKeeps(events[..|events| - 1], now, days, i);
    }
  }

  /** `filter_upcoming_events`: the loop appending the events in the window. */
  method FilterUpcomingEvents(events: seq<Event>, now: Now, days: nat) returns (filtered: seq<Event>)
    ensures filtered == Filter(events, now, days)
  {
    filtered := [];
    for i := 0 to |events|
      invariant filtered == Filter(events[..i], now, days)
    {
      assert events[..i + 1][..i] == events[..i];
      var e := events[i];
      if e.start.date != [] {
        var d := ParseDate(e.start.date);
        if d.Some? && InWindow(now, d.value, days) {
          filtered := filtered + [e];
        }
      }
    }
    assert events[..|events|] == events;
  }

  /** An event dated today is dropped unless the clock reads midnight. */
  lemma TodayDropped(e: Event, now: Now, days: nat)
    requires ParseDate(e.start.date) == Some(now.day) && now.seconds > 0
    ensures !Upcoming(e, now, days)
  {
  }

  /** An event dated tomorrow, or on the last day of the window, is kept. */
  lemma WindowEdges(e: Event, now: Now, days: nat)
    requires days > 0
    requires ParseDate(e.start.date) == Some(now.day + 1) || ParseDate(e.start.date) == Some(now.day + days)
    ensures Upcoming(e, now, days)
  {
  }

  // ------------------------------------------------------------ leagues

  /**
   * The reply for one league: a failed fetch (an empty dictionary), a
   * dictionary without `events`, or the `events` value (`None` is `null`).
   */
  datatype Payload = Failed | NoEvents | Events(events: Option<seq<RawEvent>>)

  /** `fetch_league_events`: the events, or `[]` without a non-empty list. */
  function LeagueEvents(p: Payload): (r: seq<RawEvent>)
    ensures r != [] <==> p.Events? && p.events.Some? && p.events.value != []
    ensures r != [] ==> r == p.events.value
  {
    match p
      case Events(Some(es)) => es
      case _ => []
  }

  /** One league of the output file. */
  datatype LeagueData = LeagueData(leagueId: string, slug: string, name: string, sport: string, events: seq<Event>)

  function ParseAll(raw: seq<RawEvent>): (r: seq<Event>)
    ensures |r| == |raw|
    ensures forall k :: 0 <= k < |r| ==> r[k] == ParseEvent(raw[k])
  {
    if raw == [] then [] else ParseAll(raw[..|raw| - 1]) + [ParseEvent(raw[|raw| - 1])]
  }

  /** The output entry of one league, or `None` when it has no raw or no upcoming events. */
  function LeagueEntry(league: League, p: Payload, now: Now): (r: Option<LeagueData>)
    ensures r.Some? ==> r.value.events != [] && r.value.leagueId == league.id && r.value.name == league.name
    ensures r.None? <==> LeagueEvents(p) == [] || Filter(ParseAll(LeagueEvents(p)), now, DaysAhead) == []
  {
    var raw := LeagueEvents(p);
    if raw == [] then None
    else
      var upcoming := Filter(ParseAll(raw), now, DaysAhead);
      if upcoming == [] then None
      else Some(LeagueData(league.id, league.slug, league.name, league.sport, upcoming))
  }

  /** The leagues with upcoming events, in table order. */
  function AllLeagues(leagues: seq<League>, payloads: seq<Payload>, now: Now): (r: seq<LeagueData>)
    requires |payloads| == |leagues|
    ensures |r| <= |leagues|
    ensures forall k :: 0 <= k < |r| ==> r[k].events != []
  {
    if leagues == [] then []
    else
      var n := |leagues| - 1;
      var init := AllLeagues(leagues[..n], payloads[..n], now);
      match LeagueEntry(leagues[n], payloads[n], now)
        case None => init
        case Some(d) => init + [d]
  }

  /** `fetch_all_events`: the loop over the league table, with the replies as a parameter. */
  method FetchAllEvents(leagues: seq<League>, payloads: seq<Payload>, now: Now) returns (data: seq<LeagueData>)
    requires |payloads| == |leagues|
    ensures data == AllLeagues(leagues, payloads, now)
  {
    data := [];
    for i := 0 to |leagues|
      invariant data == AllLeagues(leagues[..i], payloads[..i], now)
    {
      assert leagues[..i + 1][..i] == leagues[..i] && payloads[..i + 1][..i] == payloads[..i];
      var raw := LeagueEvents(payloads[i]);
      if raw != [] {
        var parsed := ParseAll(raw);
        var upcoming := FilterUpcomingEvents(parsed, now, DaysAhead);
        if upcoming != [] {
          data := data + [LeagueData(leagues[i].id, leagues[i].slug, leagues[i].name, leagues[i].sport, upcoming)];
        }
      }
    }
    assert leagues[..|leagues|] == leagues && payloads[..|payloads|] == payloads;
  }

  /** A league whose fetch fails is left out of the output. */
  lemma {:induction false} FailedLeagueOmitted(leagues: seq<League>, payloads: seq<Payload>, now: Now)
    requires |payloads| == |leagues| && forall k :: 0 <= k < |payloads| ==> payloads[k] == Failed
    ensures AllLeagues(leagues, payloads, now) == []
  {
    if leagues != [] {
      var n := |leagues| - 1;
      FailedLeagueOmitted(leagues[..n], payloads[..n], now);
    }
  }

  /** `main`'s exit status before saving: 1 when no league has upcoming events. */
  function ExitCode(leagues: seq<LeagueData>): (r: int)
    ensures r == 1 <==> leagues == []
    ensures r == 0 || r == 1
  {
    if leagues == [] then 1 else 0
  }

  /** A run in which every fetch fails exits with status 1. */
  lemma AllFailedExitsOne(payloads: seq<Payload>, now: Now)
    requires |payloads| == |LeaguesConfig| && forall k :: 0 <= k < |payloads| ==> payloads[k] == Failed
    ensures ExitCode(AllLeagues(LeaguesConfig, payloads, now)) == 1
  {
    FailedLeagueOmitted(LeaguesConfig, payloads, now);
  }
}

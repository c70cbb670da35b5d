/**
 * The EPG page: which channels the category buttons and the search box
 * leave visible, how many rows are drawn at once and how "load more"
 * releases the rest, the time-window controls, the timeline slots, the
 * "HH:MM - HH:MM" programme times and the live/upcoming counters.
 * Times are local milliseconds (the time-zone offset already applied).
 */
module EpgViewer {
  import opened Wrappers
  import opened Strings
  import opened Sequences
  import opened EpgParser

  const AllCategories: string := "all"
  const DayMs: int := 86400000
  const HoursToShow: nat := 6
  const SlotMs: int := 1800000       // `timeSlotDuration`, 30 minutes
  const LoadMoreBatch: nat := 50

  // ---------------------------------------------------------------- filtering

  function CategoryIs(category: string): Channel -> bool
  {
    (ch: Channel) => ch.category == category
  }

  /** A programme's title or description (when present) contains the query, ignoring case. */
  predicate ProgrammeMentions(p: Programme, query: string)
  {
    (p.title != [] && Contains(Lower(p.title), query)) || (p.desc != [] && Contains(Lower(p.desc), query))
  }

  /** The search test of `filterChannels`: the name, or a programme of the next 24 hours, mentions the query. */
  function SearchHit(programmes: seq<Programme>, query: string, now: int): Channel -> bool
  {
    (ch: Channel) =>
      Contains(Lower(ch.displayName), query) ||
      var upcoming := ProgrammesForChannel(programmes, ch.id, now, now + DayMs);
      exists i :: 0 <= i < |upcoming| && ProgrammeMentions(upcoming[i], query)
  }

  /** `filterChannels`: the category filter (unless "all"), then the search filter (unless the query is empty). */
  function FilterChannels(channels: seq<Channel>, programmes: seq<Programme>, category: string, query: string, now: int): (r: seq<Channel>)
    ensures |r| <= |channels|
  {
    var byCategory := if category != AllCategories then Filter(channels, CategoryIs(category)) else channels;
    if query != [] then Filter(byCategory, SearchHit(programmes, query, now)) else byCategory
  }

  /**
   * A channel is visible iff it passes the category button and, with a
   * query, its lower-cased name contains the query or one of its stored
   * programmes starting within the next 24 hours mentions it.
   */
  lemma FilterChannelsMembers(channels: seq<Channel>, programmes: seq<Programme>, category: string, query: string, now: int, ch: Channel)
    ensures ch in FilterChannels(channels, programmes, category, query, now) <==>
      ch in channels && (category == AllCategories || ch.category == category) &&
      (query == [] || Contains(Lower(ch.displayName), query) ||
       exists p :: p in programmes && p.channel == ch.id && now <= p.start < now + DayMs && ProgrammeMentions(p, query))
  {
    var byCategory := if category != AllCategories then Filter(channels, CategoryIs(category)) else channels;
    if category != AllCategories {
      FilterMembers(channels, CategoryIs(category), ch);
    }
    if query != [] {
      FilterMembers(byCategory, SearchHit(programmes, query, now), ch);
      SearchHitIff(programmes, query, now, ch);
    }
  }

  /** The search test in terms of the stored programmes. */
  lemma SearchHitIff(programmes: seq<Programme>, query: string, now: int, ch: Channel)
    ensures SearchHit(programmes, query, now)(ch) <==>
      Contains(Lower(ch.displayName), query) ||
      exists p :: p in programmes && p.channel == ch.id && now <= p.start < now + DayMs && ProgrammeMentions(p, query)
  {
    var upcoming := ProgrammesForChannel(programmes, ch.id, now, now + DayMs);
    if exists i :: 0 <= i < |upcoming| && ProgrammeMentions(upcoming[i], query) {
      var i :| 0 <= i < |upcoming| && ProgrammeMentions(upcoming[i], query);
      UpcomingFromGuide(programmes, ch.id, now, upcoming[i]);
    }
    if exists p :: p in programmes && p.channel == ch.id && now <= p.start < now + DayMs && ProgrammeMentions(p, query) {
      var p :| p in programmes && p.channel == ch.id && now <= p.start < now + DayMs && ProgrammeMentions(p, query);
      UpcomingFromGuide(programmes, ch.id, now, p);
      var i :| 0 <= i < |upcoming| && upcoming[i] == p;
    }
  }

  /** The range query of the next 24 hours, one programme at a time. */
  lemma UpcomingFromGuide(programmes: seq<Programme>, id: string, now: int, p: Programme)
    ensures p in ProgrammesForChannel(programmes, id, now, now + DayMs) <==>
      p in programmes && p.channel == id && now <= p.start < now + DayMs
  {
    ProgrammesForChannelCorrect(programmes, id, now, now + DayMs, p);
  }

  /** The filter works piecewise, so visible channels keep the guide's order. */
  lemma FilterChannelsAppend(a: seq<Channel>, b: seq<Channel>, programmes: seq<Programme>, category: string, query: string, now: int)
    ensures FilterChannels(a + b, programmes, category, query, now) ==
      FilterChannels(a, programmes, category, query, now) + FilterChannels(b, programmes, category, query, now)
  {
    if category != AllCategories {
      FilterAppend(a, b, CategoryIs(category));
    }
    var ca := if category != AllCategories then Filter(a, CategoryIs(category)) else a;
    var cb := if category != AllCategories then Filter(b, CategoryIs(category)) else b;
    if query != [] {
      FilterAppend(ca, cb, SearchHit(programmes, query, now));
    }
  }

  /** With "all" and an empty search box, every channel is shown. */
  lemma FilterChannelsNone(channels: seq<Channel>, programmes: seq<Programme>, now: int)
    ensures FilterChannels(channels, programmes, AllCategories, [], now) == channels
  {
  }

  // ---------------------------------------------------------------- batches

  /** What `renderEPG` draws: the empty state, or the first rows and the ones held back for "load more". */
  datatype Plan = EmptyState | Rows(shown: seq<Channel>, deferred: seq<Channel>)

  /** `renderEPG`'s split; a missing or zero `maxChannelsToRender` draws every channel. */
  function RenderPlan(filtered: seq<Channel>, maxChannelsToRender: Option<nat>): (r: Plan)
    ensures r == EmptyState <==> filtered == []
    ensures r.Rows? ==> r.shown + r.deferred == filtered && r.shown != []
    ensures r.Rows? && maxChannelsToRender.Some? && maxChannelsToRender.value > 0 ==>
      |r.shown| == if |filtered| < maxChannelsToRender.value then |filtered| else maxChannelsToRender.value
    ensures r.Rows? && (maxChannelsToRender == None || maxChannelsToRender == Some(0)) ==> r.deferred == []
  {
    if filtered == [] then EmptyState
    else
      var limit := if maxChannelsToRender.Some? && maxChannelsToRender.value > 0 then maxChannelsToRender.value else |filtered|;
      var n := if limit < |filtered| then limit else |filtered|;
      Rows(filtered[..n], filtered[n..])
  }

  /** The next "load more" batch: up to fifty channels from the front. */
  function BatchSize(remaining: seq<Channel>): (n: nat)
    ensures n <= |remaining| && n <= LoadMoreBatch
    ensures n == |remaining| || n == LoadMoreBatch
  {
    if |remaining| < LoadMoreBatch then |remaining| else LoadMoreBatch
  }

  /** What is still held back after `clicks` presses of "load more". */
  function AfterClicks(remaining: seq<Channel>, clicks: nat): seq<Channel>
  {
    if clicks == 0 || remaining == [] then remaining
    else AfterClicks(remaining[BatchSize(remaining)..], clicks - 1)
  }

  /** `ceil(n / 50)`. */
  function ClicksNeeded(n: nat): nat
  {
    (n + LoadMoreBatch - 1) / LoadMoreBatch
  }

  /** The button is offered exactly `ceil(n / 50)` times: every earlier press leaves channels behind, that press releases the last. */
  lemma {:induction false} LoadMoreDrains(remaining: seq<Channel>, clicks: nat)
    ensures AfterClicks(remaining, clicks) == [] <==> clicks >= ClicksNeeded(|remaining|)
    decreases clicks
  {
    if clicks != 0 && remaining != [] {
      LoadMoreDrains(remaining[BatchSize(remaining)..], clicks - 1);
    }
  }

  /** The rows already drawn and those still held back after the initial render. */
  class LoadMore {
    var rendered: seq<Channel>
    var remaining: seq<Channel>

    constructor(shown: seq<Channel>, deferred: seq<Channel>)
      ensures rendered == shown && remaining == deferred
    {
      rendered := shown;
      remaining := deferred;
    }

    /**
     * One press: `remainingChannels.splice(0, 50)` is drawn after the rows
     * already there, and the button returns iff channels remain.
     */
    method Click() returns (buttonAgain: bool)
      modifies this
      ensures rendered + remaining == old(rendered + remaining)
      ensures rendered == old(rendered) + old(remaining)[..BatchSize(old(remaining))]
      ensures remaining == old(remaining)[BatchSize(old(remaining))..]
      ensures buttonAgain <==> remaining != []
    {
      var n := BatchSize(remaining);
      var batch := remaining[..n];
      remaining := remaining[n..];
      rendered := rendered + batch;
      buttonAgain := remaining != [];
    }
  }

  // ---------------------------------------------------------------- time controls

  /**
   * `parseInt(value)` with no radix: leading blanks, an optional sign, then
   * either `0x`/`0X` and the hexadecimal digits after it, or the decimal
   * digits up to the first other character; NaN as `None`.
   */
  function ParseInt(s: string): Option<int>
  {
    ParseSigned(TrimStart(s))
  }

  /** A body that starts with `0x` or `0X` is read in base sixteen. */
  predicate HexPrefixed(body: string)
  {
    |body| >= 2 && body[0] == '0' && (body[1] == 'x' || body[1] == 'X')
  }

  /** The sign, then the number its body spells. */
  function ParseSigned(t: string): Option<int>
  {
    var body := if t != [] && (t[0] == '-' || t[0] == '+') then t[1..] else t;
    var magnitude := Magnitude(body);
    if magnitude.None? then None
    else if t[0] == '-' then Some(-(magnitude.value as int))
    else Some(magnitude.value as int)
  }

  /** The digits of the base the prefix chooses, up to the first other character; none without a digit. */
  function Magnitude(body: string): Option<nat>
  {
    if HexPrefixed(body) then
      var hex := LeadingHexDigits(body[2..]);
      if hex == [] then None else Some(HexValue(hex))
    else
      var digits := LeadingDigits(body);
      if digits == [] then None else Some(DigitsValue(digits))
  }

  /** Text that starts with something other than a blank is not trimmed. */
  lemma NotTrimmed(s: string)
    requires s != [] && !IsSpace(s[0])
    ensures TrimStart(s) == s
  {
  }

  /** A written number followed by anything that is not a digit reads back as that number. */
  lemma ParseIntReadsNumber(n: nat, rest: string)
    requires rest == [] || !IsDigit(rest[0])
    requires n == 0 ==> rest == [] || (rest[0] != 'x' && rest[0] != 'X')
    ensures ParseInt(NatToString(n) + rest) == Some(n)
  {
    var d := NatToString(n);
    var t := d + rest;
    assert t[0] == d[0];
    NotTrimmed(t);
    LeadingDigitsOf(d, rest);
    DigitsRoundTrip(n);
    NotHexPrefixed(n, rest);
    UnsignedDigits(t, d);
  }

  /** Written digits never start a `0x` prefix unless the number is 0 and an `x` follows. */
  lemma NotHexPrefixed(n: nat, rest: string)
    requires rest == [] || !IsDigit(rest[0])
    requires n == 0 ==> rest == [] || (rest[0] != 'x' && rest[0] != 'X')
    ensures !HexPrefixed(NatToString(n) + rest)
  {
    var d := NatToString(n);
    DigitsRoundTrip(n);
    assert |d| == 1 ==> DigitsValue(d) == d[0] as int - '0' as int;
  }

  /** Digits with no sign in front read as their value. */
  lemma UnsignedDigits(t: string, d: string)
    requires t != [] && IsDigit(t[0]) && !HexPrefixed(t) && d != [] && LeadingDigits(t) == d
    ensures ParseSigned(t) == Some(DigitsValue(d) as int)
  {
  }

  /** The same behind a minus sign reads back as the negative number. */
  lemma ParseIntReadsNegative(n: nat, rest: string)
    requires rest == [] || !IsDigit(rest[0])
    requires n == 0 ==> rest == [] || (rest[0] != 'x' && rest[0] != 'X')
    ensures ParseInt("-" + NatToString(n) + rest) == Some(-(n as int))
  {
    var d := NatToString(n);
    var s := "-" + d + rest;
    NotTrimmed(s);
    NotHexPrefixed(n, rest);
    NegativeDigits(d, rest);
    DigitsRoundTrip(n);
  }

  lemma NegativeDigits(d: string, rest: string)
    requires d != [] && AllDigits(d) && (rest == [] || !IsDigit(rest[0])) && !HexPrefixed(d + rest)
    ensures ParseSigned("-" + d + rest) == Some(-(DigitsValue(d) as int))
  {
    var s := "-" + d + rest;
    assert s[1..] == d + rest;
    assert LeadingDigits(s[1..]) == d by {
      assert s[1..] == d + rest;
      LeadingDigitsOf(d, rest);
    }
    MinusSign(s, d);
  }

  /** A minus sign negates the digits that follow it. */
  lemma MinusSign(t: string, d: string)
    requires t != [] && t[0] == '-' && !HexPrefixed(t[1..]) && d != [] && LeadingDigits(t[1..]) == d
    ensures ParseSigned(t) == Some(-(DigitsValue(d) as int))
  {
  }

  /** A text without digits is NaN. */
  lemma ParseIntNoDigits(s: string)
    requires forall i :: 0 <= i < |s| ==> !IsDigit(s[i])
    ensures ParseInt(s) == None
  {
    var t := TrimStart(s);
    forall i | 0 <= i < |t|
      ensures !IsDigit(t[i])
    {
      assert t[i] == s[|s| - |t| + i];
    }
    SignedNoDigits(t);
  }

  lemma SignedNoDigits(t: string)
    requires forall i :: 0 <= i < |t| ==> !IsDigit(t[i])
    ensures ParseSigned(t) == None
  {
    var body := if t != [] && (t[0] == '-' || t[0] == '+') then t[1..] else t;
    assert body == [] || !IsDigit(body[0]) by {
      if body != [] { assert body[0] == t[|t| - |body|]; }
    }
    assert LeadingDigits(body) == [];
  }

  /** `0x` (or `0X`) and hexadecimal digits read as their value in base sixteen. */
  lemma ParseIntReadsHex(x: char, h: string, rest: string)
    requires x == 'x' || x == 'X'
    requires h != [] && AllHexDigits(h)
    requires rest == [] || !IsHexDigit(rest[0])
    ensures ParseInt(['0', x] + h + rest) == Some(HexValue(h) as int)
  {
    var t := ['0', x] + h + rest;
    HexBody(t, x, h, rest);
    assert t[0] == '0';
    NotTrimmed(t);
    SignedHex(t, HexValue(h));
  }

  /** The same behind a minus sign reads as the negated value. */
  lemma ParseIntReadsNegativeHex(x: char, h: string, rest: string, t: string, v: nat)
    requires x == 'x' || x == 'X'
    requires h != [] && AllHexDigits(h)
    requires rest == [] || !IsHexDigit(rest[0])
    requires t == ['0', x] + h + rest && v == HexValue(h)
    ensures ParseInt("-" + t) == Some(-(v as int))
  {
    HexBody(t, x, h, rest);
    NegatedHex(t, v);
  }

  /** A minus sign in front of a hexadecimal body negates its value. */
  lemma NegatedHex(t: string, v: nat)
    requires HexPrefixed(t) && LeadingHexDigits(t[2..]) != [] && HexValue(LeadingHexDigits(t[2..])) == v
    ensures ParseInt("-" + t) == Some(-(v as int))
  {
    var u := "-" + t;
    assert u[0] == '-' && u[1..] == t;
    NotTrimmed(u);
    SignedHex(u, v);
  }

  /** A minus sign in front of a text that starts with a digit negates what it reads as. */
  lemma MinusNegates(t: string)
    requires t != [] && IsDigit(t[0])
    ensures ParseInt(t).None? ==> ParseInt("-" + t).None?
    ensures ParseInt(t).Some? ==> ParseInt("-" + t) == Some(-ParseInt(t).value)
  {
    var u := "-" + t;
    SignedForms(u, t);
    SignedMinus(u, t);
  }

  /** Neither text starts with a blank, so `parseInt` reads each through its sign. */
  lemma SignedForms(u: string, t: string)
    requires t != [] && IsDigit(t[0]) && u == "-" + t
    ensures u[0] == '-' && u[1..] == t
    ensures ParseInt(u) == ParseSigned(u) && ParseInt(t) == ParseSigned(t)
  {
    assert u[0] == '-';
    NotTrimmed(u);
    NotTrimmed(t);
  }

  /** Behind a minus sign the body's number is negated; without a sign it is taken as it is. */
  lemma SignedMinus(u: string, t: string)
    requires t != [] && IsDigit(t[0]) && u != [] && u[0] == '-' && u[1..] == t
    ensures ParseSigned(u) == if Magnitude(t).None? then None else Some(-(Magnitude(t).value as int))
    ensures ParseSigned(t) == if Magnitude(t).None? then None else Some(Magnitude(t).value as int)
  {
  }

  /** The body `0x` + digits + rest has those digits as its leading hexadecimal digits. */
  lemma HexBody(t: string, x: char, h: string, rest: string)
    requires x == 'x' || x == 'X'
    requires h != [] && AllHexDigits(h)
    requires rest == [] || !IsHexDigit(rest[0])
    requires t == ['0', x] + h + rest
    ensures HexPrefixed(t) && LeadingHexDigits(t[2..]) == h
  {
    assert t[2..] == h + rest;
    LeadingHexDigitsOf(h, rest);
  }

  /** A hexadecimal body reads as its value, negated behind a minus sign. */
  lemma SignedHex(t: string, v: nat)
    requires t != []
    requires var body := if t[0] == '-' then t[1..] else t;
      HexPrefixed(body) && LeadingHexDigits(body[2..]) != [] && HexValue(LeadingHexDigits(body[2..])) == v
    ensures ParseSigned(t) == Some(if t[0] == '-' then -(v as int) else v as int)
  {
  }

  /** `0x` with no hexadecimal digit after it is NaN, even where decimal reading would give 0. */
  lemma ParseIntBareHexPrefix(x: char, rest: string)
    requires x == 'x' || x == 'X'
    requires rest == [] || !IsHexDigit(rest[0])
    ensures ParseInt(['0', x] + rest) == None
  {
    var t := ['0', x] + rest;
    assert t[2..] == rest;
    NotTrimmed(t);
  }

  const PrimeTimeHour: int := 20

  /** The first hour shown: now plus the offset, rounded down to the hour (`setMinutes(0, 0, 0)`). */
  function WindowStart(now: int, offsetHours: int): (r: int)
  {
    ((now + offsetHours * HourMs) / HourMs) * HourMs
  }

  /** The window starts on a whole hour no later than the shifted now, less than an hour before it, and spans six hours. */
  lemma WindowBounds(now: int, offsetHours: int)
    ensures WindowStart(now, offsetHours) % HourMs == 0
    ensures WindowStart(now, offsetHours) <= now + offsetHours * HourMs < WindowStart(now, offsetHours) + HourMs
  {
    var t := now + offsetHours * HourMs;
    assert t == (t / HourMs) * HourMs + t % HourMs;
  }

  // ---------------------------------------------------------------- clock text

  /** `HH:MM` of a local time, each part zero-padded. */
  function ClockLabel(t: int): (r: string)
    ensures |r| == 5 && r[2] == ':'
  {
    ClockText((t / HourMs) % 24, (t / MinuteMs) % 60)
  }

  /** An hour and a minute written as `HH:MM`. */
  function ClockText(hours: nat, minutes: nat): (r: string)
    requires hours < 100 && minutes < 100
    ensures |r| == 5 && r[2] == ':'
  {
    TwoDigits(hours);
    TwoDigits(minutes);
    Pad2(NatToString(hours)) + ":" + Pad2(NatToString(minutes))
  }

  /** The two parts of a clock text read back as the hour and the minute. */
  lemma ClockTextReadsBack(hours: nat, minutes: nat)
    requires hours < 100 && minutes < 100
    ensures AllDigits(ClockText(hours, minutes)[..2]) && DigitsValue(ClockText(hours, minutes)[..2]) == hours
    ensures AllDigits(ClockText(hours, minutes)[3..]) && DigitsValue(ClockText(hours, minutes)[3..]) == minutes
  {
    TwoDigits(hours);
    TwoDigits(minutes);
    PaddedValue(hours);
    PaddedValue(minutes);
    var r := ClockText(hours, minutes);
    assert r[..2] == Pad2(NatToString(hours));
    assert r[3..] == Pad2(NatToString(minutes));
  }

  /** The two parts of a clock label read back as the hour of the day and the minute of the hour. */
  lemma ClockLabelReadsBack(t: int)
    ensures AllDigits(ClockLabel(t)[..2]) && DigitsValue(ClockLabel(t)[..2]) == (t / HourMs) % 24
    ensures AllDigits(ClockLabel(t)[3..]) && DigitsValue(ClockLabel(t)[3..]) == (t / MinuteMs) % 60
  {
    ClockTextReadsBack((t / HourMs) % 24, (t / MinuteMs) % 60);
  }

  /** `formatProgrammeTime`: `HH:MM - HH:MM` from the start and stop times. */
  function FormatProgrammeTime(p: Programme): (r: string)
    ensures |r| == 13
    ensures r[..5] == ClockLabel(p.start) && r[5..8] == " - " && r[8..] == ClockLabel(p.stop)
  {
    ClockLabel(p.start) + " - " + ClockLabel(p.stop)
  }

  // ---------------------------------------------------------------- timeline header

  /** One header cell: its time and whether it holds the current moment; its label is `Text()`. */
  datatype Slot = Slot(time: int, current: bool)
  {
    /** The cell's text, the `HH:MM` of its time. */
    function Text(): (r: string)
      ensures |r| == 5 && r[2] == ':'
    {
      ClockLabel(time)
    }
  }

  /** The cell at time `t`: current when `t` is at most the current moment and `t` plus half an hour is after it. */
  function SlotFor(t: int, now: int): Slot
  {
    Slot(t, t <= now < t + SlotMs)
  }

  /** How many half-hour steps from `time` stay before `end`. */
  function SlotCount(time: int, end: int): nat
    decreases end - time
  {
    if time >= end then 0 else 1 + SlotCount(time + SlotMs, end)
  }

  /** The cells from `time` on, one every half hour while before `end`. */
  function Timeline(time: int, end: int, now: int): seq<Slot>
    decreases end - time
  {
    if time >= end then [] else [SlotFor(time, now)] + Timeline(time + SlotMs, end, now)
  }

  /** The `k`-th cell of a timeline is the cell at `k` half hours after its start, and that is before the end. */
  predicate CellAt(slots: seq<Slot>, k: int, start: int, end: int, now: int)
    requires 0 <= k < |slots|
  {
    slots[k].time == start + k * SlotMs && slots[k].time < end && slots[k] == SlotFor(slots[k].time, now)
  }

  /** The timeline from `time` has one cell per half-hour step, each at its own step. */
  lemma {:induction false} TimelineCells(time: int, end: int, now: int)
    ensures |Timeline(time, end, now)| == SlotCount(time, end)
    ensures forall k :: 0 <= k < |Timeline(time, end, now)| ==> CellAt(Timeline(time, end, now), k, time, end, now)
    decreases end - time
  {
    if time < end {
      TimelineCells(time + SlotMs, end, now);
      var rest := Timeline(time + SlotMs, end, now);
      var all := Timeline(time, end, now);
      forall k | 0 <= k < |all|
        ensures CellAt(all, k, time, end, now)
      {
        if k > 0 {
          assert all[k] == rest[k - 1];
          assert CellAt(rest, k - 1, time + SlotMs, end, now);
          assert time + SlotMs + (k - 1) * SlotMs == time + k * SlotMs;
        }
      }
    }
  }

  /** `renderTimelineHeader`'s loop: a cell every half hour from the window's start while before its end. */
  method TimelineSlots(start: int, end: int, now: int) returns (slots: seq<Slot>)
    ensures slots == Timeline(start, end, now)
  {
    slots := [];
    var time := start;
    while time < end
      invariant slots + Timeline(time, end, now) == Timeline(start, end, now)
      decreases end - time
    {
      var current := time <= now && time + SlotMs > now;
      var slot := Slot(time, current);
      TimelineStep(slots, time, end, now);
      slots := slots + [slot];
      time := time + SlotMs;
    }
    assert Timeline(time, end, now) == [];
  }

  lemma TimelineStep(slots: seq<Slot>, time: int, end: int, now: int)
    requires time < end
    ensures slots + [SlotFor(time, now)] + Timeline(time + SlotMs, end, now) == slots + Timeline(time, end, now)
  {
    var rest := Timeline(time + SlotMs, end, now);
    assert Timeline(time, end, now) == [SlotFor(time, now)] + rest;
    assert slots + [SlotFor(time, now)] + rest == slots + ([SlotFor(time, now)] + rest);
  }

  /** A six-hour window has twelve cells. */
  lemma {:induction false} SlotCountSteps(time: int, n: nat)
    ensures SlotCount(time, time + n * SlotMs) == n
    decreases n
  {
    if n > 0 {
      SlotCountSteps(time + SlotMs, n - 1);
      assert time + SlotMs + (n - 1) * SlotMs == time + n * SlotMs;
    }
  }

  lemma {:induction false} SlotCountCovers(time: int, end: int, k: nat)
    requires time + k * SlotMs < end
    ensures k < SlotCount(time, end)
    decreases k
  {
    if k > 0 {
      assert time + SlotMs + (k - 1) * SlotMs == time + k * SlotMs;
      SlotCountCovers(time + SlotMs, end, k - 1);
    }
  }

  /** At most one cell is marked current, and when the current moment lies in the window exactly one is. */
  lemma OneCurrentSlot(start: int, end: int, now: int)
    ensures forall j, k :: 0 <= j < k < |Timeline(start, end, now)| ==>
      !(Timeline(start, end, now)[j].current && Timeline(start, end, now)[k].current)
    ensures start <= now < end ==> exists k :: 0 <= k < |Timeline(start, end, now)| && Timeline(start, end, now)[k].current
  {
    var slots := Timeline(start, end, now);
    TimelineCells(start, end, now);
    forall j, k | 0 <= j < k < |slots|
      ensures !(slots[j].current && slots[k].current)
    {
      assert CellAt(slots, j, start, end, now) && CellAt(slots, k, start, end, now);
      assert (k - j) * SlotMs >= SlotMs;
    }
    if start <= now < end {
      var k := (now - start) / SlotMs;
      assert now - start == k * SlotMs + (now - start) % SlotMs;
      SlotCountCovers(start, end, k);
      assert CellAt(slots, k, start, end, now);
    }
  }

  // ---------------------------------------------------------------- stats

  function IsLive(now: int): Programme -> bool
  {
    (p: Programme) => p.start <= now < p.stop
  }

  function IsUpcoming(now: int): Programme -> bool
  {
    (p: Programme) => now < p.start < now + HourMs
  }

  /** `updateStats`' live count: programmes with `start <= now < stop`. */
  function LiveCount(programmes: seq<Programme>, now: int): nat
  {
    |Filter(programmes, IsLive(now))|
  }

  /** `updateStats`' upcoming count: programmes starting within the next hour. */
  function UpcomingCount(programmes: seq<Programme>, now: int): nat
  {
    |Filter(programmes, IsUpcoming(now))|
  }

  /** No programme is counted as both live and upcoming, so the two counters never exceed the guide. */
  lemma StatsDisjoint(programmes: seq<Programme>, now: int)
    ensures LiveCount(programmes, now) + UpcomingCount(programmes, now) <= |programmes|
  {
    DisjointFilters(programmes, IsLive(now), IsUpcoming(now));
  }

  /** The counters count exactly the programmes with those times. */
  lemma StatsMembers(programmes: seq<Programme>, now: int, p: Programme)
    ensures p in Filter(programmes, IsLive(now)) <==> p in programmes && p.start <= now < p.stop
    ensures p in Filter(programmes, IsUpcoming(now)) <==> p in programmes && now < p.start < now + HourMs
  {
    FilterMembers(programmes, IsLive(now), p);
    FilterMembers(programmes, IsUpcoming(now), p);
  }

  // ---------------------------------------------------------------- the viewer

  /** The `EPGViewer` fields the controls change; an offset of `None` is the `NaN` a non-numeric jump leaves. */
  class Viewer {
    var channels: seq<Channel>
    var programmes: seq<Programme>
    var currentCategory: string
    var searchQuery: string
    var currentTimeOffset: Option<int>

    constructor(channels: seq<Channel>, programmes: seq<Programme>)
      ensures this.channels == channels && this.programmes == programmes
      ensures currentCategory == AllCategories && searchQuery == [] && currentTimeOffset == Some(0)
    {
      this.channels := channels;
      this.programmes := programmes;
      currentCategory := AllCategories;
      searchQuery := [];
      currentTimeOffset := Some(0);
    }

    /** Typing in the search box: the query is stored lower-cased; the clear button shows while it is non-empty. */
    method Search(input: string) returns (clearVisible: bool)
      modifies this`searchQuery
      ensures searchQuery == Lower(input)
      ensures clearVisible <==> input != []
    {
      searchQuery := Lower(input);
      clearVisible := |searchQuery| > 0;
    }

    /** The clear button empties the query. */
    method ClearSearch()
      modifies this`searchQuery
      ensures searchQuery == []
    {
      searchQuery := [];
    }

    /** A category button. */
    method SelectCategory(category: string)
      modifies this`currentCategory
      ensures currentCategory == category
    {
      currentCategory := category;
    }

    /** The previous/next buttons move the window by one hour; a NaN offset stays NaN. */
    method ShiftTime(step: int)
      requires step == -1 || step == 1
      modifies this`currentTimeOffset
      ensures currentTimeOffset == if old(currentTimeOffset).Some? then Some(old(currentTimeOffset).value + step) else None
    {
      if currentTimeOffset.Some? {
        currentTimeOffset := Some(currentTimeOffset.value + step);
      }
    }

    /** The time-jump menu: "now" is offset 0, "primetime" the hours until 8 pm (never negative), anything else `parseInt`. */
    method TimeJump(value: string, currentHour: nat)
      modifies this`currentTimeOffset
      ensures value == "now" ==> currentTimeOffset == Some(0)
      ensures value == "primetime" ==> currentTimeOffset == Some(if currentHour <= 20 then 20 - currentHour else 0)
      ensures value != "now" && value != "primetime" ==> currentTimeOffset == ParseInt(value)
    {
      if value == "now" {
        currentTimeOffset := Some(0);
      } else if value == "primetime" {
        var hours := PrimeTimeHour - currentHour;
        currentTimeOffset := Some(if hours > 0 then hours else 0);
      } else {
        currentTimeOffset := ParseInt(value);
      }
    }

    /** `renderEPG`'s decision for the current controls. */
    method RenderEpg(now: int, maxChannelsToRender: Option<nat>) returns (plan: Plan)
      ensures plan == RenderPlan(FilterChannels(channels, programmes, currentCategory, searchQuery, now), maxChannelsToRender)
    {
      var filtered := FilterChannels(channels, programmes, currentCategory, searchQuery, now);
      plan := RenderPlan(filtered, maxChannelsToRender);
    }
  }
}

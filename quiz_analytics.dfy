/**
 * Quiz analytics: the current quiz session, a bounded event log and the
 * completion, abandonment and conversion records, with the summaries built
 * from them (most common abandonment point, top recommendations, per-variant
 * counts). Clock readings, the random session id and the random variant are
 * parameters; storage reads become constructor arguments.
 */
module QuizAnalytics {
  import opened Wrappers

  /** The event log keeps this many of the newest events. */
  const MaxEvents: nat := 500
  const TotalQuestions: nat := 5
  const DefaultVariant: string := "A"
  /** The keys of the `variants` table, in order. */
  const Variants: seq<string> := ["A", "B", "C"]
  /** At most this many recommendations are reported. */
  const TopCount: nat := 5

  /**
   * `sessionData`. `recommendation` is the recommended package's name (None
   * when there is none or it has no name); a start time of 0 or none reads
   * as "no question started".
   */
  datatype Session = Session(
    sessionId: string, variant: string, startTime: int, endTime: Option<int>,
    completed: bool, abandoned: bool, currentQuestion: int, totalQuestions: nat,
    answers: map<string, string>, questionTimes: map<string, int>, questionStart: Option<int>,
    recommendation: Option<string>, converted: bool,
    abandonedAt: Option<nat>, abandonReason: Option<string>,
    conversionPackage: Option<string>, conversionPlatform: Option<string>, conversionTime: Option<int>)

  /** An entry of the event log; the event's data object is not modelled. */
  datatype Event = Event(name: string, timestamp: int, sessionId: Option<string>, variant: Option<string>)

  datatype Completion = Completion(
    sessionId: string, variant: string, startTime: int, endTime: int, duration: int,
    answers: map<string, string>, questionTimes: map<string, int>, recommendation: Option<string>, converted: bool)

  datatype Abandonment = Abandonment(
    sessionId: string, variant: string, startTime: int, endTime: int, duration: int,
    abandonedAt: Option<nat>, reason: Option<string>, answers: map<string, string>)

  datatype Conversion = Conversion(
    sessionId: string, variant: string, packageName: Option<string>, platform: Option<string>,
    conversionTime: int, timeToConvert: int)

  /** The per-variant counts of `getVariantPerformance` (its rates are not modelled). */
  datatype VariantStats = VariantStats(starts: nat, completions: nat, abandonments: nat, conversions: nat)

  /** The session `startQuiz` creates. */
  function FreshSession(sessionId: string, variant: string, now: int): (s: Session)
    ensures !s.completed && !s.abandoned && s.currentQuestion == 0 && s.totalQuestions == TotalQuestions
    ensures s.answers == map[] && s.questionTimes == map[] && s.variant == variant
  {
    Session(sessionId, variant, now, None, false, false, 0, TotalQuestions, map[], map[], None,
      None, false, None, None, None, None, None)
  }

  /** The variant a session starts with: the given one, else the randomly drawn one under A/B testing, else "A". */
  function ChosenVariant(requested: string, abTesting: bool, drawn: string): (v: string)
    ensures requested != "" ==> v == requested
    ensures requested == "" && !abTesting ==> v == DefaultVariant
    ensures requested == "" && abTesting ==> v == drawn
  {
    if abTesting && requested == "" then drawn
    else if requested != "" then requested
    else DefaultVariant
  }

  /** A variant field, with a missing (empty) one read as "A". */
  function VariantOf(v: string): string
  {
    if v == "" then DefaultVariant else v
  }

  /** `events.push(e)` followed by keeping only the newest `MaxEvents`. */
  function Appended(events: seq<Event>, e: Event): (r: seq<Event>)
    ensures |r| == if |events| + 1 > MaxEvents then MaxEvents else |events| + 1
    ensures r[|r| - 1] == e
    ensures r[..|r| - 1] == events[|events| + 1 - |r|..]
  {
    var all := events + [e];
    if |all| > MaxEvents then all[|all| - MaxEvents..] else all
  }

  /** A log never grows past `MaxEvents`, and a log within the bound keeps every old event while there is room. */
  lemma LogBounded(events: seq<Event>, e: Event)
    ensures |events| <= MaxEvents ==> |Appended(events, e)| <= MaxEvents
    ensures |events| < MaxEvents ==> Appended(events, e) == events + [e]
  {
  }

  /** The session after `answerQuestion`. */
  function AnsweredSession(s: Session, questionIndex: int, questionId: string, answer: string, now: int): (r: Session)
    ensures r.answers == s.answers[questionId := answer]
    ensures r.currentQuestion == questionIndex + 1 && r.questionStart == Some(now)
    ensures (s.questionStart.Some? && s.questionStart.value != 0) ==> r.questionTimes == s.questionTimes[questionId := now - s.questionStart.value]
    ensures !(s.questionStart.Some? && s.questionStart.value != 0) ==> r.questionTimes == s.questionTimes
    ensures r.completed == s.completed && r.abandoned == s.abandoned && r.sessionId == s.sessionId && r.variant == s.variant
  {
    var times := if s.questionStart.Some? && s.questionStart.value != 0
      then s.questionTimes[questionId := now - s.questionStart.value] else s.questionTimes;
    s.(answers := s.answers[questionId := answer], questionTimes := times,
       currentQuestion := questionIndex + 1, questionStart := Some(now))
  }

  /** `saveCompletion`'s record: never converted yet. */
  function CompletionOf(s: Session): (c: Completion)
    requires s.endTime.Some?
    ensures !c.converted && c.sessionId == s.sessionId && c.variant == s.variant
    ensures c.duration == c.endTime - c.startTime
  {
    Completion(s.sessionId, s.variant, s.startTime, s.endTime.value, s.endTime.value - s.startTime,
      s.answers, s.questionTimes, s.recommendation, false)
  }

  function AbandonmentOf(s: Session): (a: Abandonment)
    requires s.endTime.Some?
    ensures a.sessionId == s.sessionId && a.abandonedAt == s.abandonedAt && a.duration == a.endTime - a.startTime
  {
    Abandonment(s.sessionId, s.variant, s.startTime, s.endTime.value, s.endTime.value - s.startTime,
      s.abandonedAt, s.abandonReason, s.answers)
  }

  /** `saveConversion`'s record; an unset end time reads as 0, as `null` does in a subtraction. */
  function ConversionOf(s: Session): (c: Conversion)
    requires s.conversionTime.Some?
    ensures c.timeToConvert == c.conversionTime - s.endTime.GetOr(0)
  {
    Conversion(s.sessionId, s.variant, s.conversionPackage, s.conversionPlatform,
      s.conversionTime.value, s.conversionTime.value - s.endTime.GetOr(0))
  }

  /** Index of the first completion of the session, as `find` returns it. */
  function FirstOfSession(cs: seq<Completion>, id: string): (r: Option<nat>)
    ensures r.Some? ==> r.value < |cs| && cs[r.value].sessionId == id && forall j :: 0 <= j < r.value ==> cs[j].sessionId != id
    ensures r.None? ==> forall j :: 0 <= j < |cs| ==> cs[j].sessionId != id
  {
    if cs == [] then None
    else if cs[0].sessionId == id then Some(0)
    else
      var r := FirstOfSession(cs[1..], id);
      assert forall j :: 1 <= j < |cs| ==> cs[j] == cs[1..][j - 1];
      if r.Some? then Some(r.value + 1) else None
  }

  /** The completions after `saveConversion` flags the session's first completion as converted. */
  function MarkConverted(cs: seq<Completion>, id: string): (r: seq<Completion>)
    ensures |r| == |cs|
    ensures forall j :: 0 <= j < |cs| && FirstOfSession(cs, id) != Some(j) ==> r[j] == cs[j]
    ensures FirstOfSession(cs, id).Some? ==> r[FirstOfSession(cs, id).value] == cs[FirstOfSession(cs, id).value].(converted := true)
  {
    match FirstOfSession(cs, id)
    case None => cs
    case Some(i) => cs[i := cs[i].(converted := true)]
  }

  /** Marking twice is marking once. */
  lemma MarkConvertedIdempotent(cs: seq<Completion>, id: string)
    ensures MarkConverted(MarkConverted(cs, id), id) == MarkConverted(cs, id)
  {
    var m := MarkConverted(cs, id);
    var f := FirstOfSession(cs, id);
    if f.Some? {
      var i := f.value;
      assert forall j :: 0 <= j < |m| ==> m[j].sessionId == cs[j].sessionId;
      var g := FirstOfSession(m, id);
      assert g == f;
    }
  }

  // ------------------------------------------------------------------ counting

  /** `abandonedAt || 0`. */
  function PointOf(a: Abandonment): nat
  {
    a.abandonedAt.GetOr(0)
  }

  function PointCount(abs: seq<Abandonment>, p: nat): (n: nat)
    ensures n <= |abs|
  {
    if abs == [] then 0 else PointCount(abs[..|abs| - 1], p) + (if PointOf(abs[|abs| - 1]) == p then 1 else 0)
  }

  lemma {:induction false} PointCountPositive(abs: seq<Abandonment>, i: nat)
    requires i < |abs|
    ensures PointCount(abs, PointOf(abs[i])) > 0
  {
    if i < |abs| - 1 {
      PointCountPositive(abs[..|abs| - 1], i);
    }
  }

  lemma {:induction false} PointCountAbsent(abs: seq<Abandonment>, p: nat)
    requires forall j :: 0 <= j < |abs| ==> PointOf(abs[j]) != p
    ensures PointCount(abs, p) == 0
  {
    if abs != [] {
      PointCountAbsent(abs[..|abs| - 1], p);
    }
  }

  function NameOf(c: Completion): Option<string>
  {
    match c.recommendation
    case Some(n) => if n != "" then Some(n) else None
    case None => None
  }

  /** The number of completions recommending `name`. */
  function NameCount(cs: seq<Completion>, name: string): (n: nat)
    ensures n <= |cs|
  {
    if cs == [] then 0 else NameCount(cs[..|cs| - 1], name) + (if NameOf(cs[|cs| - 1]) == Some(name) then 1 else 0)
  }

  function CompletionsOf(cs: seq<Completion>, v: string): (n: nat)
    ensures n <= |cs|
  {
    if cs == [] then 0 else CompletionsOf(cs[..|cs| - 1], v) + (if VariantOf(cs[|cs| - 1].variant) == v then 1 else 0)
  }

  function AbandonmentsOf(abs: seq<Abandonment>, v: string): (n: nat)
    ensures n <= |abs|
  {
    if abs == [] then 0 else AbandonmentsOf(abs[..|abs| - 1], v) + (if VariantOf(abs[|abs| - 1].variant) == v then 1 else 0)
  }

  function ConversionsOf(cvs: seq<Conversion>, v: string): (n: nat)
    ensures n <= |cvs|
  {
    if cvs == [] then 0 else ConversionsOf(cvs[..|cvs| - 1], v) + (if VariantOf(cvs[|cvs| - 1].variant) == v then 1 else 0)
  }

  /** Records of distinct variants are counted apart: the three counts never exceed the total. */
  lemma {:induction false} CompletionsSplit(cs: seq<Completion>)
    ensures CompletionsOf(cs, "A") + CompletionsOf(cs, "B") + CompletionsOf(cs, "C") <= |cs|
  {
    if cs != [] {
      CompletionsSplit(cs[..|cs| - 1]);
    }
  }

  lemma {:induction false} AbandonmentsSplit(abs: seq<Abandonment>)
    ensures AbandonmentsOf(abs, "A") + AbandonmentsOf(abs, "B") + AbandonmentsOf(abs, "C") <= |abs|
  {
    if abs != [] {
      AbandonmentsSplit(abs[..|abs| - 1]);
    }
  }

  /** The summed starts of A, B and C are at most the summary's `totalStarts`; other variants are ignored. */
  lemma StartsBounded(cs: seq<Completion>, abs: seq<Abandonment>, perf: map<string, VariantStats>)
    requires "A" in perf && "B" in perf && "C" in perf
    requires forall v :: v in perf ==> perf[v].starts == CompletionsOf(cs, v) + AbandonmentsOf(abs, v)
    ensures perf["A"].starts + perf["B"].starts + perf["C"].starts <= |cs| + |abs|
  {
    CompletionsSplit(cs);
    AbandonmentsSplit(abs);
  }

  /**
   * The point the descending sort of `Object.entries(pointCounts)` puts
   * first: a greatest count, the smallest point among those with it.
   */
  function Busiest(abs: seq<Abandonment>, counts: map<nat, nat>): (best: nat)
    requires abs != []
    requires forall j :: 0 <= j < |abs| ==> PointOf(abs[j]) in counts
    ensures best in counts
    ensures forall j :: 0 <= j < |abs| ==> counts[PointOf(abs[j])] <= counts[best]
    ensures forall j :: 0 <= j < |abs| && PointOf(abs[j]) < best ==> counts[PointOf(abs[j])] < counts[best]
  {
    var p := PointOf(abs[|abs| - 1]);
    if |abs| == 1 then p
    else
      var init := abs[..|abs| - 1];
      assert forall j :: 0 <= j < |init| ==> init[j] == abs[j];
      var b := Busiest(init, counts);
      if counts[p] > counts[b] || (counts[p] == counts[b] && p < b) then p else b
  }

  /** The per-variant counts the three passes of `getVariantPerformance` arrive at. */
  function Performance(cs: seq<Completion>, abs: seq<Abandonment>, cvs: seq<Conversion>, v: string): VariantStats
  {
    VariantStats(CompletionsOf(cs, v) + AbandonmentsOf(abs, v), CompletionsOf(cs, v), AbandonmentsOf(abs, v), ConversionsOf(cvs, v))
  }

  // ------------------------------------------------------------------ top recommendations

  /** Index of the first entry with the greatest count. */
  function FirstMax(entries: seq<(string, nat)>): (i: nat)
    requires entries != []
    ensures i < |entries|
    ensures forall j :: 0 <= j < |entries| ==> entries[j].1 <= entries[i].1
    ensures forall j :: 0 <= j < i ==> entries[j].1 < entries[i].1
  {
    if |entries| == 1 then 0
    else
      var k := FirstMax(entries[..|entries| - 1]);
      assert forall j :: 0 <= j < |entries| - 1 ==> entries[..|entries| - 1][j] == entries[j];
      if entries[|entries| - 1].1 > entries[k].1 then |entries| - 1 else k
  }

  function Without<T>(s: seq<T>, i: nat): (r: seq<T>)
    requires i < |s|
    ensures |r| == |s| - 1
    ensures multiset(r) + multiset{s[i]} == multiset(s)
  {
    assert s == s[..i] + [s[i]] + s[i + 1..];
    s[..i] + s[i + 1..]
  }

  /**
   * A stable sort by decreasing count followed by `slice(0, k)`: the first
   * entry with the greatest count, then the same on what remains.
   */
  function TopEntries(entries: seq<(string, nat)>, k: nat): (r: seq<(string, nat)>)
    ensures |r| == if |entries| < k then |entries| else k
    ensures multiset(r) <= multiset(entries)
    decreases k
  {
    if k == 0 || entries == [] then []
    else
      var i := FirstMax(entries);
      var rest := Without(entries, i);
      var tail := TopEntries(rest, k - 1);
      assert multiset{entries[i]} + multiset(tail) <= multiset{entries[i]} + multiset(rest);
      [entries[i]] + tail
  }

  predicate NonIncreasing(r: seq<(string, nat)>)
  {
    forall a, b :: 0 <= a < b < |r| ==> r[a].1 >= r[b].1
  }

  predicate AllAtMost(m: multiset<(string, nat)>, c: nat)
  {
    forall e :: e in m ==> e.1 <= c
  }

  lemma ConsNonIncreasing(x: (string, nat), tail: seq<(string, nat)>)
    requires NonIncreasing(tail)
    requires AllAtMost(multiset(tail), x.1)
    ensures NonIncreasing([x] + tail)
  {
    var r := [x] + tail;
    forall a, b | 0 <= a < b < |r| ensures r[a].1 >= r[b].1 {
      assert r[b] == tail[b - 1];
      assert tail[b - 1] in multiset(tail);
      if a > 0 {
        assert r[a] == tail[a - 1];
      }
    }
  }

  /** A sub-multiset keeps a bound. */
  lemma AtMostSub(m: multiset<(string, nat)>, n: multiset<(string, nat)>, c: nat)
    requires n <= m && AllAtMost(m, c)
    ensures AllAtMost(n, c)
  {
    forall e | e in n ensures e.1 <= c {
      assert e in m;
    }
  }

  /** The report is in non-increasing order of count. */
  lemma {:induction false} TopEntriesSorted(entries: seq<(string, nat)>, k: nat)
    ensures NonIncreasing(TopEntries(entries, k))
    decreases k
  {
    if k > 0 && entries != [] {
      var i := FirstMax(entries);
      var rest := Without(entries, i);
      var tail := TopEntries(rest, k - 1);
      TopEntriesSorted(rest, k - 1);
      assert NonIncreasing(tail);
      assert TopEntries(entries, k) == [entries[i]] + tail;
      MaxBoundsRest(entries, i);
      AtMostSub(multiset(rest), multiset(tail), entries[i].1);
      ConsNonIncreasing(entries[i], tail);
    }
  }

  /** After removing the maximum, what remains is bounded by it. */
  lemma MaxBoundsRest(entries: seq<(string, nat)>, i: nat)
    requires entries != [] && i == FirstMax(entries)
    ensures AllAtMost(multiset(Without(entries, i)), entries[i].1)
  {
    var rest := Without(entries, i);
    forall e: (string, nat) | e in multiset(rest) ensures e.1 <= entries[i].1 {
      assert e in multiset(entries);
    }
  }

  /** Every entry of `entries` left out of `r` has a count no greater than the last one of `r`. */
  predicate LeftOutAtMostLast(entries: seq<(string, nat)>, r: seq<(string, nat)>)
  {
    |r| > 0 ==> AllAtMost(multiset(entries) - multiset(r), r[|r| - 1].1)
  }

  /** Every entry left out of the report has a count no greater than the last one reported. */
  lemma {:induction false} TopEntriesComplete(entries: seq<(string, nat)>, k: nat, r: seq<(string, nat)>)
    requires r == TopEntries(entries, k)
    ensures LeftOutAtMostLast(entries, r)
    decreases k
  {
    if k > 0 && entries != [] {
      var i := FirstMax(entries);
      var x := entries[i];
      var rest := Without(entries, i);
      var tail := TopEntries(rest, k - 1);
      TopEntriesComplete(rest, k - 1, tail);
      MaxBoundsRest(entries, i);
      LeftOutStep(entries, x, rest, tail);
    }
  }

  /** Putting the maximum in front of a report of the rest keeps the left-out entries bounded by the last. */
  lemma LeftOutStep(entries: seq<(string, nat)>, x: (string, nat), rest: seq<(string, nat)>, tail: seq<(string, nat)>)
    requires multiset(rest) + multiset{x} == multiset(entries)
    requires multiset(tail) <= multiset(rest)
    requires LeftOutAtMostLast(rest, tail)
    requires AllAtMost(multiset(rest), x.1)
    ensures LeftOutAtMostLast(entries, [x] + tail)
  {
    var r := [x] + tail;
    assert multiset(r) == multiset{x} + multiset(tail);
    assert multiset(entries) - multiset(r) == multiset(rest) - multiset(tail);
    if tail != [] {
      assert r[|r| - 1] == tail[|tail| - 1];
    } else {
      assert multiset(entries) - multiset(r) == multiset(rest);
    }
  }

  /** No name appears twice in a count list. */
  predicate DistinctNames(entries: seq<(string, nat)>)
  {
    forall a, b :: 0 <= a < b < |entries| ==> entries[a].0 != entries[b].0
  }

  /** Index of the entry for `name`, if any. */
  function EntryOf(entries: seq<(string, nat)>, name: string): (r: Option<nat>)
    ensures r.Some? ==> r.value < |entries| && entries[r.value].0 == name
    ensures r.None? ==> forall j :: 0 <= j < |entries| ==> entries[j].0 != name
  {
    if entries == [] then None
    else
      var n := |entries| - 1;
      if entries[n].0 == name then Some(n)
      else
        var r := EntryOf(entries[..n], name);
        assert forall j :: 0 <= j < n ==> entries[..n][j] == entries[j];
        r
  }

  /** One more recommendation of `name` (`recCounts[name] = (recCounts[name] || 0) + 1`): its entry gains one, or a new entry goes last. */
  function Bump(entries: seq<(string, nat)>, name: string): (r: seq<(string, nat)>)
    ensures DistinctNames(entries) ==> DistinctNames(r)
    ensures exists j :: 0 <= j < |r| && r[j].0 == name
  {
    match EntryOf(entries, name)
    case Some(i) =>
      var r := entries[i := (name, entries[i].1 + 1)];
      assert r[i].0 == name;
      r
    case None =>
      var r := entries + [(name, 1)];
      assert r[|entries|].0 == name;
      r
  }

  /** The count list of `getTopRecommendations`, in first-seen order. */
  function RecommendationCounts(cs: seq<Completion>): (r: seq<(string, nat)>)
    ensures DistinctNames(r)
  {
    if cs == [] then []
    else
      var prev := RecommendationCounts(cs[..|cs| - 1]);
      match NameOf(cs[|cs| - 1])
      case Some(n) => Bump(prev, n)
      case None => prev
  }

  /** Each name in the count list carries the number of completions recommending it. */
  lemma {:induction false} CountsExact(cs: seq<Completion>, j: nat)
    requires j < |RecommendationCounts(cs)|
    ensures RecommendationCounts(cs)[j].1 == NameCount(cs, RecommendationCounts(cs)[j].0)
    ensures NameCount(cs, RecommendationCounts(cs)[j].0) > 0
    decreases |cs|, 1
  {
    var prev := RecommendationCounts(cs[..|cs| - 1]);
    var last := NameOf(cs[|cs| - 1]);
    match last
    case None =>
      CountsExact(cs[..|cs| - 1], j);
    case Some(n) =>
      BumpAt(prev, n, j, cs);
  }

  lemma {:induction false} BumpAt(prev: seq<(string, nat)>, n: string, j: nat, cs: seq<Completion>)
    requires cs != [] && prev == RecommendationCounts(cs[..|cs| - 1]) && NameOf(cs[|cs| - 1]) == Some(n)
    requires j < |Bump(prev, n)|
    ensures Bump(prev, n)[j].1 == NameCount(cs, Bump(prev, n)[j].0)
    ensures NameCount(cs, Bump(prev, n)[j].0) > 0
    decreases |cs|, 0
  {
    BumpShape(prev, n, j);
    if j < |prev| {
      CountsExact(cs[..|cs| - 1], j);
    } else {
      NameCountAbsent(cs[..|cs| - 1], n, prev);
    }
  }

  /** Where `Bump` puts things: existing entries keep their names and the one named gains one; a new name goes last with 1. */
  lemma BumpShape(entries: seq<(string, nat)>, name: string, j: nat)
    requires DistinctNames(entries)
    requires j < |Bump(entries, name)|
    ensures j < |entries| ==> Bump(entries, name)[j] == (entries[j].0, entries[j].1 + if entries[j].0 == name then 1 else 0)
    ensures j >= |entries| ==> j == |entries| && Bump(entries, name)[j] == (name, 1) && forall m :: 0 <= m < |entries| ==> entries[m].0 != name
  {
  }

  lemma {:induction false} NameCountAbsent(cs: seq<Completion>, n: string, counts: seq<(string, nat)>)
    requires counts == RecommendationCounts(cs)
    requires forall m :: 0 <= m < |counts| ==> counts[m].0 != n
    ensures NameCount(cs, n) == 0
    decreases |cs|
  {
    if cs != [] {
      var prev := RecommendationCounts(cs[..|cs| - 1]);
      match NameOf(cs[|cs| - 1])
      case None =>
        NameCountAbsent(cs[..|cs| - 1], n, prev);
      case Some(x) =>
        assert forall m :: 0 <= m < |prev| ==> prev[m].0 != n by {
          forall m | 0 <= m < |prev| ensures prev[m].0 != n {
            BumpShape(prev, x, m);
          }
        }
        assert x != n;
        NameCountAbsent(cs[..|cs| - 1], n, prev);
    }
  }

  /** Every reported recommendation carries the number of completions that recommended it. */
  lemma ReportedCountsExact(cs: seq<Completion>, k: nat, e: (string, nat))
    requires e in TopEntries(RecommendationCounts(cs), k)
    ensures e.1 == NameCount(cs, e.0) && e.1 > 0
  {
    var counts := RecommendationCounts(cs);
    assert e in multiset(TopEntries(counts, k));
    assert e in multiset(counts);
    var j :| 0 <= j < |counts| && counts[j] == e;
    CountsExact(cs, j);
  }

  // ------------------------------------------------------------------ the tracker

  class Tracker {
    const enableTracking: bool
    const enableABTesting: bool
    var session: Option<Session>
    var events: seq<Event>
    var completions: seq<Completion>
    var abandonments: seq<Abandonment>
    var conversions: seq<Conversion>

    /**
     * `config.enableTracking !== false` and `config.enableABTesting || false`;
     * the stored session and records are what `loadSession`/`loadAnalytics` read.
     */
    constructor(trackingOption: Option<bool>, abTesting: bool, storedSession: Option<Session>,
                storedCompletions: seq<Completion>, storedAbandonments: seq<Abandonment>,
                storedConversions: seq<Conversion>, storedEvents: seq<Event>)
      ensures enableTracking == (trackingOption != Some(false)) && enableABTesting == abTesting
      ensures session == storedSession && events == storedEvents
      ensures completions == storedCompletions && abandonments == storedAbandonments && conversions == storedConversions
    {
      enableTracking := trackingOption != Some(false);
      enableABTesting := abTesting;
      session := storedSession;
      events := storedEvents;
      completions := storedCompletions;
      abandonments := storedAbandonments;
      conversions := storedConversions;
    }

    /** The log after tracking `e`: unchanged when tracking is off. */
    function Logged(log: seq<Event>, e: Event): seq<Event>
    {
      if enableTracking then Appended(log, e) else log
    }

    /** The event `trackEvent(name)` records for a session state. */
    static function EventFor(name: string, now: int, s: Option<Session>): Event
    {
      Event(name, now, if s.Some? then Some(s.value.sessionId) else None, if s.Some? then Some(s.value.variant) else None)
    }

    /** `trackEvent`. */
    method TrackEvent(name: string, now: int)
      modifies this`events
      ensures events == Logged(old(events), EventFor(name, now, session))
    {
      if !enableTracking {
        return;
      }
      events := Appended(events, EventFor(name, now, session));
    }

    /** `startQuiz`: a fresh session replaces the old one, then "quiz_started" is tracked. */
    method StartQuiz(requested: string, drawn: string, sessionId: string, now: int)
      modifies this`session, this`events
      ensures session == Some(FreshSession(sessionId, ChosenVariant(requested, enableABTesting, drawn), now))
      ensures events == Logged(old(events), EventFor("quiz_started", now, session))
    {
      var variant := ChosenVariant(requested, enableABTesting, drawn);
      session := Some(FreshSession(sessionId, variant, now));
      TrackEvent("quiz_started", now);
    }

    /** `answerQuestion`: nothing without a session. */
    method AnswerQuestion(questionIndex: int, questionId: string, answer: string, now: int)
      modifies this`session, this`events
      ensures old(session).None? ==> session == old(session) && events == old(events)
      ensures old(session).Some? ==>
        session == Some(AnsweredSession(old(session).value, questionIndex, questionId, answer, now)) &&
        events == Logged(old(events), EventFor("question_answered", now, session))
    {
      if session.None? {
        return;
      }
      session := Some(AnsweredSession(session.value, questionIndex, questionId, answer, now));
      TrackEvent("question_answered", now);
    }

    /** `navigateBack`: the position and the question's start time move; nothing without a session. */
    method NavigateBack(questionIndex: int, now: int)
      modifies this`session, this`events
      ensures old(session).None? ==> session == old(session) && events == old(events)
      ensures old(session).Some? ==>
        session == Some(old(session).value.(currentQuestion := questionIndex, questionStart := Some(now))) &&
        events == Logged(old(events), EventFor("quiz_navigation_back", now, session))
    {
      if session.None? {
        return;
      }
      session := Some(session.value.(currentQuestion := questionIndex, questionStart := Some(now)));
      TrackEvent("quiz_navigation_back", now);
    }

    /** `saveCompletion`. */
    method SaveCompletion()
      requires session.Some? && session.value.endTime.Some?
      modifies this`completions
      ensures completions == old(completions) + [CompletionOf(session.value)]
    {
      completions := completions + [CompletionOf(session.value)];
    }

    /** `saveAbandonment`. */
    method SaveAbandonment()
      requires session.Some? && session.value.endTime.Some?
      modifies this`abandonments
      ensures abandonments == old(abandonments) + [AbandonmentOf(session.value)]
    {
      abandonments := abandonments + [AbandonmentOf(session.value)];
    }

    /** `saveConversion`: one record appended, and the session's first completion flagged. */
    method SaveConversion()
      requires session.Some? && session.value.conversionTime.Some?
      modifies this`conversions, this`completions
      ensures conversions == old(conversions) + [ConversionOf(session.value)]
      ensures completions == MarkConverted(old(completions), session.value.sessionId)
    {
      conversions := conversions + [ConversionOf(session.value)];
      completions := MarkConverted(completions, session.value.sessionId);
    }

    /** `completeQuiz`: the session is closed with its recommendation, tracked, and one completion recorded. */
    method CompleteQuiz(recommendation: Option<string>, now: int)
      modifies this`session, this`events, this`completions
      ensures old(session).None? ==> session == old(session) && events == old(events) && completions == old(completions)
      ensures old(session).Some? ==>
        session == Some(old(session).value.(endTime := Some(now), completed := true, recommendation := recommendation)) &&
        events == Logged(old(events), EventFor("quiz_completed", now, session)) &&
        completions == old(completions) + [CompletionOf(session.value)]
    {
      if session.None? {
        return;
      }
      session := Some(session.value.(endTime := Some(now), completed := true, recommendation := recommendation));
      TrackEvent("quiz_completed", now);
      SaveCompletion();
    }

    /** `abandonQuiz`: nothing without a session or after completion; otherwise one abandonment is recorded. */
    method AbandonQuiz(questionIndex: nat, reason: string, now: int)
      modifies this`session, this`events, this`abandonments
      ensures (old(session).None? || old(session).value.completed) ==>
        session == old(session) && events == old(events) && abandonments == old(abandonments)
      ensures old(session).Some? && !old(session).value.completed ==>
        session == Some(old(session).value.(endTime := Some(now), abandoned := true,
          abandonedAt := Some(questionIndex), abandonReason := Some(reason))) &&
        events == Logged(old(events), EventFor("quiz_abandoned", now, session)) &&
        abandonments == old(abandonments) + [AbandonmentOf(session.value)]
    {
      if session.None? || session.value.completed {
        return;
      }
      session := Some(session.value.(endTime := Some(now), abandoned := true,
        abandonedAt := Some(questionIndex), abandonReason := Some(reason)));
      TrackEvent("quiz_abandoned", now);
      SaveAbandonment();
    }

    /** `trackConversion`: nothing without a session; otherwise one conversion is recorded and the completion flagged. */
    method TrackConversion(packageName: string, platform: string, now: int)
      modifies this`session, this`events, this`conversions, this`completions
      ensures old(session).None? ==>
        session == old(session) && events == old(events) && conversions == old(conversions) && completions == old(completions)
      ensures old(session).Some? ==>
        session == Some(old(session).value.(converted := true, conversionPackage := Some(packageName),
          conversionPlatform := Some(platform), conversionTime := Some(now))) &&
        events == Logged(old(events), EventFor("quiz_conversion", now, session)) &&
        conversions == old(conversions) + [ConversionOf(session.value)] &&
        completions == MarkConverted(old(completions), session.value.sessionId)
    {
      if session.None? {
        return;
      }
      session := Some(session.value.(converted := true, conversionPackage := Some(packageName),
        conversionPlatform := Some(platform), conversionTime := Some(now)));
      TrackEvent("quiz_conversion", now);
      SaveConversion();
    }

    /** The `pointCounts` pass: how often each question was the abandonment point. */
    static method CountPoints(abs: seq<Abandonment>) returns (counts: map<nat, nat>)
      ensures forall p :: p in counts <==> exists j :: 0 <= j < |abs| && PointOf(abs[j]) == p
      ensures forall p :: p in counts ==> counts[p] == PointCount(abs, p)
    {
      counts := map[];
      for i := 0 to |abs|
        invariant forall p :: p in counts <==> exists j :: 0 <= j < i && PointOf(abs[j]) == p
        invariant forall p :: p in counts ==> counts[p] == PointCount(abs[..i], p)
      {
        assert abs[..i + 1][..i] == abs[..i];
        var p := PointOf(abs[i]);
        if p !in counts {
          PointCountAbsent(abs[..i], p);
        }
        counts := counts[p := (if p in counts then counts[p] else 0) + 1];
      }
      assert abs[..|abs|] == abs;
    }

    /**
     * `getMostCommonAbandonmentPoint`: None without abandonments; otherwise a
     * point reached most often, the smallest such (integer keys enumerate in
     * ascending order and the sort is stable), with its count.
     */
    method MostCommonAbandonmentPoint() returns (r: Option<(nat, nat)>)
      ensures r.None? <==> abandonments == []
      ensures r.Some? ==> r.value.1 == PointCount(abandonments, r.value.0) && r.value.1 > 0
      ensures r.Some? ==> forall p: nat :: PointCount(abandonments, p) <= r.value.1
      ensures r.Some? ==> forall p: nat :: p < r.value.0 ==> PointCount(abandonments, p) < r.value.1
    {
      var abs := abandonments;
      if |abs| == 0 {
        return None;
      }
      var counts := CountPoints(abs);
      var best := Busiest(abs, counts);
      forall p: nat
        ensures PointCount(abs, p) <= counts[best]
        ensures p < best ==> PointCount(abs, p) < counts[best]
      {
        if p !in counts {
          PointCountAbsent(abs, p);
        }
      }
      PointCountPositive(abs, 0);
      r := Some((best, counts[best]));
    }

    /**
     * `getVariantPerformance`: a record per configured variant, counting the
     * completions, abandonments (together the starts) and conversions whose
     * variant (missing reads as "A") is that one; others are ignored.
     */
    method VariantPerformance() returns (perf: map<string, VariantStats>)
      ensures perf.Keys == set v | v in Variants
      ensures forall v :: v in perf ==> perf[v] == Performance(completions, abandonments, conversions, v)
    {
      perf := map v | v in Variants :: Performance([], [], [], v);
      perf := CountCompletions(completions, perf);
      perf := CountAbandonments(completions, abandonments, perf);
      perf := CountConversions(completions, abandonments, conversions, perf);
    }

    /** The completions pass: each one counts as a start and a completion of its variant. */
    static method CountCompletions(cs: seq<Completion>, init: map<string, VariantStats>) returns (perf: map<string, VariantStats>)
      requires forall v :: v in init ==> init[v] == Performance([], [], [], v)
      ensures perf.Keys == init.Keys
      ensures forall v :: v in perf ==> perf[v] == Performance(cs, [], [], v)
    {
      perf := init;
      for i := 0 to |cs|
        invariant perf.Keys == init.Keys
        invariant forall v :: v in perf ==> perf[v] == Performance(cs[..i], [], [], v)
      {
        assert cs[..i + 1][..i] == cs[..i];
        var v := VariantOf(cs[i].variant);
        if v in perf {
          perf := perf[v := perf[v].(starts := perf[v].starts + 1, completions := perf[v].completions + 1)];
        }
      }
      assert cs[..|cs|] == cs;
    }

    /** The abandonments pass: each one counts as a start and an abandonment of its variant. */
    static method CountAbandonments(cs: seq<Completion>, abs: seq<Abandonment>, init: map<string, VariantStats>)
      returns (perf: map<string, VariantStats>)
      requires forall v :: v in init ==> init[v] == Performance(cs, [], [], v)
      ensures perf.Keys == init.Keys
      ensures forall v :: v in perf ==> perf[v] == Performance(cs, abs, [], v)
    {
      perf := init;
      for i := 0 to |abs|
        invariant perf.Keys == init.Keys
        invariant forall v :: v in perf ==> perf[v] == Performance(cs, abs[..i], [], v)
      {
        assert abs[..i + 1][..i] == abs[..i];
        var v := VariantOf(abs[i].variant);
        if v in perf {
          perf := perf[v := perf[v].(starts := perf[v].starts + 1, abandonments := perf[v].abandonments + 1)];
        }
      }
      assert abs[..|abs|] == abs;
    }

    /** The conversions pass: each one counts as a conversion of its variant. */
    static method CountConversions(cs: seq<Completion>, abs: seq<Abandonment>, cvs: seq<Conversion>, init: map<string, VariantStats>)
      returns (perf: map<string, VariantStats>)
      requires forall v :: v in init ==> init[v] == Performance(cs, abs, [], v)
      ensures perf.Keys == init.Keys
      ensures forall v :: v in perf ==> perf[v] == Performance(cs, abs, cvs, v)
    {
      perf := init;
      for i := 0 to |cvs|
        invariant perf.Keys == init.Keys
        invariant forall v :: v in perf ==> perf[v] == Performance(cs, abs, cvs[..i], v)
      {
        assert cvs[..i + 1][..i] == cvs[..i];
        var v := VariantOf(cvs[i].variant);
        if v in perf {
          perf := perf[v := perf[v].(conversions := perf[v].conversions + 1)];
        }
      }
      assert cvs[..|cvs|] == cvs;
    }

    /**
     * `getTopRecommendations`: the recommended names counted in first-seen
     * order, then the five most frequent (ties keep first-seen order).
     */
    method TopRecommendations() returns (r: seq<(string, nat)>)
      ensures r == TopEntries(RecommendationCounts(completions), TopCount)
    {
      var cs := completions;
      if |cs| == 0 {
        return [];
      }
      var counts: seq<(string, nat)> := [];
      for i := 0 to |cs|
        invariant counts == RecommendationCounts(cs[..i])
      {
        assert cs[..i + 1][..i] == cs[..i];
        match NameOf(cs[i])
        case Some(n) =>
          counts := Bump(counts, n);
        case None =>
      }
      assert cs[..|cs|] == cs;
      r := TopEntries(counts, TopCount);
    }
  }
}

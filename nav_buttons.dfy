/**
 * `fix_nav_buttons.py`: pages that ended up with several copies of the
 * navigation toggle button keep the first copy and lose the others.
 *
 * The regular expression that finds the button blocks is not modelled; the
 * model takes its matches as spans of the page, in the order `re.finditer`
 * returns them (ascending and non-overlapping), each starting with the
 * button's opening text.
 */
module NavButtons {
  import opened Wrappers
  import opened Strings

  /** The opening of every match: four spaces and the button's class and type. */
  const ButtonOpen: string := "    <button class=\"nav-toggle\" type=\"button\""

  /** What `process_file` counts to report the removed buttons. */
  const ButtonCountPattern: string := "<button class=\"nav-toggle\""

  datatype Span = Span(start: nat, end: nat)

  /** Non-empty spans inside a text of length `n`, ascending and non-overlapping. */
  predicate Ordered(spans: seq<Span>, n: nat)
  {
    (forall k :: 0 <= k < |spans| ==> spans[k].start < spans[k].end <= n) &&
    (forall k :: 0 < k < |spans| ==> spans[k - 1].end <= spans[k].start)
  }

  /** The spans are matches of the button pattern in `s`. */
  predicate ValidMatches(s: string, spans: seq<Span>)
  {
    Ordered(spans, |s|) &&
    forall k :: 0 <= k < |spans| ==> ButtonOpen <= s[spans[k].start..spans[k].end]
  }

  /** `from` lies before span `i`, or anywhere in the text once the spans run out. */
  predicate Before(s: string, spans: seq<Span>, i: nat, from: nat)
  {
    i <= |spans| && from <= |s| && (i < |spans| ==> from <= spans[i].start)
  }

  /** The text of `s` from `from` on with the spans `spans[i..]` cut out. */
  function Gaps(s: string, spans: seq<Span>, i: nat, from: nat): string
    requires Ordered(spans, |s|) && Before(s, spans, i, from)
    decreases |spans| - i
  {
    if i == |spans| then s[from..]
    else s[from..spans[i].start] + Gaps(s, spans, i + 1, spans[i].end)
  }

  /** The total length of the spans `spans[i..]`. */
  function TotalLength(spans: seq<Span>, i: nat): int
    requires i <= |spans|
    decreases |spans| - i
  {
    if i == |spans| then 0 else spans[i].end - spans[i].start + TotalLength(spans, i + 1)
  }

  /** Cutting the spans out loses exactly their text. */
  lemma {:induction false} GapsLength(s: string, spans: seq<Span>, i: nat, from: nat)
    requires Ordered(spans, |s|) && Before(s, spans, i, from)
    ensures |Gaps(s, spans, i, from)| == |s| - from - TotalLength(spans, i)
    decreases |spans| - i
  {
    if i < |spans| {
      GapsLength(s, spans, i + 1, spans[i].end);
    }
  }

  /** Every span has positive length, so a non-empty run of them has too. */
  lemma {:induction false} TotalLengthPositive(spans: seq<Span>, n: nat, i: nat)
    requires Ordered(spans, n) && i < |spans|
    ensures TotalLength(spans, i) > 0
    decreases |spans| - i
  {
    if i + 1 < |spans| {
      TotalLengthPositive(spans, n, i + 1);
    }
  }

  /** `fix_nav_buttons` on the page `s` and the matches `spans` of the button pattern in it. */
  function FixNavButtons(s: string, spans: seq<Span>): string
    requires ValidMatches(s, spans)
  {
    if |spans| <= 1 then s
    else s[..spans[0].end] + Gaps(s, spans, 1, spans[0].end)
  }

  /** Cutting `[st, en)` out of `s[..en] + g` leaves the prefix up to `p`, then the gap `[p, st)`, then `g`. */
  lemma Cut(s: string, p: nat, st: nat, en: nat, g: string)
    requires p <= st < en <= |s|
    ensures (s[..en] + g)[..st] + (s[..en] + g)[en..] == s[..p] + (s[p..st] + g)
  {
    var r := s[..en] + g;
    assert r[..st] == s[..st] == s[..p] + s[p..st];
    assert r[en..] == g;
  }

  /**
   * The loop of `fix_nav_buttons`: the later matches are cut out from the
   * last to the second, so the offsets of the earlier ones stay valid.
   */
  method RemoveDuplicates(s: string, spans: seq<Span>) returns (result: string)
    requires ValidMatches(s, spans)
    ensures result == FixNavButtons(s, spans)
  {
    if |spans| <= 1 {
      return s;
    }
    result := s;
    var i := |spans|;
    assert s == s[..spans[i - 1].end] + s[spans[i - 1].end..];
    while i > 1
      invariant 1 <= i <= |spans|
      invariant result == s[..spans[i - 1].end] + Gaps(s, spans, i, spans[i - 1].end)
    {
      var sp := spans[i - 1];
      Cut(s, spans[i - 2].end, sp.start, sp.end, Gaps(s, spans, i, sp.end));
      result := result[..sp.start] + result[sp.end..];
      i := i - 1;
    }
  }

  /** With at most one button there is nothing to remove. */
  lemma OneButtonUnchanged(s: string, spans: seq<Span>)
    requires ValidMatches(s, spans) && |spans| <= 1
    ensures FixNavButtons(s, spans) == s
  {
  }

  /** The page up to the end of the first button is kept as it is. */
  lemma FirstButtonKept(s: string, spans: seq<Span>)
    requires ValidMatches(s, spans) && spans != []
    ensures spans[0].end <= |FixNavButtons(s, spans)|
    ensures FixNavButtons(s, spans)[..spans[0].end] == s[..spans[0].end]
    ensures ButtonOpen <= FixNavButtons(s, spans)[spans[0].start..spans[0].end]
  {
  }

  /** Every later button is cut out and nothing else: the page shrinks by exactly their length. */
  lemma DuplicatesRemoved(s: string, spans: seq<Span>)
    requires ValidMatches(s, spans) && |spans| >= 2
    ensures |FixNavButtons(s, spans)| == |s| - TotalLength(spans, 1)
    ensures |FixNavButtons(s, spans)| < |s|
  {
    GapsLength(s, spans, 1, spans[0].end);
    TotalLengthPositive(spans, |s|, 1);
  }

  /** The file is written exactly when the page has two or more buttons. */
  lemma ChangedIffDuplicates(s: string, spans: seq<Span>)
    requires ValidMatches(s, spans)
    ensures FixNavButtons(s, spans) != s <==> |spans| >= 2
  {
    if |spans| >= 2 {
      DuplicatesRemoved(s, spans);
    }
  }

  /**
   * `process_file`: `None` when nothing changes, otherwise the content
   * written back and the reported number of removed buttons.
   */
  function ProcessFile(s: string, spans: seq<Span>): (r: Option<(string, int)>)
    requires ValidMatches(s, spans)
    ensures r.Some? <==> |spans| >= 2
    ensures r.Some? ==> r.value.0 == FixNavButtons(s, spans) && r.value.0 != s
    ensures r.Some? ==> r.value.1 == CountMatches(s, ButtonCountPattern) - CountMatches(r.value.0, ButtonCountPattern)
  {
    ChangedIffDuplicates(s, spans);
    var fixed := FixNavButtons(s, spans);
    if fixed == s then None
    else Some((fixed, CountMatches(s, ButtonCountPattern) - CountMatches(fixed, ButtonCountPattern)))
  }
}

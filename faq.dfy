/**
 * The FAQ page filter: the search box's text, lower-cased and trimmed, is
 * looked for in each item's question and answer attributes; items that do
 * not match are hidden and closed, a category is shown while one of its
 * items is, and the "no results" note is hidden while something matches.
 */
module Faq {
  import opened Wrappers
  import opened Strings

  /** One `.faq-item`: its `data-question`/`data-answer` (absent reads as ""), its visibility and its `open` attribute. */
  datatype FaqItem = FaqItem(question: string, answer: string, shown: bool, open: bool)

  /** `normalize`: lower-cased, then trimmed. */
  function Normalize(s: string): string
  {
    Trim(Lower(s))
  }

  /** The normalised term has no upper-case letter. */
  lemma NormalizedLower(s: string)
    ensures forall i :: 0 <= i < |Normalize(s)| ==> !('A' <= Normalize(s)[i] <= 'Z')
  {
    var l := Lower(s);
    assert forall i :: 0 <= i < |l| ==> !('A' <= l[i] <= 'Z');
    TrimWithin(l);
  }

  /** A trimmed string is a slice of the original. */
  lemma TrimWithin(s: string)
    ensures exists a, b :: 0 <= a <= b <= |s| && Trim(s) == s[a..b]
  {
    var t := TrimStart(s);
    var u := TrimEnd(t);
    var a := |s| - |t|;
    assert u == t[..|u|];
    SliceOfSuffix(s, a, |u|);
    assert Trim(s) == s[a..a + |u|];
  }

  /** The item matches the (normalised) term. */
  predicate Matches(term: string, item: FaqItem)
  {
    term == [] || Contains(item.question, term) || Contains(item.answer, term)
  }

  /** The item after `updateVisibility`: shown iff it matches, and closed when it does not. */
  function Refreshed(item: FaqItem, term: string): FaqItem
  {
    item.(shown := Matches(term, item), open := item.open && Matches(term, item))
  }

  predicate AnyMatch(items: seq<FaqItem>, term: string)
  {
    exists i :: 0 <= i < |items| && Matches(term, items[i])
  }

  /** A category section is displayed iff one of its items is. */
  predicate SectionShown(items: seq<FaqItem>, section: seq<nat>)
    requires forall j :: j in section ==> j < |items|
  {
    exists j :: j in section && items[j].shown
  }

  /**
   * `updateVisibility`: the items are updated in place, then each category's
   * display is decided and the empty-state flag (`emptyState.hidden`) computed.
   */
  method UpdateVisibility(items: array<FaqItem>, sections: seq<seq<nat>>, input: string)
    returns (sectionShown: seq<bool>, emptyHidden: bool)
    requires forall k, j :: 0 <= k < |sections| && j in sections[k] ==> j < items.Length
    modifies items
    ensures forall i :: 0 <= i < items.Length ==> items[i] == Refreshed(old(items[i]), Normalize(input))
    ensures |sectionShown| == |sections|
    ensures forall k :: 0 <= k < |sections| ==> (sectionShown[k] <==> SectionShown(items[..], sections[k]))
    ensures emptyHidden <==> AnyMatch(old(items[..]), Normalize(input)) || Normalize(input) == []
  {
    var term := Normalize(input);
    var anyMatch := RefreshItems(items, term);
    sectionShown := ShownSections(items[..], sections);
    emptyHidden := anyMatch || |term| == 0;
  }

  /**
   * The script's start: without a search box or without FAQ items it stops
   * before wiring anything; otherwise `updateVisibility` runs once on the
   * box's current text and gives the section flags and the empty-state flag.
   */
  method Start(hasSearchInput: bool, items: array<FaqItem>, sections: seq<seq<nat>>, input: string)
    returns (r: Option<(seq<bool>, bool)>)
    requires forall k, j :: 0 <= k < |sections| && j in sections[k] ==> j < items.Length
    modifies items
    ensures r.None? <==> !hasSearchInput || items.Length == 0
    ensures r.None? ==> items[..] == old(items[..])
    ensures r.Some? ==> forall i :: 0 <= i < items.Length ==> items[i] == Refreshed(old(items[i]), Normalize(input))
    ensures r.Some? ==> |r.value.0| == |sections|
    ensures r.Some? ==> forall k :: 0 <= k < |sections| ==> (r.value.0[k] <==> SectionShown(items[..], sections[k]))
    ensures r.Some? ==> (r.value.1 <==> AnyMatch(old(items[..]), Normalize(input)) || Normalize(input) == [])
  {
    if !hasSearchInput || items.Length == 0 {
      return None;
    }
    var sectionShown, emptyHidden := UpdateVisibility(items, sections, input);
    r := Some((sectionShown, emptyHidden));
  }

  /** The `items.forEach` pass: every item refreshed in place; whether any matched. */
  method RefreshItems(items: array<FaqItem>, term: string) returns (anyMatch: bool)
    modifies items
    ensures forall i :: 0 <= i < items.Length ==> items[i] == Refreshed(old(items[i]), term)
    ensures anyMatch <==> AnyMatch(old(items[..]), term)
  {
    anyMatch := false;
    for i := 0 to items.Length
      invariant forall j :: 0 <= j < i ==> items[j] == Refreshed(old(items[j]), term)
      invariant forall j :: i <= j < items.Length ==> items[j] == old(items[j])
      invariant anyMatch <==> exists j :: 0 <= j < i && Matches(term, old(items[j]))
    {
      var item := Refreshed(items[i], term);
      items[i] := item;
      anyMatch := anyMatch || item.shown;
    }
  }

  /** The `categorySections.forEach` pass. */
  method ShownSections(items: seq<FaqItem>, sections: seq<seq<nat>>) returns (shown: seq<bool>)
    requires forall k, j :: 0 <= k < |sections| && j in sections[k] ==> j < |items|
    ensures |shown| == |sections|
    ensures forall k :: 0 <= k < |sections| ==> (shown[k] <==> SectionShown(items, sections[k]))
  {
    shown := [];
    for k := 0 to |sections|
      invariant |shown| == k
      invariant forall m :: 0 <= m < k ==> (shown[m] <==> SectionShown(items, sections[m]))
    {
      var visible := exists j :: j in sections[k] && items[j].shown;
      shown := shown + [visible];
    }
  }

  /** A cleared search box shows every item and keeps the empty state hidden. */
  lemma ClearedShowsAll(items: seq<FaqItem>, input: string, i: nat)
    requires Normalize(input) == [] && i < |items|
    ensures Refreshed(items[i], Normalize(input)).shown
    ensures Refreshed(items[i], Normalize(input)).open == items[i].open
  {
  }

  /** The empty state appears exactly when a non-blank search matches no item. */
  lemma EmptyStateShown(items: seq<FaqItem>, term: string)
    ensures !(AnyMatch(items, term) || term == []) <==> term != [] && forall i :: 0 <= i < |items| ==> !Matches(term, items[i])
  {
  }

  /** Searching is case-insensitive in the box only: an upper-case letter in an item never matches a typed letter. */
  lemma UpperCaseNeverMatches(item: FaqItem, input: string)
    requires forall i :: 0 <= i < |item.question| ==> 'A' <= item.question[i] <= 'Z'
    requires forall i :: 0 <= i < |item.answer| ==> 'A' <= item.answer[i] <= 'Z'
    requires Normalize(input) != []
    ensures !Matches(Normalize(input), item)
  {
    var t := Normalize(input);
    NormalizedLower(input);
    NotContainsFirstChar(item.question, t);
    NotContainsFirstChar(item.answer, t);
  }
}

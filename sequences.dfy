/**
 * The list operations the page scripts lean on: `Array.prototype.filter`,
 * `find`/`findIndex` and the stable `Array.prototype.sort` with a numeric key.
 */
module Sequences {
  import opened Wrappers

  /** `s.filter(keep)`: the elements that pass, in their original order. */
  function Filter<T>(s: seq<T>, keep: T -> bool): (r: seq<T>)
    ensures |r| <= |s|
    ensures forall k :: 0 <= k < |r| ==> keep(r[k])
  {
    if s == [] then []
    else Filter(s[..|s| - 1], keep) + (if keep(s[|s| - 1]) then [s[|s| - 1]] else [])
  }

  /** An element is kept iff it is in the list and passes. */
  lemma {:induction false} FilterMembers<T>(s: seq<T>, keep: T -> bool, x: T)
    ensures x in Filter(s, keep) <==> x in s && keep(x)
  {
    if s != [] {
      FilterMembers(s[..|s| - 1], keep, x);
      assert s == s[..|s| - 1] + [s[|s| - 1]];
    }
  }

  /** Filtering works piecewise, so the relative order of the kept elements is the original one. */
  lemma {:induction false} FilterAppend<T>(a: seq<T>, b: seq<T>, keep: T -> bool)
    ensures Filter(a + b, keep) == Filter(a, keep) + Filter(b, keep)
    decreases |b|
  {
    if b == [] {
      assert a + b == a;
    } else {
      FilterAppend(a, b[..|b| - 1], keep);
      assert (a + b)[..|a + b| - 1] == a + b[..|b| - 1];
    }
  }

  /** A filter keeps each element at most as often as it occurs. */
  lemma {:induction false} FilterWithin<T>(s: seq<T>, keep: T -> bool)
    ensures multiset(Filter(s, keep)) <= multiset(s)
  {
    if s != [] {
      FilterWithin(s[..|s| - 1], keep);
      assert s == s[..|s| - 1] + [s[|s| - 1]];
    }
  }

  /** A filter that keeps everything is the identity. */
  lemma {:induction false} FilterAll<T>(s: seq<T>, keep: T -> bool)
    requires forall k :: 0 <= k < |s| ==> keep(s[k])
    ensures Filter(s, keep) == s
  {
    if s != [] {
      FilterAll(s[..|s| - 1], keep);
    }
  }

  /** Two filters that never keep the same element together keep at most the whole list. */
  lemma {:induction false} DisjointFilters<T>(s: seq<T>, p: T -> bool, q: T -> bool)
    requires forall k :: 0 <= k < |s| ==> !(p(s[k]) && q(s[k]))
    ensures |Filter(s, p)| + |Filter(s, q)| <= |s|
  {
    if s != [] {
      DisjointFilters(s[..|s| - 1], p, q);
    }
  }

  /** `order` lists every element of `elems` exactly once, as `Object.keys` or iterating a set does. */
  predicate Enumerates<T>(order: seq<T>, elems: set<T>)
  {
    (forall x :: x in order ==> x in elems) && (forall x :: x in elems ==> x in order) &&
    forall j, k :: 0 <= j < k < |order| ==> order[j] != order[k]
  }

  /** Filtering a duplicate-free list keeps one element per member that passes. */
  lemma {:induction false} FilterDistinctCount<T>(s: seq<T>, keep: T -> bool, kept: set<T>)
    requires forall j, k :: 0 <= j < k < |s| ==> s[j] != s[k]
    requires forall x :: x in kept <==> x in s && keep(x)
    ensures |Filter(s, keep)| == |kept|
  {
    if s != [] {
      var front, last := s[..|s| - 1], s[|s| - 1];
      var before := set x | x in front && keep(x);
      FilterDistinctCount(front, keep, before);
      assert s == front + [last];
      if keep(last) {
        assert kept == before + {last};
      } else {
        assert kept == before;
      }
    }
  }

  /** `s.findIndex(p)`, with "not found" as `None`: the first index whose element passes. */
  function FindIndex<T>(s: seq<T>, p: T -> bool): (r: Option<nat>)
    ensures r.Some? ==> r.value < |s| && p(s[r.value]) && forall j :: 0 <= j < r.value ==> !p(s[j])
    ensures r.None? ==> forall j :: 0 <= j < |s| ==> !p(s[j])
  {
    if s == [] then None
    else if p(s[0]) then Some(0)
    else match FindIndex(s[1..], p)
      case None => None
      case Some(i) => Some(i + 1)
  }

  // ---------------------------------------------------------------- stable sort

  predicate SortedBy<T>(s: seq<T>, key: T -> int)
  {
    forall i, j :: 0 <= i < j < |s| ==> key(s[i]) <= key(s[j])
  }

  /** Inserts `x` after every element whose key is not larger, so equal keys stay in arrival order. */
  function Insert<T>(s: seq<T>, x: T, key: T -> int): (r: seq<T>)
    ensures |r| == |s| + 1
  {
    if s == [] || key(s[|s| - 1]) <= key(x) then s + [x]
    else Insert(s[..|s| - 1], x, key) + [s[|s| - 1]]
  }

  /** A stable ascending sort by `key`, as `s.sort((a, b) => key(a) - key(b))` performs it. */
  function SortBy<T>(s: seq<T>, key: T -> int): (r: seq<T>)
    ensures |r| == |s|
  {
    if s == [] then [] else Insert(SortBy(s[..|s| - 1], key), s[|s| - 1], key)
  }

  /** Insertion adds exactly the one element. */
  lemma {:induction false} InsertKeeps<T>(s: seq<T>, x: T, key: T -> int)
    ensures multiset(Insert(s, x, key)) == multiset(s) + multiset{x}
  {
    if s != [] && key(s[|s| - 1]) > key(x) {
      InsertKeeps(s[..|s| - 1], x, key);
      assert s == s[..|s| - 1] + [s[|s| - 1]];
    }
  }

  predicate KeysAtMost<T>(s: seq<T>, key: T -> int, bound: int)
  {
    forall i :: 0 <= i < |s| ==> key(s[i]) <= bound
  }

  /** Insertion into a sorted list keeps it sorted. */
  lemma {:induction false} InsertSorted<T>(s: seq<T>, x: T, key: T -> int)
    requires SortedBy(s, key)
    ensures SortedBy(Insert(s, x, key), key)
  {
    if s != [] && key(s[|s| - 1]) > key(x) {
      var front, last := s[..|s| - 1], s[|s| - 1];
      InsertSorted(front, x, key);
      InsertKeeps(front, x, key);
      var t := Insert(front, x, key);
      assert KeysAtMost(t, key, key(last)) by {
        forall i | 0 <= i < |t|
          ensures key(t[i]) <= key(last)
        {
          assert t[i] in multiset(t);
          if t[i] != x {
            assert t[i] in multiset(front);
            var j :| 0 <= j < |front| && front[j] == t[i];
            assert s[j] == t[i];
          }
        }
      }
    }
  }

  /** The sort orders the list by key and keeps every element as often as it occurs. */
  lemma {:induction false} SortByCorrect<T>(s: seq<T>, key: T -> int)
    ensures SortedBy(SortBy(s, key), key)
    ensures multiset(SortBy(s, key)) == multiset(s)
  {
    if s != [] {
      SortByCorrect(s[..|s| - 1], key);
      InsertSorted(SortBy(s[..|s| - 1], key), s[|s| - 1], key);
      InsertKeeps(SortBy(s[..|s| - 1], key), s[|s| - 1], key);
      assert s == s[..|s| - 1] + [s[|s| - 1]];
    }
  }

  /** Sorting an already sorted list changes nothing. */
  lemma {:induction false} SortBySorted<T>(s: seq<T>, key: T -> int)
    requires SortedBy(s, key)
    ensures SortBy(s, key) == s
  {
    if s != [] {
      SortBySorted(s[..|s| - 1], key);
    }
  }

  predicate KeysAtLeast<T>(s: seq<T>, key: T -> int, bound: int)
  {
    forall i :: 0 <= i < |s| ==> bound <= key(s[i])
  }

  /** Cutting a sorted list gives a sorted front, and nothing behind the cut has a smaller key than the front's last. */
  lemma SortedCut<T>(s: seq<T>, key: T -> int, n: nat)
    requires SortedBy(s, key) && 0 < n <= |s|
    ensures SortedBy(s[..n], key)
    ensures KeysAtLeast(s[n..], key, key(s[n - 1]))
    ensures multiset(s) == multiset(s[..n]) + multiset(s[n..])
  {
    assert s == s[..n] + s[n..];
  }

  /** The first `n` of a sorted list and the rest hold the list's elements, and none of the rest sorts before the first part's last. */
  lemma SortByCut<T>(s: seq<T>, key: T -> int, n: nat)
    requires n <= |s|
    ensures multiset(SortBy(s, key)[..n]) + multiset(SortBy(s, key)[n..]) == multiset(s)
    ensures 0 < n ==> KeysAtLeast(SortBy(s, key)[n..], key, key(SortBy(s, key)[n - 1]))
  {
    var t := SortBy(s, key);
    SortByCorrect(s, key);
    if n > 0 {
      SortedCut(t, key, n);
    } else {
      assert t[n..] == t;
    }
  }
}

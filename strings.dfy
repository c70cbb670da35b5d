/**
 * String operations shared by the models: ASCII case folding and trimming,
 * substring search, JavaScript/Python `replace` (all occurrences and first
 * occurrence), `split`, decimal rendering and zero padding.
 *
 * `ReplaceAll` comes with a small theory: its length, when it is the
 * identity, and a finite "no overlap" condition on the pattern and the
 * replacement under which the result contains no pattern occurrence, so that
 * a second pass changes nothing.
 */
module Strings {
  import opened Wrappers

  // ---------------------------------------------------------------- characters

  /** The ASCII whitespace that `trim()`/`strip()` and `\s` remove: space, tab, line feed, vertical tab, form feed, carriage return. */
  predicate IsSpace(c: char)
  {
    c == ' ' || c == '\t' || c == '\n' || c == '\U{000B}' || c == '\U{000C}' || c == '\r'
  }

  predicate IsDigit(c: char)
  {
    '0' <= c <= '9'
  }

  predicate IsLowerAlnum(c: char)
  {
    'a' <= c <= 'z' || IsDigit(c)
  }

  function LowerChar(c: char): char
  {
    if 'A' <= c <= 'Z' then (c as int + 32) as char else c
  }

  function UpperChar(c: char): char
  {
    if 'a' <= c <= 'z' then (c as int - 32) as char else c
  }

  /** `toUpperCase()` / `upper()` on the ASCII range. */
  function Upper(s: string): (r: string)
    ensures |r| == |s|
    ensures forall i :: 0 <= i < |s| ==> r[i] == UpperChar(s[i])
  {
    if s == [] then [] else [UpperChar(s[0])] + Upper(s[1..])
  }

  /** `endswith` / `endsWith`. */
  predicate EndsWith(s: string, suffix: string)
  {
    |suffix| <= |s| && s[|s| - |suffix|..] == suffix
  }

  /** `toLowerCase()` / `lower()` on the ASCII range. */
  function Lower(s: string): (r: string)
    ensures |r| == |s|
    ensures forall i :: 0 <= i < |s| ==> r[i] == LowerChar(s[i])
  {
    if s == [] then [] else [LowerChar(s[0])] + Lower(s[1..])
  }

  lemma LowerIdempotent(s: string)
    ensures Lower(Lower(s)) == Lower(s)
  {
  }

  lemma LowerConcat(a: string, b: string)
    ensures Lower(a + b) == Lower(a) + Lower(b)
  {
  }

  // ---------------------------------------------------------------- trimming

  function TrimStart(s: string): (r: string)
    ensures |r| <= |s| && r == s[|s| - |r|..]
    ensures r != [] ==> !IsSpace(r[0])
    decreases |s|
  {
    if s != [] && IsSpace(s[0]) then TrimStart(s[1..]) else s
  }

  function TrimEnd(s: string): (r: string)
    ensures r <= s
    ensures r != [] ==> !IsSpace(r[|r| - 1])
    decreases |s|
  {
    if s != [] && IsSpace(s[|s| - 1]) then TrimEnd(s[..|s| - 1]) else s
  }

  /** `trim()` / `strip()`: no leading or trailing whitespace remains. */
  function Trim(s: string): (r: string)
    ensures |r| <= |s|
    ensures r != [] ==> !IsSpace(r[0]) && !IsSpace(r[|r| - 1])
  {
    TrimEnd(TrimStart(s))
  }

  lemma TrimIdempotent(s: string)
    ensures Trim(Trim(s)) == Trim(s)
  {
    var r := Trim(s);
    if r != [] {
      assert TrimStart(r) == r;
      assert TrimEnd(r) == r;
    }
  }

  lemma {:induction false} TrimStartBlank(s: string)
    ensures TrimStart(s) == [] <==> forall i :: 0 <= i < |s| ==> IsSpace(s[i])
    decreases |s|
  {
    if s != [] && IsSpace(s[0]) {
      TrimStartBlank(s[1..]);
      assert forall i :: 1 <= i < |s| ==> s[i] == s[1..][i - 1];
    }
  }

  lemma {:induction false} TrimEndNonEmpty(s: string)
    requires s != [] && !IsSpace(s[0])
    ensures TrimEnd(s) != []
    decreases |s|
  {
    if IsSpace(s[|s| - 1]) {
      TrimEndNonEmpty(s[..|s| - 1]);
    }
  }

  /** `s.strip() == ''` exactly when every character is whitespace. */
  lemma TrimBlank(s: string)
    ensures Trim(s) == [] <==> forall i :: 0 <= i < |s| ==> IsSpace(s[i])
  {
    TrimStartBlank(s);
    var t := TrimStart(s);
    if t != [] {
      TrimEndNonEmpty(t);
    }
  }

  // ---------------------------------------------------------------- search

  /** `sub` occurs in `s` starting at index `i`. */
  predicate OccursAt(s: string, sub: string, i: int)
  {
    0 <= i && i + |sub| <= |s| && s[i..i + |sub|] == sub
  }

  /** `sub in s` / `s.includes(sub)`. */
  predicate Contains(s: string, sub: string)
    decreases |s|
  {
    sub <= s || (s != [] && Contains(s[1..], sub))
  }

  lemma {:induction false} ContainsAt(s: string, sub: string, i: int)
    requires OccursAt(s, sub, i)
    ensures Contains(s, sub)
    decreases i
  {
    if i == 0 {
      assert s[..|sub|] == sub;
    } else {
      assert s[1..][i - 1..i - 1 + |sub|] == s[i..i + |sub|];
      ContainsAt(s[1..], sub, i - 1);
    }
  }

  lemma {:induction false} ContainsWitness(s: string, sub: string) returns (i: nat)
    requires Contains(s, sub)
    ensures OccursAt(s, sub, i)
    decreases |s|
  {
    if sub <= s {
      i := 0;
    } else {
      var j := ContainsWitness(s[1..], sub);
      i := j + 1;
      assert s[i..i + |sub|] == s[1..][j..j + |sub|];
    }
  }

  /** Every suffix of a string that avoids `sub` avoids it too. */
  lemma {:induction false} NotContainsSuffix(s: string, sub: string, k: nat)
    requires k <= |s|
    requires !Contains(s, sub)
    ensures !Contains(s[k..], sub)
    decreases k
  {
    if k > 0 {
      assert s[1..][k - 1..] == s[k..];
      NotContainsSuffix(s[1..], sub, k - 1);
    }
  }

  lemma ContainsInPrefix(a: string, b: string, sub: string)
    requires Contains(a, sub)
    ensures Contains(a + b, sub)
  {
    var i := ContainsWitness(a, sub);
    assert (a + b)[i..i + |sub|] == a[i..i + |sub|];
    ContainsAt(a + b, sub, i);
  }

  lemma ContainsInSuffix(a: string, b: string, sub: string)
    requires Contains(b, sub)
    ensures Contains(a + b, sub)
  {
    var i := ContainsWitness(b, sub);
    assert (a + b)[|a| + i..|a| + i + |sub|] == b[i..i + |sub|];
    ContainsAt(a + b, sub, |a| + i);
  }

  /** Containment is transitive. */
  lemma ContainsMiddle(a: string, p: string, b: string)
    ensures Contains(a + p + b, p)
  {
    ContainsAt(a + p + b, p, |a|);
  }

  /** A text holds whatever starts at one of its positions. */
  lemma ContainsFrom(s: string, sub: string, k: nat)
    requires k <= |s| && sub <= s[k..]
    ensures Contains(s, sub)
  {
    assert s == s[..k] + s[k..];
    ContainsInSuffix(s[..k], s[k..], sub);
  }

  /** A pattern with a character the text lacks does not occur in it. */
  lemma NotContainsChar(s: string, p: string, k: nat)
    requires k < |p| && p[k] !in s
    ensures !Contains(s, p)
  {
    forall i | 0 <= i
      ensures !OccursAt(s, p, i)
    {
      if i + |p| <= |s| {
        assert s[i..i + |p|][k] == s[i + k];
      }
    }
    ContainsIff(s, p);
  }

  lemma ContainsTransitive(s: string, mid: string, sub: string)
    requires Contains(s, mid) && Contains(mid, sub)
    ensures Contains(s, sub)
  {
    var i := ContainsWitness(s, mid);
    var j := ContainsWitness(mid, sub);
    assert s[i + j..i + j + |sub|] == sub by {
      forall k | 0 <= k < |sub|
        ensures s[i + j..i + j + |sub|][k] == sub[k]
      {
        assert sub[k] == mid[j..j + |sub|][k] == mid[j + k];
        assert mid[j + k] == s[i..i + |mid|][j + k];
      }
    }
    ContainsAt(s, sub, i + j);
  }

  /** Index of the first occurrence of `sub` in `s` (`indexOf`, `find`). */
  function IndexOf(s: string, sub: string): (r: Option<nat>)
    ensures r.Some? ==> OccursAt(s, sub, r.value)
    ensures r.None? <==> !Contains(s, sub)
    decreases |s|
  {
    if sub <= s then
      assert s[..|sub|] == sub;
      Some(0)
    else if s == [] then None
    else
      match IndexOf(s[1..], sub)
      case None => None
      case Some(i) =>
        assert s[i + 1..i + 1 + |sub|] == s[1..][i..i + |sub|];
        Some(i + 1)
  }

  /** `IndexOf` finds the first occurrence: none starts before it. */
  lemma {:induction false} IndexOfNotBefore(s: string, sub: string, j: nat)
    requires IndexOf(s, sub).Some? && j < IndexOf(s, sub).value
    ensures !OccursAt(s, sub, j)
    decreases |s|
  {
    if j > 0 {
      IndexOfNotBefore(s[1..], sub, j - 1);
      if j + |sub| <= |s| {
        assert s[1..][j - 1..j - 1 + |sub|] == s[j..j + |sub|];
      }
    } else if |sub| <= |s| {
      assert s[0..|sub|] == s[..|sub|];
    }
  }

  /** Containment means an occurrence at some index. */
  lemma ContainsIff(s: string, sub: string)
    ensures Contains(s, sub) <==> exists i :: 0 <= i && OccursAt(s, sub, i)
  {
    if Contains(s, sub) {
      var i := ContainsWitness(s, sub);
    }
    if exists i :: 0 <= i && OccursAt(s, sub, i) {
      var i :| 0 <= i && OccursAt(s, sub, i);
      ContainsAt(s, sub, i);
    }
  }

  /** An occurrence with none before it is the one `IndexOf` finds. */
  lemma IndexOfFirst(s: string, sub: string, i: nat)
    requires OccursAt(s, sub, i)
    requires forall j :: 0 <= j < i ==> !OccursAt(s, sub, j)
    ensures IndexOf(s, sub) == Some(i)
  {
    ContainsAt(s, sub, i);
    var k := IndexOf(s, sub).value;
    if k > i {
      IndexOfNotBefore(s, sub, i);
    }
  }

  /** The text before the first occurrence does not contain the pattern. */
  lemma NotContainsBeforeFirst(s: string, sub: string)
    requires sub != [] && IndexOf(s, sub).Some?
    ensures !Contains(s[..IndexOf(s, sub).value], sub)
  {
    var q := IndexOf(s, sub).value;
    forall j | 0 <= j
      ensures !OccursAt(s[..q], sub, j)
    {
      if j + |sub| <= q {
        assert s[..q][j..j + |sub|] == s[j..j + |sub|];
        IndexOfNotBefore(s, sub, j);
      }
    }
    ContainsIff(s[..q], sub);
  }

  /** Python's `s.partition(sub)` when `sub` occurs: the text before its first occurrence and the text after it. */
  function SplitOnce(s: string, sub: string): (r: Option<(string, string)>)
    requires sub != []
    ensures r.Some? ==> s == r.value.0 + sub + r.value.1 && !Contains(r.value.0, sub)
    ensures r.None? <==> !Contains(s, sub)
  {
    match IndexOf(s, sub)
    case None => None
    case Some(i) =>
      NotContainsBeforeFirst(s, sub);
      assert s == s[..i] + sub + s[i + |sub|..];
      Some((s[..i], s[i + |sub|..]))
  }

  /** Where the first occurrence is right after `a`, the split gives back `a` and what follows. */
  lemma SplitOnceAt(a: string, sub: string, b: string)
    requires sub != [] && IndexOf(a + sub + b, sub) == Some(|a|)
    ensures SplitOnce(a + sub + b, sub) == Some((a, b))
  {
    var s := a + sub + b;
    assert s[..|a|] == a && s[|a| + |sub|..] == b;
  }

  /** A one-character separator first occurs right after a prefix that lacks it. */
  lemma SplitOnceChar(a: string, c: char, b: string)
    requires c !in a
    ensures SplitOnce(a + [c] + b, [c]) == Some((a, b))
  {
    var s := a + [c] + b;
    assert s[|a|..|a| + 1] == [c];
    forall j | 0 <= j < |a|
      ensures !OccursAt(s, [c], j)
    {
      assert s[j..j + 1] == [a[j]];
    }
    IndexOfFirst(s, [c], |a|);
    SplitOnceAt(a, [c], b);
  }

  /** A pattern whose first character does not recur in it cannot start inside its own copy. */
  lemma NoStraddle(a: string, p: string, b: string, j: nat)
    requires p != [] && p[0] !in p[1..]
    requires j < |a| < j + |p|
    ensures !OccursAt(a + p + b, p, j)
  {
    var s := a + p + b;
    var d := |a| - j;
    assert s[|a|] == p[0];
    assert p[d] == p[1..][d - 1];
    if j + |p| <= |s| {
      assert s[j..j + |p|][d] == s[|a|];
    }
  }

  /** Such a pattern, placed after a text that lacks it, is the first occurrence. */
  lemma SplitOnceAfter(a: string, p: string, b: string)
    requires p != [] && p[0] !in p[1..] && !Contains(a, p)
    ensures SplitOnce(a + p + b, p) == Some((a, b))
  {
    var s := a + p + b;
    assert s[|a|..|a| + |p|] == p;
    ContainsIff(a, p);
    forall j | 0 <= j < |a|
      ensures !OccursAt(s, p, j)
    {
      if j + |p| <= |a| {
        assert s[j..j + |p|] == a[j..j + |p|];
        assert !OccursAt(a, p, j);
      } else {
        NoStraddle(a, p, b, j);
      }
    }
    IndexOfFirst(s, p, |a|);
    SplitOnceAt(a, p, b);
  }

  /** For a one-character pattern, containment is membership. */
  lemma ContainsChar(s: string, c: char)
    ensures Contains(s, [c]) <==> c in s
  {
    if c in s {
      var i :| 0 <= i < |s| && s[i] == c;
      assert s[i..i + 1] == [c];
      ContainsAt(s, [c], i);
    }
    if Contains(s, [c]) {
      var i := ContainsWitness(s, [c]);
      assert s[i] == s[i..i + 1][0];
    }
  }

  /** A text that lacks the first character of a pattern lacks the pattern. */
  lemma NotContainsFirstChar(x: string, p: string)
    requires p != [] && p[0] !in x
    ensures !Contains(x, p)
  {
    forall j | 0 <= j
      ensures !OccursAt(x, p, j)
    {
      if j + |p| <= |x| {
        assert x[j..j + |p|][0] == x[j];
      }
    }
    ContainsIff(x, p);
  }

  /** Joining two texts that lack a pattern cannot form it when the pattern lacks the joint's second character. */
  lemma NotContainsConcat(a: string, x: string, p: string)
    requires p != [] && x != [] && x[0] !in p
    requires !Contains(a, p) && !Contains(x, p)
    ensures !Contains(a + x, p)
  {
    var s := a + x;
    ContainsIff(a, p);
    ContainsIff(x, p);
    forall j | 0 <= j
      ensures !OccursAt(s, p, j)
    {
      if j + |p| <= |a| {
        assert s[j..j + |p|] == a[j..j + |p|];
        assert !OccursAt(a, p, j);
      } else if j >= |a| {
        if j + |p| <= |s| {
          assert s[j..j + |p|] == x[j - |a|..j - |a| + |p|];
        }
        assert !OccursAt(x, p, j - |a|);
      } else if j + |p| <= |s| {
        assert s[j..j + |p|][|a| - j] == x[0];
      }
    }
    ContainsIff(s, p);
  }

  // ---------------------------------------------------------------- replace

  /** `s.replace(pat, rep)` in Python; `s.replace(/pat/g, rep)` in JavaScript. */
  function ReplaceAll(s: string, pat: string, rep: string): string
    requires pat != []
    decreases |s|
  {
    if s == [] then []
    else if pat <= s then rep + ReplaceAll(s[|pat|..], pat, rep)
    else [s[0]] + ReplaceAll(s[1..], pat, rep)
  }

  /** `s.count(pat)` in Python: leftmost, non-overlapping occurrences. */
  function CountMatches(s: string, pat: string): nat
    requires pat != []
    decreases |s|
  {
    if s == [] then 0
    else if pat <= s then 1 + CountMatches(s[|pat|..], pat)
    else CountMatches(s[1..], pat)
  }

  /** Replacing a character leaves a leading text without it alone. */
  lemma {:induction false} ReplaceAllCharSkip(a: string, b: string, c: char, rep: string)
    requires c !in a
    ensures ReplaceAll(a + b, [c], rep) == a + ReplaceAll(b, [c], rep)
    decreases |a|
  {
    if a != [] {
      assert (a + b)[0] == a[0];
      assert (a + b)[1..] == a[1..] + b;
      ReplaceAllCharSkip(a[1..], b, c, rep);
    } else {
      assert a + b == b;
    }
  }

  /** Replacing every `c` by a text without `c` leaves no `c`. */
  lemma {:induction false} ReplaceAllCharGone(s: string, c: char, rep: string)
    requires c !in rep
    ensures c !in ReplaceAll(s, [c], rep)
    decreases |s|
  {
    if s != [] {
      if [c] <= s {
        ReplaceAllCharGone(s[1..], c, rep);
      } else {
        ReplaceAllCharGone(s[1..], c, rep);
        assert s[0] != c;
      }
    }
  }

  /** `re.sub(pat, rep, s, count=1)` with a literal pattern; JavaScript `replace` with a string pattern. */
  function ReplaceFirst(s: string, pat: string, rep: string): string
    requires pat != []
    decreases |s|
  {
    if s == [] then []
    else if pat <= s then rep + s[|pat|..]
    else [s[0]] + ReplaceFirst(s[1..], pat, rep)
  }

  lemma {:induction false} ReplaceAllNoMatch(s: string, pat: string, rep: string)
    requires pat != [] && !Contains(s, pat)
    ensures ReplaceAll(s, pat, rep) == s
    decreases |s|
  {
    if s != [] {
      ReplaceAllNoMatch(s[1..], pat, rep);
    }
  }

  lemma {:induction false} ReplaceFirstNoMatch(s: string, pat: string, rep: string)
    requires pat != [] && !Contains(s, pat)
    ensures ReplaceFirst(s, pat, rep) == s
    decreases |s|
  {
    if s != [] {
      ReplaceFirstNoMatch(s[1..], pat, rep);
    }
  }

  /** Each replaced occurrence changes the length by `|rep| - |pat|`. */
  lemma {:induction false} ReplaceAllLength(s: string, pat: string, rep: string)
    requires pat != []
    ensures |ReplaceAll(s, pat, rep)| == |s| + CountMatches(s, pat) * (|rep| - |pat|)
    decreases |s|
  {
    if s == [] {
    } else if pat <= s {
      var t := s[|pat|..];
      ReplaceAllLength(t, pat, rep);
      ReplaceAllMatchStep(s, pat, rep);
      MatchLength(|t|, |pat|, |rep|, CountMatches(t, pat), |ReplaceAll(t, pat, rep)|);
    } else {
      ReplaceAllLength(s[1..], pat, rep);
      ReplaceAllStep(s, pat, rep);
    }
  }

  lemma ReplaceAllMatchStep(s: string, pat: string, rep: string)
    requires pat != [] && s != [] && pat <= s
    ensures ReplaceAll(s, pat, rep) == rep + ReplaceAll(s[|pat|..], pat, rep)
    ensures |s| == |pat| + |s[|pat|..]|
    ensures CountMatches(s, pat) == 1 + CountMatches(s[|pat|..], pat)
  {
  }

  lemma MatchLength(t: int, p: int, r: int, c: int, l: int)
    requires l == t + c * (r - p)
    ensures r + l == (p + t) + (1 + c) * (r - p)
  {
    assert (1 + c) * (r - p) == (r - p) + c * (r - p);
  }

  lemma {:induction false} CountMatchesPositive(s: string, pat: string)
    requires pat != []
    ensures CountMatches(s, pat) > 0 <==> Contains(s, pat)
    decreases |s|
  {
    if s != [] && !(pat <= s) {
      CountMatchesPositive(s[1..], pat);
    }
  }

  /** A replacement whose length differs from the pattern's changes every text that holds the pattern. */
  lemma ReplaceAllChanges(s: string, pat: string, rep: string)
    requires pat != [] && |rep| != |pat|
    ensures ReplaceAll(s, pat, rep) == s <==> !Contains(s, pat)
  {
    ReplaceAllLength(s, pat, rep);
    CountMatchesPositive(s, pat);
    if Contains(s, pat) {
      ProductNonZero(CountMatches(s, pat), |rep| - |pat|);
    } else {
      ReplaceAllNoMatch(s, pat, rep);
    }
  }

  lemma ProductNonZero(c: int, d: int)
    requires c > 0 && d != 0
    ensures c * d != 0
  {
    if d > 0 {
      assert c * d >= d;
    } else {
      assert c * d <= d;
    }
  }

  /** Replacing the first occurrence splices `rep` in at `IndexOf(s, pat)`. */
  lemma {:induction false} ReplaceFirstAt(s: string, pat: string, rep: string)
    requires pat != [] && IndexOf(s, pat).Some?
    ensures var i := IndexOf(s, pat).value;
      ReplaceFirst(s, pat, rep) == s[..i] + rep + s[i + |pat|..]
    decreases |s|
  {
    if !(pat <= s) {
      var i := IndexOf(s[1..], pat).value;
      ReplaceFirstAt(s[1..], pat, rep);
      assert s[1..][i + |pat|..] == s[i + 1 + |pat|..];
      assert [s[0]] + s[1..][..i] == s[..i + 1];
    }
  }

  /** Replacing all occurrences splices `rep` in at the first one and carries on after it. */
  lemma {:induction false} ReplaceAllAt(s: string, pat: string, rep: string, i: nat)
    requires pat != [] && IndexOf(s, pat) == Some(i)
    ensures ReplaceAll(s, pat, rep) == s[..i] + rep + ReplaceAll(s[i + |pat|..], pat, rep)
    decreases |s|
  {
    if pat <= s {
      assert i == 0 && s[..0] == [];
    } else {
      IndexOfStep(s, pat, i);
      var t, j := s[1..], i - 1;
      ReplaceAllAt(t, pat, rep, j);
      ReplaceAllStep(s, pat, rep);
      assert t[j + |pat|..] == s[i + |pat|..];
      ConsPrefix(s, i);
      ConsAssoc(s[0], t[..j], rep, ReplaceAll(t[j + |pat|..], pat, rep));
    }
  }

  /** `a` is a prefix of `a + b`, and what follows it is `b`. */
  lemma PrefixRest(a: string, b: string)
    ensures a <= a + b && (a + b)[|a|..] == b
  {
  }

  /** A string that starts with `a` is `a` followed by the rest. */
  lemma PrefixSplit(a: string, x: string)
    requires a <= x
    ensures x == a + x[|a|..]
  {
  }

  /** Inserting `ins` after a `tag` found at `i` is cutting the string where the tag ends. */
  lemma SpliceAfter(s: string, i: nat, tag: string, ins: string, rest: string)
    requires i <= |s| && s[i..] == tag + rest
    ensures i + |tag| <= |s|
    ensures s[..i] + (tag + ins) + rest == s[..i + |tag|] + ins + s[i + |tag|..]
  {
    assert s == s[..i] + tag + rest;
    assert s[..i + |tag|] == s[..i] + tag;
    assert s[i + |tag|..] == rest;
  }

  /** A prefix of a suffix is a slice. */
  lemma SliceOfSuffix(s: string, i: nat, n: nat)
    requires i + n <= |s|
    ensures s[i..][..n] == s[i..i + n]
  {
  }

  lemma ConsPrefix(s: string, i: nat)
    requires 1 <= i <= |s|
    ensures s[..i] == [s[0]] + s[1..][..i - 1]
  {
  }

  lemma ConsAssoc(c: char, a: string, b: string, d: string)
    ensures [c] + (a + b + d) == ([c] + a) + b + d
  {
  }

  /** Splitting an inserted piece in two leaves the text unchanged. */
  lemma Regroup(a: string, b: string, c: string, d: string)
    ensures a + (b + c) + d == a + b + c + d
  {
  }

  lemma IndexOfStep(s: string, pat: string, i: nat)
    requires IndexOf(s, pat) == Some(i) && !(pat <= s)
    ensures s != [] && i >= 1 && IndexOf(s[1..], pat) == Some(i - 1)
  {
  }

  lemma ReplaceAllStep(s: string, pat: string, rep: string)
    requires pat != [] && s != [] && !(pat <= s)
    ensures ReplaceAll(s, pat, rep) == [s[0]] + ReplaceAll(s[1..], pat, rep)
    ensures CountMatches(s, pat) == CountMatches(s[1..], pat)
  {
  }

  /** A pattern whose first character is absent from `q` cannot start inside `q`, so a leading `q` survives. */
  lemma {:induction false} ReplaceAllKeepsPrefix(t: string, q: string, pat: string, rep: string)
    requires pat != [] && pat[0] !in q && q <= t
    ensures q <= ReplaceAll(t, pat, rep)
    decreases |t|
  {
    if q != [] {
      assert t[0] == q[0];
      assert !(pat <= t);
      ReplaceAllKeepsPrefix(t[1..], q[1..], pat, rep);
    }
  }

  /**
   * When neither of `pat` and `q` can start inside the other, every
   * occurrence of `q` outlives the replacement of `pat`.
   */
  lemma {:induction false} ReplaceAllKeeps(s: string, q: string, pat: string, rep: string, i: nat)
    requires pat != [] && q != [] && pat[0] !in q && q[0] !in pat
    requires OccursAt(s, q, i)
    ensures Contains(ReplaceAll(s, pat, rep), q)
    decreases |s|
  {
    if i == 0 {
      assert q <= s;
      ReplaceAllKeepsPrefix(s, q, pat, rep);
    } else if pat <= s {
      OccurrenceAfterMatch(s, q, pat, i);
      OccursShift(s, q, i, |pat|);
      ReplaceAllKeeps(s[|pat|..], q, pat, rep, i - |pat|);
      ReplaceAllMatchStep(s, pat, rep);
      ContainsInSuffix(rep, ReplaceAll(s[|pat|..], pat, rep), q);
    } else {
      OccursShift(s, q, i, 1);
      ReplaceAllKeeps(s[1..], q, pat, rep, i - 1);
      ReplaceAllStep(s, pat, rep);
      ContainsInSuffix([s[0]], ReplaceAll(s[1..], pat, rep), q);
    }
  }

  /** An occurrence of `q` cannot start inside a leading `pat` when `q[0]` is not in `pat`. */
  lemma OccurrenceAfterMatch(s: string, q: string, pat: string, i: nat)
    requires q != [] && q[0] !in pat && pat <= s && OccursAt(s, q, i)
    ensures i >= |pat|
  {
    assert s[i] == q[0];
  }

  lemma OccursShift(s: string, q: string, i: nat, k: nat)
    requires OccursAt(s, q, i) && k <= i
    ensures OccursAt(s[k..], q, i - k)
  {
    assert s[k..][i - k..i - k + |q|] == s[i..i + |q|];
  }

  /** Replacing a pattern that occurs puts the replacement in the text. */
  lemma ReplaceAllInserts(s: string, pat: string, rep: string)
    requires pat != [] && Contains(s, pat)
    ensures Contains(ReplaceAll(s, pat, rep), rep)
  {
    var i := IndexOf(s, pat).value;
    ReplaceAllAt(s, pat, rep, i);
    OccursInMiddle(s[..i], rep, ReplaceAll(s[i + |pat|..], pat, rep));
    ContainsAt(ReplaceAll(s, pat, rep), rep, i);
  }

  lemma OccursInMiddle(a: string, b: string, c: string)
    ensures OccursAt(a + b + c, b, |a|)
  {
    assert (a + b + c)[|a|..|a| + |b|] == b;
  }

  // ---------------------------------------------------------------- overlap

  /** One of the two strings is a prefix of the other. */
  predicate Compatible(a: string, b: string)
  {
    a <= b || b <= a
  }

  /**
   * `q` cannot occur across or inside a copy of `rep`: no suffix of `rep`
   * (itself included) is compatible with `q`, and no proper suffix of `q` is
   * compatible with `rep`.
   */
  ghost predicate NoOverlap(q: string, rep: string)
  {
    rep != [] &&
    (forall j :: 0 <= j < |rep| ==> !Compatible(rep[j..], q)) &&
    (forall d :: 1 <= d < |q| ==> !Compatible(q[d..], rep))
  }

  /** Computable form of the first half of `NoOverlap`. */
  predicate SuffixesClear(x: string, q: string)
    decreases |x|
  {
    x == [] || (!Compatible(x, q) && SuffixesClear(x[1..], q))
  }

  /** Computable form of the second half of `NoOverlap`. */
  predicate ProperSuffixesClear(x: string, rep: string)
    decreases |x|
  {
    |x| <= 1 || (!Compatible(x[1..], rep) && ProperSuffixesClear(x[1..], rep))
  }

  lemma {:induction false} SuffixesClearSound(x: string, q: string)
    requires SuffixesClear(x, q)
    ensures forall j :: 0 <= j < |x| ==> !Compatible(x[j..], q)
    decreases |x|
  {
    if x != [] {
      SuffixesClearSound(x[1..], q);
      assert forall j :: 1 <= j < |x| ==> x[j..] == x[1..][j - 1..];
    }
  }

  lemma {:induction false} ProperSuffixesClearSound(x: string, rep: string)
    requires ProperSuffixesClear(x, rep)
    ensures forall d :: 1 <= d < |x| ==> !Compatible(x[d..], rep)
    decreases |x|
  {
    if |x| > 1 {
      ProperSuffixesClearSound(x[1..], rep);
      assert forall d :: 2 <= d < |x| ==> x[d..] == x[1..][d - 1..];
    }
  }

  lemma NoOverlapByCheck(q: string, rep: string)
    requires rep != [] && SuffixesClear(rep, q) && ProperSuffixesClear(q, rep)
    ensures NoOverlap(q, rep)
  {
    SuffixesClearSound(rep, q);
    ProperSuffixesClearSound(q, rep);
  }

  /** A prefix of a concatenation is a prefix of its first part, or extends it into the second. */
  lemma PrefixOfConcat(q: string, a: string, b: string)
    ensures q <= a + b && |q| <= |a| ==> q <= a
    ensures q <= a + b && |q| > |a| ==> a <= q && q[|a|..] <= b
  {
    if q <= a + b {
      if |q| <= |a| {
        assert q == (a + b)[..|q|] == a[..|q|];
      } else {
        assert a == (a + b)[..|a|] == q[..|a|];
        assert q[|a|..] == (a + b)[|a|..|q|] == b[..|q| - |a|];
      }
    }
  }

  /** A text whose every suffix-start in `a` is incompatible with `q` adds no occurrence of `q` in front of `y`. */
  lemma {:induction false} NoStartInside(a: string, y: string, q: string)
    requires !Contains(y, q)
    requires forall j :: 0 <= j < |a| ==> !Compatible(a[j..], q)
    ensures !Contains(a + y, q)
    decreases |a|
  {
    if a == [] {
      assert a + y == y;
    } else {
      assert forall j :: 0 <= j < |a| - 1 ==> a[1..][j..] == a[j + 1..];
      NoStartInside(a[1..], y, q);
      assert (a + y)[1..] == a[1..] + y;
      assert !Compatible(a[0..], q);
      assert a[0..] == a;
      if q <= a + y {
        PrefixOfConcat(q, a, y);
      }
    }
  }

  /** `q` does not start the replaced text when it does not start the original. */
  lemma FirstNotQ(s: string, pat: string, rep: string, q: string)
    requires pat != [] && q != [] && NoOverlap(q, rep)
    requires !(q <= s)
    ensures !(q <= ReplaceAll(s, pat, rep))
  {
    match IndexOf(s, pat)
    case None =>
      ReplaceAllNoMatch(s, pat, rep);
    case Some(i) =>
      ReplaceAllAt(s, pat, rep, i);
      var rest := ReplaceAll(s[i + |pat|..], pat, rep);
      var head, tail := s[..i], rep + rest;
      assert ReplaceAll(s, pat, rep) == head + tail;
      PrefixOfConcat(q, head, tail);
      assert head <= s;
      if |q| > i {
        PrefixOfConcat(q[i..], rep, rest);
        assert rep[0..] == rep && q[0..] == q;
      }
  }

  /**
   * Under `NoOverlap(q, rep)`, replacing `pat` by `rep` leaves no occurrence of
   * `q`, when `q` is the pattern itself or did not occur before.
   */
  lemma {:induction false} ReplaceAllAvoids(s: string, pat: string, rep: string, q: string)
    requires pat != [] && q != [] && NoOverlap(q, rep)
    requires q == pat || !Contains(s, q)
    ensures !Contains(ReplaceAll(s, pat, rep), q)
    decreases |s|
  {
    if s == [] {
    } else if pat <= s {
      var t := s[|pat|..];
      if q != pat {
        NotContainsSuffix(s, q, |pat|);
      }
      ReplaceAllAvoids(t, pat, rep, q);
      NoStartInside(rep, ReplaceAll(t, pat, rep), q);
    } else {
      if q != pat {
        NotContainsSuffix(s, q, 1);
      }
      ReplaceAllAvoids(s[1..], pat, rep, q);
      FirstNotQ(s, pat, rep, q);
      var r := ReplaceAll(s, pat, rep);
      assert r[1..] == ReplaceAll(s[1..], pat, rep);
    }
  }

  /**
   * A cheap sufficient condition for `NoOverlap`: no two-character window of
   * either string (past its first position) repeats the other's first two
   * characters, neither ends with the other's first character, and the two
   * differ at some index `k`.
   */
  lemma NoOverlapByPairs(q: string, rep: string, k: nat)
    requires |q| >= 2 && |rep| >= 2
    requires k < |q| && k < |rep| && q[k] != rep[k]
    requires forall d :: 1 <= d < |q| - 1 ==> !(q[d] == rep[0] && q[d + 1] == rep[1])
    requires q[|q| - 1] != rep[0]
    requires forall j :: 1 <= j < |rep| - 1 ==> !(rep[j] == q[0] && rep[j + 1] == q[1])
    requires rep[|rep| - 1] != q[0]
    ensures NoOverlap(q, rep)
  {
    forall j | 0 <= j < |rep|
      ensures !Compatible(rep[j..], q)
    {
      if j == 0 {
        assert rep[0..] == rep;
      } else if j == |rep| - 1 {
        assert rep[j..][0] == rep[j];
      } else {
        assert rep[j..][0] == rep[j] && rep[j..][1] == rep[j + 1];
      }
    }
    forall d | 1 <= d < |q|
      ensures !Compatible(q[d..], rep)
    {
      if d == |q| - 1 {
        assert q[d..][0] == q[d];
      } else {
        assert q[d..][0] == q[d] && q[d..][1] == q[d + 1];
      }
    }
  }

  /**
   * A variant of `NoOverlapByPairs` for long strings: each string's second
   * character occurs in the other only before index 2.
   */
  lemma NoOverlapByChars(q: string, rep: string, k: nat)
    requires |q| >= 2 && |rep| >= 2
    requires k < |q| && k < |rep| && q[k] != rep[k]
    requires rep[1] !in q[2..] && q[|q| - 1] != rep[0]
    requires q[1] !in rep[2..] && rep[|rep| - 1] != q[0]
    ensures NoOverlap(q, rep)
  {
    forall d | 2 <= d < |q|
      ensures q[d] != rep[1]
    {
      assert q[d] == q[2..][d - 2];
    }
    forall j | 2 <= j < |rep|
      ensures rep[j] != q[1]
    {
      assert rep[j] == rep[2..][j - 2];
    }
    NoOverlapByPairs(q, rep, k);
  }

  /** `c` occurs in `x` at most at its start. */
  ghost predicate OnlyAtStart(x: string, c: char)
  {
    forall i :: 1 <= i < |x| ==> x[i] != c
  }

  /** Past its start, `x` never has `a` followed by `b`. */
  ghost predicate PairOnlyAtStart(x: string, a: char, b: char)
  {
    forall i :: 1 <= i < |x| - 1 && x[i] == a ==> x[i + 1] != b
  }

  /**
   * No proper suffix of `x` is compatible with `y` when `y[0]` occurs in
   * `x` only at its start, or when `x` does not end in `y[0]` and past its
   * start never has `y[0]` followed by `y[1]`, or when `x`'s last character
   * is not in `y` and some character `y[n]` is not in `x`.
   */
  lemma ProperSuffixesApart(x: string, y: string, n: nat)
    requires x != [] && y != []
    requires OnlyAtStart(x, y[0]) ||
             (|y| >= 2 && x[|x| - 1] != y[0] && PairOnlyAtStart(x, y[0], y[1])) ||
             (x[|x| - 1] !in y && n < |y| && y[n] !in x)
    ensures forall j :: 1 <= j < |x| ==> !Compatible(x[j..], y)
  {
    forall j | 1 <= j < |x|
      ensures !Compatible(x[j..], y)
    {
      assert x[j..][0] == x[j];
      assert x[j..][|x| - 1 - j] == x[|x| - 1];
      if j < |x| - 1 {
        assert x[j..][1] == x[j + 1];
      }
      if n < |x| - j {
        assert x[j..][n] == x[j + n];
      }
    }
  }

  /** `NoOverlap` from a differing index and `ProperSuffixesApart` in both directions. */
  lemma NoOverlapByEnds(q: string, rep: string, k: nat, m: nat, n: nat)
    requires k < |q| && k < |rep| && q[k] != rep[k]
    requires OnlyAtStart(rep, q[0]) ||
             (|q| >= 2 && rep[|rep| - 1] != q[0] && PairOnlyAtStart(rep, q[0], q[1])) ||
             (rep[|rep| - 1] !in q && n < |q| && q[n] !in rep)
    requires OnlyAtStart(q, rep[0]) ||
             (|rep| >= 2 && q[|q| - 1] != rep[0] && PairOnlyAtStart(q, rep[0], rep[1])) ||
             (q[|q| - 1] !in rep && m < |rep| && rep[m] !in q)
    ensures NoOverlap(q, rep)
  {
    ProperSuffixesApart(rep, q, n);
    ProperSuffixesApart(q, rep, m);
    assert rep[0..] == rep;
  }

  /** Two prefixes of one text are compatible. */
  lemma PrefixesCompatible(t: string, a: string, b: string)
    requires a <= t && b <= t
    ensures Compatible(a, b)
  {
    if |a| <= |b| {
      assert a == t[..|a|] == b[..|a|];
    } else {
      assert b == t[..|b|] == a[..|b|];
    }
  }

  /** A leading `q` no match of `pat` can start inside survives the replacement of `pat`. */
  lemma {:induction false} ReplaceAllKeepsClearPrefix(t: string, q: string, pat: string, rep: string)
    requires pat != [] && q <= t
    requires forall d :: 0 <= d < |q| ==> !Compatible(q[d..], pat)
    ensures q <= ReplaceAll(t, pat, rep)
    decreases |q|
  {
    if q != [] {
      assert q[0..] == q;
      if pat <= t {
        PrefixesCompatible(t, q, pat);
      }
      forall d | 0 <= d < |q| - 1
        ensures !Compatible(q[1..][d..], pat)
      {
        assert q[1..][d..] == q[d + 1..];
      }
      ReplaceAllKeepsClearPrefix(t[1..], q[1..], pat, rep);
      ReplaceAllStep(t, pat, rep);
    }
  }

  /**
   * Under `NoOverlap(q, pat)` no match of `pat` can overlap an occurrence
   * of `q`, so every occurrence of `q` outlives the replacement of `pat`.
   */
  lemma {:induction false} ReplaceAllPreserves(s: string, q: string, pat: string, rep: string, i: nat)
    requires q != [] && NoOverlap(q, pat)
    requires OccursAt(s, q, i)
    ensures Contains(ReplaceAll(s, pat, rep), q)
    decreases |s|
  {
    if i == 0 {
      assert q <= s;
      forall d | 0 <= d < |q|
        ensures !Compatible(q[d..], pat)
      {
        if d == 0 {
          assert q[0..] == q && pat[0..] == pat;
        }
      }
      ReplaceAllKeepsClearPrefix(s, q, pat, rep);
      ContainsAt(ReplaceAll(s, pat, rep), q, 0);
    } else if pat <= s {
      if i < |pat| {
        assert q <= s[i..] && pat[i..] <= s[i..];
        PrefixesCompatible(s[i..], q, pat[i..]);
      }
      OccursShift(s, q, i, |pat|);
      ReplaceAllPreserves(s[|pat|..], q, pat, rep, i - |pat|);
      ReplaceAllMatchStep(s, pat, rep);
      ContainsInSuffix(rep, ReplaceAll(s[|pat|..], pat, rep), q);
    } else {
      OccursShift(s, q, i, 1);
      ReplaceAllPreserves(s[1..], q, pat, rep, i - 1);
      ReplaceAllStep(s, pat, rep);
      ContainsInSuffix([s[0]], ReplaceAll(s[1..], pat, rep), q);
    }
  }

  /** `Contains` form of `ReplaceAllPreserves`. */
  lemma ReplaceAllKeepsText(s: string, q: string, pat: string, rep: string)
    requires q != [] && NoOverlap(q, pat) && Contains(s, q)
    ensures Contains(ReplaceAll(s, pat, rep), q)
  {
    var i := ContainsWitness(s, q);
    ReplaceAllPreserves(s, q, pat, rep, i);
  }

  /** Index of the last occurrence of `c` in `s` (`rfind`). */
  function LastIndexOf(s: string, c: char): (r: Option<nat>)
    ensures r.Some? ==> r.value < |s| && s[r.value] == c && c !in s[r.value + 1..]
    ensures r.None? ==> c !in s
    decreases |s|
  {
    if s == [] then None
    else if s[|s| - 1] == c then Some(|s| - 1)
    else
      match LastIndexOf(s[..|s| - 1], c)
      case None => None
      case Some(i) =>
        assert s[i + 1..] == s[..|s| - 1][i + 1..] + [s[|s| - 1]];
        Some(i)
  }

  /** The last occurrence is the one with no occurrence after it. */
  /** `os.path.basename`: the text after the last `/`, or the whole path without one; `Path.name` too, for a path not ending in `/`. */
  function Basename(path: string): (r: string)
    ensures '/' !in r && |r| <= |path| && r == path[|path| - |r|..]
    ensures |r| < |path| ==> path[|path| - |r| - 1] == '/'
  {
    match LastIndexOf(path, '/')
    case None => path
    case Some(i) => path[i + 1..]
  }

  lemma LastIndexOfAt(s: string, c: char, i: nat)
    requires i < |s| && s[i] == c && c !in s[i + 1..]
    ensures LastIndexOf(s, c) == Some(i)
  {
    var j := LastIndexOf(s, c).value;
    forall k | i < k < |s|
      ensures s[k] != c
    {
      assert s[k] == s[i + 1..][k - i - 1];
    }
    forall k | j < k < |s|
      ensures s[k] != c
    {
      assert s[k] == s[j + 1..][k - j - 1];
    }
  }

  /** With a non-overlapping replacement, a second `replace` pass changes nothing. */
  lemma ReplaceAllIdempotent(s: string, pat: string, rep: string)
    requires pat != [] && NoOverlap(pat, rep)
    ensures ReplaceAll(ReplaceAll(s, pat, rep), pat, rep) == ReplaceAll(s, pat, rep)
  {
    ReplaceAllAvoids(s, pat, rep, pat);
    ReplaceAllNoMatch(ReplaceAll(s, pat, rep), pat, rep);
  }

  // ---------------------------------------------------------------- split / join

  /** `s.split(sep)` for a one-character separator (JavaScript and Python agree). */
  function Split(s: string, sep: char): (r: seq<string>)
    ensures |r| >= 1
    ensures forall k :: 0 <= k < |r| ==> sep !in r[k]
    decreases |s|
  {
    if s == [] then [[]]
    else if s[0] == sep then [[]] + Split(s[1..], sep)
    else
      var rest := Split(s[1..], sep);
      [[s[0]] + rest[0]] + rest[1..]
  }

  function Join(parts: seq<string>, sep: string): string
  {
    if parts == [] then []
    else if |parts| == 1 then parts[0]
    else parts[0] + sep + Join(parts[1..], sep)
  }

  lemma {:induction false} SplitJoin(s: string, sep: char)
    ensures Join(Split(s, sep), [sep]) == s
    decreases |s|
  {
    if s != [] {
      SplitJoin(s[1..], sep);
      if s[0] != sep {
        var rest := Split(s[1..], sep);
        if |rest| > 1 {
          assert rest == [rest[0]] + rest[1..];
          assert Join(rest, [sep]) == rest[0] + [sep] + Join(rest[1..], [sep]);
        }
      }
    }
  }

  /** A text without the separator splits into itself. */
  lemma {:induction false} SplitNoSep(a: string, sep: char)
    requires sep !in a
    ensures Split(a, sep) == [a]
    decreases |a|
  {
    if a != [] {
      SplitNoSep(a[1..], sep);
      assert [a[0]] + a[1..] == a;
    }
  }

  /** A separator after a separator-free text closes the first field. */
  lemma {:induction false} SplitAfter(a: string, b: string, sep: char)
    requires sep !in a
    ensures Split(a + [sep] + b, sep) == [a] + Split(b, sep)
    decreases |a|
  {
    var s := a + [sep] + b;
    if a == [] {
      assert s[1..] == b;
    } else {
      assert s[1..] == a[1..] + [sep] + b;
      SplitAfter(a[1..], b, sep);
      assert [a[0]] + a[1..] == a;
    }
  }

  /** Joining separator-free parts and splitting again gives the parts back. */
  lemma {:induction false} JoinSplit(parts: seq<string>, sep: char)
    requires parts != []
    requires forall k :: 0 <= k < |parts| ==> sep !in parts[k]
    ensures Split(Join(parts, [sep]), sep) == parts
  {
    if |parts| == 1 {
      SplitNoSep(parts[0], sep);
    } else {
      JoinSplit(parts[1..], sep);
      SplitAfter(parts[0], Join(parts[1..], [sep]), sep);
      assert parts == [parts[0]] + parts[1..];
    }
  }

  /** The first field of `split(sep)` is the text before the first separator. */
  lemma {:induction false} SplitHead(s: string, sep: char)
    ensures Split(s, sep)[0] <= s
    ensures |Split(s, sep)[0]| == |s| || s[|Split(s, sep)[0]|] == sep
    decreases |s|
  {
    if s != [] && s[0] != sep {
      SplitHead(s[1..], sep);
    }
  }

  /** A character in no part and not in the separator is not in the joined text. */
  lemma {:induction false} CharNotInJoin(parts: seq<string>, sep: string, c: char)
    requires c !in sep
    requires forall k :: 0 <= k < |parts| ==> c !in parts[k]
    ensures c !in Join(parts, sep)
  {
    if |parts| > 1 {
      CharNotInJoin(parts[1..], sep, c);
    }
  }

  /** The joined text begins with the first part and ends with the last. */
  lemma {:induction false} JoinEnds(parts: seq<string>, sep: string)
    requires |parts| >= 1
    ensures parts[0] <= Join(parts, sep)
    ensures |parts[|parts| - 1]| <= |Join(parts, sep)|
    ensures Join(parts, sep)[|Join(parts, sep)| - |parts[|parts| - 1]|..] == parts[|parts| - 1]
  {
    if |parts| > 1 {
      JoinEnds(parts[1..], sep);
      var rest := Join(parts[1..], sep);
      assert Join(parts, sep) == parts[0] + (sep + rest);
    }
  }

  /** A text contained in one part is contained in the joined text. */
  lemma {:induction false} ContainsInJoin(parts: seq<string>, sep: string, k: nat, sub: string)
    requires k < |parts| && Contains(parts[k], sub)
    ensures Contains(Join(parts, sep), sub)
  {
    if |parts| > 1 {
      if k == 0 {
        ContainsInPrefix(parts[0], sep + Join(parts[1..], sep), sub);
        assert Join(parts, sep) == parts[0] + (sep + Join(parts[1..], sep));
      } else {
        ContainsInJoin(parts[1..], sep, k - 1, sub);
        ContainsInSuffix(parts[0] + sep, Join(parts[1..], sep), sub);
      }
    }
  }

  // ---------------------------------------------------------------- numbers

  function DigitChar(d: nat): (c: char)
    requires d < 10
    ensures IsDigit(c)
  {
    ('0' as int + d) as char
  }

  /** `String(n)` / `str(n)` for a natural number. */
  function NatToString(n: nat): (r: string)
    ensures r != []
    ensures forall i :: 0 <= i < |r| ==> IsDigit(r[i])
    decreases n
  {
    if n < 10 then [DigitChar(n)] else NatToString(n / 10) + [DigitChar(n % 10)]
  }

  predicate AllDigits(s: string)
  {
    forall i :: 0 <= i < |s| ==> IsDigit(s[i])
  }

  /** The value of a string of decimal digits. */
  function DigitsValue(s: string): nat
    requires AllDigits(s)
  {
    if s == [] then 0 else DigitsValue(s[..|s| - 1]) * 10 + (s[|s| - 1] as int - '0' as int)
  }

  predicate IsHexDigit(c: char)
  {
    IsDigit(c) || 'a' <= c <= 'f' || 'A' <= c <= 'F'
  }

  function HexDigitValue(c: char): (v: nat)
    requires IsHexDigit(c)
    ensures v < 16
    ensures IsDigit(c) ==> v == c as int - '0' as int
  {
    if IsDigit(c) then c as int - '0' as int
    else if 'a' <= c <= 'f' then c as int - 'a' as int + 10
    else c as int - 'A' as int + 10
  }

  predicate AllHexDigits(s: string)
  {
    forall i :: 0 <= i < |s| ==> IsHexDigit(s[i])
  }

  /** The value of a string of hexadecimal digits. */
  function HexValue(s: string): nat
    requires AllHexDigits(s)
  {
    if s == [] then 0 else HexValue(s[..|s| - 1]) * 16 + HexDigitValue(s[|s| - 1])
  }

  /** The leading hexadecimal digits of a text. */
  function LeadingHexDigits(s: string): (r: string)
    ensures r <= s && AllHexDigits(r)
    ensures |r| < |s| ==> !IsHexDigit(s[|r|])
  {
    if s != [] && IsHexDigit(s[0]) then [s[0]] + LeadingHexDigits(s[1..]) else []
  }

  /** Hexadecimal digits followed by anything else are exactly the leading ones. */
  lemma {:induction false} LeadingHexDigitsOf(h: string, rest: string)
    requires AllHexDigits(h)
    requires rest == [] || !IsHexDigit(rest[0])
    ensures LeadingHexDigits(h + rest) == h
    decreases |h|
  {
    if h != [] {
      LeadingHexDigitsOf(h[1..], rest);
      assert (h + rest)[1..] == h[1..] + rest;
    }
  }

  /** The leading decimal digits of a text. */
  function LeadingDigits(s: string): (r: string)
    ensures r <= s && AllDigits(r)
    ensures |r| < |s| ==> !IsDigit(s[|r|])
  {
    if s != [] && IsDigit(s[0]) then [s[0]] + LeadingDigits(s[1..]) else []
  }

  /** Digits followed by a non-digit are exactly the leading digits. */
  lemma {:induction false} LeadingDigitsOf(d: string, rest: string)
    requires AllDigits(d) && (rest == [] || !IsDigit(rest[0]))
    ensures LeadingDigits(d + rest) == d
    decreases |d|
  {
    if d != [] {
      LeadingDigitsOf(d[1..], rest);
      assert (d + rest)[1..] == d[1..] + rest;
    }
  }

  lemma {:induction false} DigitsRoundTrip(n: nat)
    ensures DigitsValue(NatToString(n)) == n
    decreases n
  {
    if n >= 10 {
      DigitsRoundTrip(n / 10);
      var r := NatToString(n);
      assert r[..|r| - 1] == NatToString(n / 10);
    }
  }

  /** `s.padStart(2, "0")`. */
  function Pad2(s: string): (r: string)
    ensures |r| == if |s| >= 2 then |s| else 2
    ensures r[|r| - |s|..] == s
  {
    if |s| >= 2 then s else seq(2 - |s|, _ => '0') + s
  }

  /** A leading zero does not change a digit string's value. */
  lemma {:induction false} LeadingZero(s: string)
    requires AllDigits(s)
    ensures AllDigits("0" + s) && DigitsValue("0" + s) == DigitsValue(s)
    decreases |s|
  {
    var z := "0" + s;
    assert AllDigits(z) by { assert forall i :: 1 <= i < |z| ==> z[i] == s[i - 1]; }
    if s != [] {
      assert z[..|z| - 1] == "0" + s[..|s| - 1];
      LeadingZero(s[..|s| - 1]);
    }
  }

  /** A padded number reads back as the number. */
  lemma PaddedValue(n: nat)
    ensures AllDigits(Pad2(NatToString(n))) && DigitsValue(Pad2(NatToString(n))) == n
  {
    var t := NatToString(n);
    DigitsRoundTrip(n);
    if |t| < 2 {
      assert Pad2(t) == "0" + t;
      LeadingZero(t);
    }
  }

  /** A number below 100 is written with at most two digits, so padding gives exactly two. */
  lemma TwoDigits(n: nat)
    requires n < 100
    ensures |NatToString(n)| <= 2 && |Pad2(NatToString(n))| == 2
  {
    if n >= 10 {
      var q := n / 10;
      assert q < 10;
      assert |NatToString(q)| == 1;
      assert NatToString(n) == NatToString(q) + [DigitChar(n % 10)];
    }
  }

  // ---------------------------------------------------------------- ordering

  /** Python's `<=` on strings: code point by code point, a proper prefix first. */
  predicate LexLe(a: string, b: string)
  {
    a == [] || (b != [] && (a[0] < b[0] || (a[0] == b[0] && LexLe(a[1..], b[1..]))))
  }

  lemma {:induction false} LexTotal(a: string, b: string)
    ensures LexLe(a, b) || LexLe(b, a)
  {
    if a != [] && b != [] && a[0] == b[0] {
      LexTotal(a[1..], b[1..]);
    }
  }

  lemma {:induction false} LexAntisymmetric(a: string, b: string)
    requires LexLe(a, b) && LexLe(b, a)
    ensures a == b
  {
    if a != [] {
      LexAntisymmetric(a[1..], b[1..]);
      assert a == [a[0]] + a[1..] && b == [b[0]] + b[1..];
    }
  }

  lemma {:induction false} LexTransitive(a: string, b: string, c: string)
    requires LexLe(a, b) && LexLe(b, c)
    ensures LexLe(a, c)
  {
    if a != [] && a[0] == b[0] && b[0] == c[0] {
      LexTransitive(a[1..], b[1..], c[1..]);
    }
  }

  predicate LexSorted(s: seq<string>)
  {
    forall i, j :: 0 <= i < j < |s| ==> LexLe(s[i], s[j])
  }

  /** Puts `x` before the first element it does not sort after. */
  function InsertLex(s: seq<string>, x: string): (r: seq<string>)
    ensures multiset(r) == multiset(s) + multiset{x}
  {
    if s == [] || LexLe(x, s[0]) then [x] + s
    else
      assert s == [s[0]] + s[1..];
      [s[0]] + InsertLex(s[1..], x)
  }

  lemma {:induction false} InsertLexSorted(s: seq<string>, x: string)
    requires LexSorted(s)
    ensures LexSorted(InsertLex(s, x))
  {
    if s == [] {
    } else if LexLe(x, s[0]) {
      forall j | 0 <= j < |s|
        ensures LexLe(x, s[j])
      {
        if j > 0 {
          LexTransitive(x, s[0], s[j]);
        }
      }
    } else {
      LexTotal(x, s[0]);
      var t := InsertLex(s[1..], x);
      InsertLexSorted(s[1..], x);
      forall i | 0 <= i < |t|
        ensures LexLe(s[0], t[i])
      {
        assert t[i] in multiset(t);
        if t[i] != x {
          assert t[i] in multiset(s[1..]);
          var j :| 0 <= j < |s[1..]| && s[1..][j] == t[i];
          assert s[j + 1] == t[i];
        }
      }
      assert InsertLex(s, x) == [s[0]] + t;
    }
  }

  /** `sorted(s)` on strings: ascending, and holding each element as often as `s` does. */
  function SortStrings(s: seq<string>): (r: seq<string>)
    ensures LexSorted(r) && multiset(r) == multiset(s)
  {
    if s == [] then []
    else
      var t := SortStrings(s[1..]);
      InsertLexSorted(t, s[0]);
      assert s == [s[0]] + s[1..];
      InsertLex(t, s[0])
  }

  /** Two sorted lists with the same elements are the same list. */
  lemma {:induction false} SortedUnique(a: seq<string>, b: seq<string>)
    requires LexSorted(a) && LexSorted(b) && multiset(a) == multiset(b)
    ensures a == b
  {
    if a == [] {
      assert |multiset(b)| == 0;
    } else {
      assert |b| == |multiset(b)| == |a|;
      var j := IndexIn(a[0], b);
      var i := IndexIn(b[0], a);
      if 0 < i && 0 < j {
        LexAntisymmetric(a[0], b[0]);
      }
      TailsAgree(a, b);
      SortedUnique(a[1..], b[1..]);
      assert a == [a[0]] + a[1..] && b == [b[0]] + b[1..];
    }
  }

  lemma IndexIn(x: string, s: seq<string>) returns (i: nat)
    requires x in multiset(s)
    ensures i < |s| && s[i] == x
  {
    i :| 0 <= i < |s| && s[i] == x;
  }

  lemma TailsAgree(a: seq<string>, b: seq<string>)
    requires a != [] && b != [] && a[0] == b[0] && multiset(a) == multiset(b)
    ensures multiset(a[1..]) == multiset(b[1..])
  {
    assert a == [a[0]] + a[1..] && b == [b[0]] + b[1..];
    assert multiset(a) == multiset{a[0]} + multiset(a[1..]);
    assert multiset(b) == multiset{b[0]} + multiset(b[1..]);
    assert multiset(a[1..]) == multiset(a) - multiset{a[0]} == multiset(b) - multiset{b[0]} == multiset(b[1..]);
  }

  /** Sorted copies are equal exactly when the lists hold the same elements. */
  lemma SortedEqualIff(a: seq<string>, b: seq<string>)
    ensures SortStrings(a) == SortStrings(b) <==> multiset(a) == multiset(b)
  {
    if multiset(a) == multiset(b) {
      SortedUnique(SortStrings(a), SortStrings(b));
    }
  }
}

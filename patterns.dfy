/**
 * Regular-expression substitutions written out as rewriters.
 *
 * A rewriter looks at the text from one position on and, when the pattern
 * matches there, gives the replacement and the text after the match.
 * `re.sub(..., count=1)` is `SubFirst` (the leftmost position that
 * matches), `re.sub(...)` is `SubAll` (left to right, resuming after each
 * match). Patterns made of literals separated by `\s+` are `WsChain`.
 */
module Patterns {
  import opened Wrappers
  import opened Strings

  /** The replacement and the remaining text, when the pattern matches at the start. */
  type Rewriter = string -> Option<(string, string)>

  // ------------------------------------------------------------ whitespace-separated literals

  predicate AllSpace(s: string)
  {
    forall i :: 0 <= i < |s| ==> IsSpace(s[i])
  }

  /** The whitespace run at the start of `s` (greedy `\s+` or `\s*`). */
  function LeadingSpace(s: string): (r: string)
    ensures r <= s && AllSpace(r)
    ensures |r| < |s| ==> !IsSpace(s[|r|])
  {
    if s != [] && IsSpace(s[0]) then [s[0]] + LeadingSpace(s[1..]) else []
  }

  lemma {:induction false} LeadingSpaceOf(ws: string, t: string)
    requires AllSpace(ws) && (t != [] ==> !IsSpace(t[0]))
    ensures LeadingSpace(ws + t) == ws
  {
    if ws != [] {
      assert (ws + t)[1..] == ws[1..] + t;
      LeadingSpaceOf(ws[1..], t);
    }
  }

  /** `\s+` followed by `lit`: the text after `lit`. */
  function AfterWs(x: string, lit: string): (r: Option<string>)
    ensures r.Some? ==> exists ws :: ws != [] && AllSpace(ws) && x == ws + lit + r.value
  {
    var ws := LeadingSpace(x);
    if ws == [] || !(lit <= x[|ws|..]) then None
    else
      assert x == ws + lit + x[|ws| + |lit|..];
      Some(x[|ws| + |lit|..])
  }

  /** `parts[0]\s+parts[1]\s+...`: the text after the last part. */
  function WsChain(x: string, parts: seq<string>): Option<string>
    decreases |parts|
  {
    if parts == [] then Some(x)
    else
      match AfterWs(x, parts[0])
      case None => None
      case Some(t) => WsChain(t, parts[1..])
  }

  /** `first\s+parts[0]\s+...` at the start of `x`. */
  function Chain(x: string, first: string, parts: seq<string>): Option<string>
  {
    if first <= x then WsChain(x[|first|..], parts) else None
  }

  /** One space between the parts: the text the scripts write back. */
  function Spaced(parts: seq<string>): string
  {
    if parts == [] then [] else " " + parts[0] + Spaced(parts[1..])
  }

  /** A chain written with single spaces is matched, whatever follows it, when no part starts with a space. */
  lemma {:induction false} SpacedMatches(parts: seq<string>, rest: string)
    requires forall k :: 0 <= k < |parts| ==> parts[k] != [] && !IsSpace(parts[k][0])
    ensures WsChain(Spaced(parts) + rest, parts) == Some(rest)
    decreases |parts|
  {
    if parts != [] {
      var x := Spaced(parts) + rest;
      var t := Spaced(parts[1..]) + rest;
      assert x == " " + (parts[0] + t);
      LeadingSpaceOf(" ", parts[0] + t);
      assert x[1..] == parts[0] + t;
      assert x[1 + |parts[0]|..] == t;
      assert LeadingSpace(x) == " ";
      assert AfterWs(x, parts[0]) == Some(t);
      assert WsChain(x, parts) == WsChain(t, parts[1..]);
      SpacedMatches(parts[1..], rest);
    } else {
      assert Spaced(parts) + rest == rest;
    }
  }

  /** A chain written with single spaces after its first literal matches that chain. */
  lemma ChainMatches(first: string, parts: seq<string>, rest: string)
    requires forall k :: 0 <= k < |parts| ==> parts[k] != [] && !IsSpace(parts[k][0])
    ensures Chain(first + Spaced(parts) + rest, first, parts) == Some(rest)
  {
    SpacedMatches(parts, rest);
    ChainAfter(first, Spaced(parts), rest, parts);
  }

  lemma ChainAfter(first: string, mid: string, rest: string, parts: seq<string>)
    ensures Chain(first + mid + rest, first, parts) == WsChain(mid + rest, parts)
  {
    assert first + mid + rest == first + (mid + rest);
    PrefixRest(first, mid + rest);
  }

  // ------------------------------------------------------------ substitutions

  /** The leftmost position at or after `i` where `rw` matches. */
  function FirstMatch(s: string, rw: Rewriter, i: nat): (r: Option<nat>)
    ensures r.Some? ==> i <= r.value < |s| && rw(s[r.value..]).Some?
    ensures r.Some? ==> forall k :: i <= k < r.value ==> rw(s[k..]).None?
    ensures r.None? ==> forall k :: i <= k < |s| ==> rw(s[k..]).None?
    decreases |s| - i
  {
    if i >= |s| then None
    else if rw(s[i..]).Some? then Some(i)
    else FirstMatch(s, rw, i + 1)
  }

  /** `re.sub(pattern, replacement, s, count=1)`. */
  function SubFirst(s: string, rw: Rewriter): (r: string)
    ensures FirstMatch(s, rw, 0).None? ==> r == s
    ensures FirstMatch(s, rw, 0).Some? ==> var i := FirstMatch(s, rw, 0).value;
      r == s[..i] + rw(s[i..]).value.0 + rw(s[i..]).value.1
  {
    match FirstMatch(s, rw, 0)
    case None => s
    case Some(i) => s[..i] + rw(s[i..]).value.0 + rw(s[i..]).value.1
  }

  /** `re.sub(pattern, replacement, s)`. */
  function SubAll(s: string, rw: Rewriter): string
    decreases |s|
  {
    if s == [] then []
    else
      match rw(s)
      case Some((rep, tail)) => if |tail| < |s| then rep + SubAll(tail, rw) else [s[0]] + SubAll(s[1..], rw)
      case None => [s[0]] + SubAll(s[1..], rw)
  }

  /** Where the pattern matches nowhere, `SubAll` changes nothing. */
  lemma {:induction false} SubAllNoMatch(s: string, rw: Rewriter)
    requires forall k :: 0 <= k < |s| ==> rw(s[k..]).None?
    ensures SubAll(s, rw) == s
    decreases |s|
  {
    if s != [] {
      assert rw(s[0..]).None? && s[0..] == s;
      forall k | 0 <= k < |s[1..]|
        ensures rw(s[1..][k..]).None?
      {
        assert s[1..][k..] == s[k + 1..];
      }
      SubAllNoMatch(s[1..], rw);
    }
  }

  /** Every match of `rw` consumes text and writes `rep`. */
  ghost predicate Writes(rw: Rewriter, rep: string)
  {
    forall x :: rw(x).Some? ==> |rw(x).value.1| < |x| && rw(x).value.0 == rep
  }

  /** A pattern with a constant replacement that matches somewhere leaves that replacement in `SubAll`'s result. */
  lemma {:induction false} SubAllInserts(s: string, rw: Rewriter, rep: string, k: nat)
    requires Writes(rw, rep)
    requires k < |s| && rw(s[k..]).Some?
    ensures Contains(SubAll(s, rw), rep)
    decreases |s|
  {
    match rw(s)
    case Some((r, tail)) =>
      ContainsInPrefix(rep, SubAll(tail, rw), rep);
    case None =>
      assert k > 0 && s[1..][k - 1..] == s[k..];
      SubAllInserts(s[1..], rw, rep, k - 1);
      ContainsInSuffix([s[0]], SubAll(s[1..], rw), rep);
  }

  /** A pattern with a constant replacement that matches somewhere leaves that replacement in `SubFirst`'s result. */
  lemma SubFirstInserts(s: string, rw: Rewriter, rep: string)
    requires Writes(rw, rep) && FirstMatch(s, rw, 0).Some?
    ensures Contains(SubFirst(s, rw), rep)
  {
    var i := FirstMatch(s, rw, 0).value;
    ContainsMiddle(s[..i], rep, rw(s[i..]).value.1);
  }
}

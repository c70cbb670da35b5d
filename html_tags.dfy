/**
 * The regular-expression scan `re.sub(r'<NAME\s+[^>]*?>', callback, html)`
 * used by the image and video rewriting scripts, stated on strings.
 *
 * A match starts with `<NAME` and one whitespace character and runs to the
 * first `>` after it; `re.sub` scans left to right, hands each match to the
 * callback and resumes after it. The main result is that the scan is
 * idempotent whenever the callback maps tags to tags and is itself
 * idempotent on them.
 */
module HtmlTags {
  import opened Wrappers
  import opened Strings

  /** A tag name the scan can look for (`img`, `video`). */
  predicate ValidName(name: string)
  {
    name != [] && '<' !in name && '>' !in name
  }

  /** `s` begins with `<NAME` followed by a whitespace character. */
  predicate Opens(s: string, name: string)
  {
    |s| > |name| + 1 && ['<'] + name <= s && IsSpace(s[|name| + 1])
  }

  /** Length of the regex match at the start of `s`, if there is one. */
  function MatchLen(s: string, name: string): (r: Option<nat>)
    requires ValidName(name)
    ensures r.Some? ==> |name| + 2 < r.value <= |s|
    ensures r.Some? ==> Opens(s, name) && s[r.value - 1] == '>' && '>' !in s[..r.value - 1]
    ensures r.None? ==> !Opens(s, name) || '>' !in s
  {
    if !Opens(s, name) then None
    else
      match IndexOf(s, ">")
      case None =>
        ContainsChar(s, '>');
        None
      case Some(k) =>
        assert s[k..k + 1] == ">";
        assert s[k] == '>';
        assert forall i :: 0 <= i <= |name| + 1 ==> s[i] != '>' by {
          assert forall i :: 1 <= i <= |name| ==> s[i] == name[i - 1];
        }
        assert '>' !in s[..k] by {
          forall i | 0 <= i < k
            ensures s[i] != '>'
          {
            IndexOfNotBefore(s, ">", i);
            assert s[i..i + 1] == [s[i]];
          }
        }
        Some(k + 1)
  }

  /** A complete tag: it is exactly one match of the scan. */
  predicate IsTag(t: string, name: string)
    requires ValidName(name)
  {
    MatchLen(t, name) == Some(|t|)
  }

  /** `re.sub(r'<NAME\s+[^>]*?>', f, s)`. */
  function Sub(s: string, name: string, f: string -> string): string
    requires ValidName(name)
    decreases |s|
  {
    if s == [] then []
    else
      match MatchLen(s, name)
      case Some(n) => f(s[..n]) + Sub(s[n..], name, f)
      case None => [s[0]] + Sub(s[1..], name, f)
  }

  /** The matches the scan hands to the callback, in document order. */
  function Tags(s: string, name: string): (r: seq<string>)
    requires ValidName(name)
    ensures forall k :: 0 <= k < |r| ==> IsTag(r[k], name)
    decreases |s|
  {
    if s == [] then []
    else
      match MatchLen(s, name)
      case Some(n) =>
        TagPrefix(s, name);
        [s[..n]] + Tags(s[n..], name)
      case None => Tags(s[1..], name)
  }

  /** How many matches satisfy `p` (the callbacks' `changes += 1`). */
  function CountWhere(tags: seq<string>, p: string -> bool): (n: nat)
    ensures n <= |tags|
  {
    if tags == [] then 0 else (if p(tags[0]) then 1 else 0) + CountWhere(tags[1..], p)
  }

  /** A tag opens with `<NAME` and a space and ends at its only `>`. */
  lemma TagShape(t: string, name: string)
    requires ValidName(name) && IsTag(t, name)
    ensures |t| > |name| + 2 && Opens(t, name)
    ensures t[|t| - 1] == '>' && '>' !in t[..|t| - 1]
  {
  }

  /** Text without `>` inserted before the closing `>` of a tag leaves a tag. */
  lemma ExtendTag(t: string, x: string, name: string)
    requires ValidName(name) && IsTag(t, name) && '>' !in x
    ensures IsTag(t[..|t| - 1] + x + ">", name)
  {
    TagShape(t, name);
    var u := t[..|t| - 1] + x + ">";
    ExtendedOpens(t, x, name);
    ExtendedCloses(t[..|t| - 1], x);
    ClosedAt(u, name, |u| - 1);
  }

  lemma ExtendedOpens(t: string, x: string, name: string)
    requires Opens(t, name) && |t| > |name| + 2
    ensures Opens(t[..|t| - 1] + x + ">", name)
  {
    var u := t[..|t| - 1] + x + ">";
    assert u[..|name| + 2] == t[..|name| + 2];
    OpensPrefix(t, u, name);
  }

  lemma ExtendedCloses(body: string, x: string)
    requires '>' !in body && '>' !in x
    ensures IndexOf(body + x + ">", ">") == Some(|body + x|)
  {
    var u := body + x + ">";
    assert u[..|u| - 1] == body + x;
    FirstClose(u, |u| - 1);
  }

  /** Opening a tag depends only on the first `|name| + 2` characters. */
  lemma OpensPrefix(t: string, u: string, name: string)
    requires Opens(t, name) && |u| > |name| + 1 && u[..|name| + 2] == t[..|name| + 2]
    ensures Opens(u, name)
  {
    assert u[|name| + 1] == t[..|name| + 2][|name| + 1];
    assert (['<'] + name) == t[..|name| + 1];
    assert u[..|name| + 1] == t[..|name| + 1];
  }

  /** A text that opens a tag and has its first `>` at `k` matches up to and including it. */
  lemma ClosedAt(u: string, name: string, k: nat)
    requires ValidName(name) && Opens(u, name) && IndexOf(u, ">") == Some(k)
    ensures MatchLen(u, name) == Some(k + 1)
  {
  }

  /** Replacing every `>` of a tag replaces its closing one only. */
  lemma ReplaceClose(t: string, name: string, rep: string)
    requires ValidName(name) && IsTag(t, name)
    ensures ReplaceAll(t, ">", rep) == t[..|t| - 1] + rep
  {
    TagShape(t, name);
    assert t == t[..|t| - 1] + ">";
    ReplaceAllCharSkip(t[..|t| - 1], ">", '>', rep);
    assert ReplaceAll(">", ">", rep) == rep + ReplaceAll([], ">", rep);
  }

  /** A tag begins with `<`. */
  lemma TagStartsLt(t: string, name: string)
    requires ValidName(name) && IsTag(t, name)
    ensures t != [] && t[0] == '<'
  {
    assert (['<'] + name)[0] == '<';
  }

  /** The text a match covers is a tag in its own right. */
  lemma TagPrefix(s: string, name: string)
    requires ValidName(name) && MatchLen(s, name).Some?
    ensures IsTag(s[..MatchLen(s, name).value], name)
  {
    var n := MatchLen(s, name).value;
    var t := s[..n];
    assert ['<'] + name <= t;
    assert t[..n - 1] == s[..n - 1];
    FirstClose(t, n - 1);
  }

  /** In a text that opens a tag, the first `>` closes it. */
  lemma FirstClose(s: string, k: nat)
    requires k < |s| && s[k] == '>' && '>' !in s[..k]
    ensures IndexOf(s, ">") == Some(k)
  {
    assert s[k..k + 1] == [s[k]];
    forall i | 0 <= i < k
      ensures !OccursAt(s, ">", i)
    {
      assert s[..k][i] == s[i];
      assert s[i..i + 1] == [s[i]];
    }
    IndexOfFirst(s, ">", k);
  }

  /** Text after a tag does not change where the tag ends. */
  lemma TagThenRest(t: string, x: string, name: string)
    requires ValidName(name) && IsTag(t, name)
    ensures MatchLen(t + x, name) == Some(|t|)
  {
    var s := t + x;
    var n := |t|;
    assert s[..n] == t;
    assert ['<'] + name <= s;
    assert s[..n - 1] == t[..n - 1];
    FirstClose(s, n - 1);
  }

  /** Scanning a tag followed by more text hands the tag to the callback. */
  lemma SubTagThenRest(t: string, x: string, name: string, f: string -> string)
    requires ValidName(name) && IsTag(t, name)
    ensures Sub(t + x, name, f) == f(t) + Sub(x, name, f)
  {
    TagThenRest(t, x, name);
    assert (t + x)[..|t|] == t && (t + x)[|t|..] == x;
  }

  /** Without a `>` there is nothing to match. */
  lemma {:induction false} SubNoClose(s: string, name: string, f: string -> string)
    requires ValidName(name) && '>' !in s
    ensures Sub(s, name, f) == s
    decreases |s|
  {
    if s != [] {
      assert '>' !in s[1..];
      SubNoClose(s[1..], name, f);
    }
  }

  /** Callbacks that return tags keep every `<`-free prefix of the text. */
  lemma {:induction false} PrefixKept(w: string, x: string, name: string, f: string -> string)
    requires ValidName(name)
    requires forall t :: IsTag(t, name) ==> IsTag(f(t), name)
    ensures '<' !in w && w <= Sub(x, name, f) ==> w <= x
    decreases |x|
  {
    if w != [] && x != [] {
      match MatchLen(x, name)
      case Some(n) =>
        TagPrefix(x, name);
        var u := f(x[..n]);
        TagStartsLt(u, name);
        var y := Sub(x, name, f);
        assert y == u + Sub(x[n..], name, f);
        assert y[0] == '<';
        if w <= y {
          assert w[0] == '<';
        }
      case None =>
        var y := Sub(x, name, f);
        assert y == [x[0]] + Sub(x[1..], name, f);
        PrefixKept(w[1..], x[1..], name, f);
        if w <= y {
          assert w[1..] <= Sub(x[1..], name, f);
        }
    }
  }

  /** Rewriting what follows a character cannot make it open a tag. */
  lemma OpensKept(c: char, x: string, name: string, f: string -> string)
    requires ValidName(name)
    requires forall t :: IsTag(t, name) ==> IsTag(f(t), name)
    ensures Opens([c] + Sub(x, name, f), name) ==> Opens([c] + x, name)
  {
    var y := Sub(x, name, f);
    if Opens([c] + y, name) {
      OpensSplit(c, y, name);
      var w := y[..|name| + 1];
      PrefixKept(w, x, name, f);
      OpensJoin(c, x, name, w);
    }
  }

  /** What follows the `<` of an opening: the name and a space, no `<` among them. */
  lemma OpensSplit(c: char, y: string, name: string)
    requires ValidName(name) && Opens([c] + y, name)
    ensures c == '<' && |y| > |name| && y[..|name|] == name && IsSpace(y[|name|])
    ensures '<' !in y[..|name| + 1] && y[..|name| + 1] <= y
  {
    var z := [c] + y;
    assert z[..|name| + 1] == ['<'] + name;
    assert z[0] == '<';
    assert y[..|name|] == z[1..|name| + 1];
    assert y[..|name| + 1] == name + [y[|name|]];
  }

  /** The name and a space after a `<` open a tag. */
  lemma OpensJoin(c: char, x: string, name: string, w: string)
    requires c == '<' && |w| == |name| + 1 && w[..|name|] == name && IsSpace(w[|name|]) && w <= x
    ensures Opens([c] + x, name)
  {
    var z := [c] + x;
    assert z[..|name| + 1] == ['<'] + w[..|name|];
    assert z[|name| + 1] == w[|name|];
  }

  /** Where the original has no match, the rewritten text has none either. */
  lemma NoMatchKept(s: string, name: string, f: string -> string)
    requires ValidName(name) && s != [] && MatchLen(s, name).None?
    requires forall t :: IsTag(t, name) ==> IsTag(f(t), name)
    ensures MatchLen([s[0]] + Sub(s[1..], name, f), name).None?
  {
    assert [s[0]] + s[1..] == s;
    OpensKept(s[0], s[1..], name, f);
    if Opens(s, name) {
      assert '>' !in s[1..];
      SubNoClose(s[1..], name, f);
    }
  }

  /**
   * When the callback turns tags into tags and is idempotent on them, a
   * second scan over the rewritten text changes nothing.
   */
  lemma {:induction false} SubIdempotent(s: string, name: string, f: string -> string)
    requires ValidName(name)
    requires forall t :: IsTag(t, name) ==> IsTag(f(t), name) && f(f(t)) == f(t)
    ensures Sub(Sub(s, name, f), name, f) == Sub(s, name, f)
    decreases |s|
  {
    if s != [] {
      match MatchLen(s, name)
      case Some(n) =>
        TagPrefix(s, name);
        var t := s[..n];
        SubIdempotent(s[n..], name, f);
        SubTagThenRest(f(t), Sub(s[n..], name, f), name, f);
      case None =>
        SubIdempotent(s[1..], name, f);
        NoMatchKept(s, name, f);
        var z := [s[0]] + Sub(s[1..], name, f);
        assert z[1..] == Sub(s[1..], name, f);
    }
  }

  /** A callback that leaves every match as it is leaves the text as it is. */
  lemma {:induction false} SubUnchanged(s: string, name: string, f: string -> string)
    requires ValidName(name)
    requires forall t :: t in Tags(s, name) ==> f(t) == t
    ensures Sub(s, name, f) == s
    decreases |s|
  {
    if s != [] {
      match MatchLen(s, name)
      case Some(n) =>
        assert Tags(s, name) == [s[..n]] + Tags(s[n..], name);
        SubUnchanged(s[n..], name, f);
        assert s[..n] + s[n..] == s;
      case None =>
        assert Tags(s, name) == Tags(s[1..], name);
        SubUnchanged(s[1..], name, f);
    }
  }
}

/**
 * The two POSIX path operations of Node's `path` module that the link
 * checker relies on: `dirname`, and `normalize` (which `join` applies to its
 * '/'-joined arguments). Paths are strings with '/' as the only separator.
 */
module PosixPath {
  import opened Strings

  // ------------------------------------------------------------------ dirname

  /**
   * The scan of `dirname`, from index `i` down to 1: the first '/' met after
   * a non-'/' character ends the directory part; -1 when there is none.
   */
  function DirEnd(f: string, i: int, matchedSlash: bool): (e: int)
    requires i < |f|
    ensures e == -1 || (1 <= e <= i && f[e] == '/')
    decreases i
  {
    if i < 1 then -1
    else if f[i] == '/' then (if !matchedSlash then i else DirEnd(f, i - 1, matchedSlash))
    else DirEnd(f, i - 1, false)
  }

  /** `path.dirname`: trailing separators are ignored; "." without a directory, "/" for a root-level name. */
  function Dirname(f: string): (d: string)
    ensures d != ""
  {
    if f == "" then "."
    else
      var e := DirEnd(f, |f| - 1, true);
      if e == -1 then (if f[0] == '/' then "/" else ".")
      else if f[0] == '/' && e == 1 then "//"
      else f[..e]
  }

  /** Below the last separator of `s`, the scan finds no non-'/' character and so never stops. */
  lemma {:induction false} DirEndSlashFree(f: string, i: int)
    requires i < |f|
    requires forall k :: 0 <= k <= i ==> f[k] != '/'
    ensures DirEnd(f, i, false) == -1 && DirEnd(f, i, true) == -1
    decreases i
  {
    if i >= 1 {
      DirEndSlashFree(f, i - 1);
    }
  }

  /** A name without a separator lies in ".". */
  lemma BareNameDirname(name: string)
    requires name != "" && '/' !in name
    ensures Dirname(name) == "."
  {
    DirEndSlashFree(name, |name| - 1);
  }

  /** The directory of `d/name`, for a separator-free name, is `d` (except for the root forms "" and "/"). */
  lemma {:induction false} ChildDirname(d: string, name: string)
    requires d != "" && d != "/"
    requires name != "" && '/' !in name
    ensures Dirname(d + "/" + name) == d
  {
    var f := d + "/" + name;
    assert forall k :: |d| + 1 <= k < |f| ==> f[k] == name[k - |d| - 1];
    DirEndScan(f, |f| - 1, |d|);
    assert f[..|d|] == d;
    if |d| == 1 {
      assert d == [d[0]];
    }
  }

  /** Scanning down through non-'/' characters reaches the separator at `s` and stops there. */
  lemma {:induction false} DirEndScan(f: string, i: int, s: nat)
    requires 1 <= s < i < |f| && f[s] == '/'
    requires forall k :: s < k <= i ==> f[k] != '/'
    ensures DirEnd(f, i, true) == s && DirEnd(f, i, false) == s
    decreases i
  {
    if i - 1 > s {
      DirEndScan(f, i - 1, s);
    }
  }

  // ------------------------------------------------------------------ normalize

  /**
   * One segment of `normalizeString`: empty and "." segments vanish; ".."
   * drops the previous segment unless that is itself "..", and is otherwise
   * kept only for relative paths; any other segment is appended.
   */
  function Step(acc: seq<string>, seg: string, aboveRoot: bool): seq<string>
  {
    if seg == "" || seg == "." then acc
    else if seg == ".." then
      if |acc| > 0 && acc[|acc| - 1] != ".." then acc[..|acc| - 1]
      else if aboveRoot then acc + [".."]
      else acc
    else acc + [seg]
  }

  /** The segments left after resolving `segs` in order, starting from `acc`. */
  function ResolveFrom(acc: seq<string>, segs: seq<string>, aboveRoot: bool): seq<string>
    decreases |segs|
  {
    if segs == [] then acc else ResolveFrom(Step(acc, segs[0], aboveRoot), segs[1..], aboveRoot)
  }

  /**
   * A resolved segment list: no empty, "." or separator-containing segment,
   * ".." only in a leading run, and no ".." at all for an absolute path.
   */
  predicate Resolved(segs: seq<string>, aboveRoot: bool)
  {
    (forall i :: 0 <= i < |segs| ==> segs[i] != "" && segs[i] != "." && '/' !in segs[i]) &&
    (forall i, j :: 0 <= i < j < |segs| && segs[j] == ".." ==> segs[i] == "..") &&
    (!aboveRoot ==> forall i :: 0 <= i < |segs| ==> segs[i] != "..")
  }

  /** A step with a separator-free segment keeps a list resolved. */
  lemma StepResolved(acc: seq<string>, seg: string, aboveRoot: bool)
    requires Resolved(acc, aboveRoot) && '/' !in seg
    ensures Resolved(Step(acc, seg, aboveRoot), aboveRoot)
  {
    var r := Step(acc, seg, aboveRoot);
    if seg == ".." && |acc| > 0 && acc[|acc| - 1] != ".." {
      assert forall i :: 0 <= i < |r| ==> r[i] == acc[i];
    } else if seg == ".." && aboveRoot {
      assert forall i :: 0 <= i < |acc| ==> acc[i] == "..";
    } else if seg != "" && seg != "." && seg != ".." {
      assert forall i :: 0 <= i < |acc| ==> r[i] == acc[i];
    }
  }

  lemma {:induction false} ResolveFromResolved(acc: seq<string>, segs: seq<string>, aboveRoot: bool)
    requires Resolved(acc, aboveRoot)
    requires forall i :: 0 <= i < |segs| ==> '/' !in segs[i]
    ensures Resolved(ResolveFrom(acc, segs, aboveRoot), aboveRoot)
    decreases |segs|
  {
    if segs != [] {
      StepResolved(acc, segs[0], aboveRoot);
      ResolveFromResolved(Step(acc, segs[0], aboveRoot), segs[1..], aboveRoot);
    }
  }

  /** Resolving an already resolved continuation appends it unchanged. */
  lemma {:induction false} ResolveFromKeeps(acc: seq<string>, segs: seq<string>, aboveRoot: bool)
    requires Resolved(acc + segs, aboveRoot)
    ensures ResolveFrom(acc, segs, aboveRoot) == acc + segs
    decreases |segs|
  {
    if segs != [] {
      var all := acc + segs;
      assert all[|acc|] == segs[0];
      if segs[0] == ".." {
        assert forall i :: 0 <= i < |acc| ==> acc[i] == all[i] == "..";
      }
      var next := Step(acc, segs[0], aboveRoot);
      assert next == acc + [segs[0]];
      assert next + segs[1..] == all;
      ResolveFromKeeps(next, segs[1..], aboveRoot);
    }
  }

  /** Trailing empty segments change nothing. */
  lemma {:induction false} ResolveFromEmptyLast(acc: seq<string>, segs: seq<string>, aboveRoot: bool)
    ensures ResolveFrom(acc, segs + [""], aboveRoot) == ResolveFrom(acc, segs, aboveRoot)
    decreases |segs|
  {
    if segs == [] {
      assert ResolveFrom(acc, [""], aboveRoot) == ResolveFrom(acc, [], aboveRoot);
    } else {
      assert (segs + [""])[1..] == segs[1..] + [""];
      ResolveFromEmptyLast(Step(acc, segs[0], aboveRoot), segs[1..], aboveRoot);
    }
  }

  /** The segments of `p`, resolved. */
  function ResolvedSegments(p: string, aboveRoot: bool): (r: seq<string>)
    ensures Resolved(r, aboveRoot)
  {
    var r := ResolveFrom([], Split(p, '/'), aboveRoot);
    ResolveFromResolved([], Split(p, '/'), aboveRoot);
    r
  }

  /**
   * `path.normalize`: "." for the empty path; otherwise the resolved
   * segments joined by '/', with the leading '/' of an absolute path and a
   * trailing '/' kept; "/" , "./" or "." when no segment is left.
   */
  function Normalize(p: string): (r: string)
    ensures r != ""
  {
    if p == "" then "."
    else
      var absolute := p[0] == '/';
      var trailing := p[|p| - 1] == '/';
      var body := Join(ResolvedSegments(p, !absolute), "/");
      if body == "" then (if absolute then "/" else if trailing then "./" else ".")
      else (if absolute then "/" else "") + body + (if trailing then "/" else "")
  }

  /** `path.join(dir, name)` for two non-empty arguments. */
  function JoinPaths(dir: string, name: string): string
  {
    Normalize(dir + "/" + name)
  }

  // ------------------------------------------------------------------ idempotence

  lemma {:induction false} JoinAppend(parts: seq<string>, x: string, sep: string)
    requires parts != []
    ensures Join(parts + [x], sep) == Join(parts, sep) + sep + x
    decreases |parts|
  {
    if |parts| > 1 {
      assert (parts + [x])[1..] == parts[1..] + [x];
      JoinAppend(parts[1..], x, sep);
    }
  }

  lemma {:induction false} JoinNonEmpty(parts: seq<string>, sep: string)
    requires parts != [] && parts[0] != ""
    ensures Join(parts, sep) != [] && Join(parts, sep)[0] == parts[0][0]
  {
    if |parts| > 1 {
      assert Join(parts, sep) == parts[0] + (sep + Join(parts[1..], sep));
    }
  }

  lemma {:induction false} JoinLast(parts: seq<string>, sep: string)
    requires parts != [] && parts[|parts| - 1] != ""
    ensures Join(parts, sep) != [] && Join(parts, sep)[|Join(parts, sep)| - 1] == parts[|parts| - 1][|parts[|parts| - 1]| - 1]
    decreases |parts|
  {
    if |parts| > 1 {
      JoinLast(parts[1..], sep);
    }
  }

  /** A normalized path is written with the segments its own normalization resolves to. */
  lemma NormalizedShape(segs: seq<string>, absolute: bool, trailing: bool)
    requires segs != []
    ensures (if absolute then "/" else "") + Join(segs, "/") + (if trailing then "/" else "") ==
      Join((if absolute then [""] else []) + segs + (if trailing then [""] else []), "/")
  {
    var body := Join(segs, "/");
    var mid: seq<string> := if absolute then [""] + segs else segs;
    assert Join(mid, "/") == (if absolute then "/" else "") + body by {
      if absolute {
        assert mid[1..] == segs;
        assert Join(mid, "/") == "" + "/" + body;
      }
    }
    if trailing {
      JoinAppend(mid, "", "/");
      assert (if absolute then [""] else []) + segs + [""] == mid + [""];
    } else {
      assert (if absolute then [""] else []) + segs + [] == mid;
    }
  }

  /** Normalizing twice gives the same path as normalizing once. */
  lemma NormalizeIdempotent(p: string)
    ensures Normalize(Normalize(p)) == Normalize(p)
  {
    if p == "" {
      DotIsFixed();
    } else {
      var absolute := p[0] == '/';
      var trailing := p[|p| - 1] == '/';
      var segs := ResolvedSegments(p, !absolute);
      if Join(segs, "/") == "" {
        if absolute {
          SlashIsFixed();
        } else if trailing {
          DotSlashIsFixed();
        } else {
          DotIsFixed();
        }
      } else {
        assert segs != [];
        var r := (if absolute then "/" else "") + Join(segs, "/") + (if trailing then "/" else "");
        assert Normalize(p) == r;
        NormalizedFixed(r, segs, absolute, trailing);
      }
    }
  }

  lemma DotIsFixed()
    ensures Normalize(".") == "."
  {
    SplitNoSep(".", '/');
    assert ResolveFrom([], ["."], true) == ResolveFrom([], [], true);
  }

  lemma SlashIsFixed()
    ensures Normalize("/") == "/"
  {
    SplitAfter("", "", '/');
    assert "" + ['/'] + "" == "/";
    assert Split("/", '/') == ["", ""];
    assert ResolveFrom([], ["", ""], false) == ResolveFrom([], [""], false) == ResolveFrom([], [], false);
  }

  lemma DotSlashIsFixed()
    ensures Normalize("./") == "./"
  {
    SplitAfter(".", "", '/');
    assert "." + ['/'] + "" == "./";
    assert Split("./", '/') == [".", ""];
    assert ResolveFrom([], [".", ""], true) == ResolveFrom([], [""], true) == ResolveFrom([], [], true);
  }

  /** A path written as resolved segments, with its leading and trailing separators, is its own normalization. */
  lemma NormalizedFixed(r: string, segs: seq<string>, absolute: bool, trailing: bool)
    requires segs != [] && Resolved(segs, !absolute)
    requires r == (if absolute then "/" else "") + Join(segs, "/") + (if trailing then "/" else "")
    ensures Normalize(r) == r
  {
    NormalizedEnds(r, segs, absolute, trailing);
    NormalizedSplit(r, segs, absolute, trailing);
    ReparseSame(segs, absolute, trailing);
    assert ResolvedSegments(r, !absolute) == segs;
  }

  lemma NormalizedEnds(r: string, segs: seq<string>, absolute: bool, trailing: bool)
    requires segs != [] && Resolved(segs, !absolute)
    requires r == (if absolute then "/" else "") + Join(segs, "/") + (if trailing then "/" else "")
    ensures r != [] && (r[0] == '/' <==> absolute) && (r[|r| - 1] == '/' <==> trailing)
  {
    JoinNonEmpty(segs, "/");
    JoinLast(segs, "/");
  }

  lemma NormalizedSplit(r: string, segs: seq<string>, absolute: bool, trailing: bool)
    requires segs != [] && Resolved(segs, !absolute)
    requires r == (if absolute then "/" else "") + Join(segs, "/") + (if trailing then "/" else "")
    ensures Split(r, '/') == (if absolute then [""] else []) + segs + (if trailing then [""] else [])
  {
    var parts := (if absolute then [""] else []) + segs + (if trailing then [""] else []);
    NormalizedShape(segs, absolute, trailing);
    assert forall k :: 0 <= k < |parts| ==> '/' !in parts[k];
    JoinSplit(parts, '/');
  }

  /** The segment list of a normalized path resolves back to the same segments. */
  lemma ReparseSame(segs: seq<string>, absolute: bool, trailing: bool)
    requires Resolved(segs, !absolute)
    ensures ResolveFrom([], (if absolute then [""] else []) + segs + (if trailing then [""] else []), !absolute) == segs
  {
    var pre: seq<string> := if absolute then [""] else [];
    var post: seq<string> := if trailing then [""] else [];
    ResolveFromKeeps([], segs, !absolute);
    assert [] + segs == segs;
    var mid := pre + segs;
    assert ResolveFrom([], mid, !absolute) == segs by {
      if absolute {
        assert mid[1..] == segs;
      } else {
        assert mid == segs;
      }
    }
    ResolveFromEmptyLast([], mid, !absolute);
    assert pre + segs + post == if trailing then mid + [""] else mid;
  }

  // ------------------------------------------------------------------ joined links

  /** A plain name: non-empty, no separator, and not "." or "..". */
  predicate PlainName(x: string)
  {
    x != "" && '/' !in x && x != "." && x != ".."
  }

  /** A name in the directory of a page stays in that directory. */
  lemma SiblingLink(d: string, x: string)
    requires PlainName(d) && PlainName(x)
    ensures JoinPaths(d, x) == d + "/" + x
  {
    var p := d + "/" + x;
    SplitNoSep(x, '/');
    SplitAfter(d, x, '/');
    assert Split(p, '/') == [d, x];
    assert [] + [d, x] == [d, x];
    ResolveFromKeeps([], [d, x], true);
    assert Join([d, x], "/") == d + "/" + x;
    assert p[0] == d[0] && p[|p| - 1] == x[|x| - 1];
  }

  /** A "../" link from a page one directory deep leads back to the top level. */
  lemma ParentLink(d: string, x: string)
    requires PlainName(d) && PlainName(x)
    ensures JoinPaths(d, "../" + x) == x
  {
    var p := d + "/" + ("../" + x);
    SplitNoSep(x, '/');
    SplitAfter("..", x, '/');
    assert ".." + ['/'] + x == "../" + x;
    SplitAfter(d, "../" + x, '/');
    assert Split(p, '/') == [d, "..", x];
    assert ResolveFrom([], [d, "..", x], true) == [x] by {
      assert ResolveFrom([], [d, "..", x], true) == ResolveFrom([d], ["..", x], true) == ResolveFrom([], [x], true);
      assert ResolveFrom([], [x], true) == ResolveFrom([x], [], true);
    }
    assert p[0] == d[0] && p[|p| - 1] == x[|x| - 1];
  }
}

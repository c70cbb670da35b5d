/**
 * `scripts/fix-cls-images.py`: image tags get explicit `width` and `height`
 * (so the browser reserves their space) and lazy loading.
 *
 * The dimension scan `<img\s+([^>]*?)src="([^"]+)"([^>]*?)>` is written out
 * as the match it amounts to: the whitespace run after `<img`, then the
 * shortest text without `>` after which `src="` starts a non-empty value
 * whose closing quote is followed, before the next `>`, by the rest of the
 * tag. The lazy-loading scan is the tag scan of `HtmlTags`.
 */
module ClsImages {
  import opened Wrappers
  import opened Strings
  import opened Patterns
  import opened HtmlTags

  const Img: string := "img"
  const SrcAttr: string := "src=\""

  /** The fallback sizes by file name, width then height. */
  const ImageDimensions: map<string, (nat, nat)> := map[
    "footer_picture.png" := (200, 60),
    "netflix.png" := (120, 60),
    "prime.png" := (120, 60),
    "disney.png" := (120, 60),
    "hbo.png" := (120, 60),
    "huluu.jpg" := (120, 60),
    "max.jpg" := (120, 60),
    "apple.jpg" := (120, 60),
    "espn.jpg" := (120, 60),
    "paramount.jpg" := (120, 60),
    "peacock.jpg" := (120, 60),
    "roku.jpg" := (120, 60),
    "youtube.png" := (120, 60)
  ]

  // ------------------------------------------------------------ dimensions

  /**
   * `get_image_dimensions`: the size read from the image file when there is
   * one (`onDisk`, the result of opening it), else the table entry for its
   * file name, else nothing.
   */
  function GetImageDimensions(path: string, onDisk: Option<(nat, nat)>): (r: Option<(nat, nat)>)
    ensures onDisk.Some? ==> r == onDisk
    ensures onDisk.None? ==> (r.Some? <==> Basename(path) in ImageDimensions)
    ensures onDisk.None? && r.Some? ==> r.value == ImageDimensions[Basename(path)]
  {
    if onDisk.Some? then onDisk
    else
      var name := Basename(path);
      if name in ImageDimensions then Some(ImageDimensions[name]) else None
  }

  // ------------------------------------------------------------ the dimension scan

  /** One match: the whitespace after `<img`, group 1, the `src` value and group 3. */
  datatype ImgSrc = ImgSrc(ws: string, before: string, src: string, after: string)

  /** The text of a match. */
  function FullTag(m: ImgSrc): string
  {
    "<img" + m.ws + m.before + SrcAttr + m.src + "\"" + m.after + ">"
  }

  /** The groups as the pattern can capture them. */
  predicate WellFormed(m: ImgSrc)
  {
    m.ws != [] && AllSpace(m.ws) && '>' !in m.before &&
    m.src != [] && '"' !in m.src && '>' !in m.after
  }

  /** Group 1, the `src` value, group 3 and the text after the tag's `>`. */
  datatype SrcMatch = SrcMatch(before: string, src: string, after: string, tail: string)

  /** The text a `SrcMatch` covers, from group 1 on. */
  function SrcText(f: SrcMatch): string
  {
    f.before + SrcAttr + f.src + "\"" + f.after + ">" + f.tail
  }

  predicate SrcShape(f: SrcMatch)
  {
    '>' !in f.before && f.src != [] && '"' !in f.src && '>' !in f.after
  }

  /** After `src="`: a non-empty value, its closing quote, group 3 up to the next `>`, and the rest. */
  function SrcValue(u: string): (r: Option<SrcMatch>)
    ensures r.Some? ==> r.value.before == [] && SrcShape(r.value) && SrcAttr + u == SrcText(r.value)
  {
    match SplitOnce(u, "\"")
    case None => None
    case Some((src, rest)) =>
      if src == [] then None
      else
        match SplitOnce(rest, ">")
        case None => None
        case Some((after, tail)) =>
          ContainsChar(src, '"');
          ContainsChar(after, '>');
          SrcTextParts(u, SrcMatch([], src, after, tail), rest);
          Some(SrcMatch([], src, after, tail))
  }

  lemma SrcTextParts(u: string, f: SrcMatch, rest: string)
    requires f.before == [] && u == f.src + "\"" + rest && rest == f.after + ">" + f.tail
    ensures SrcAttr + u == SrcText(f)
  {
  }

  lemma SrcTextCons(c: char, f: SrcMatch)
    ensures SrcText(f.(before := [c] + f.before)) == [c] + SrcText(f)
  {
  }

  /** `src="` starts at index `j` of `t` and is followed by a value that completes the match. */
  predicate SrcAt(t: string, j: nat)
  {
    j <= |t| && SrcAttr <= t[j..] && SrcValue(t[j..][|SrcAttr|..]).Some?
  }

  lemma SrcAtShift(t: string)
    requires t != []
    ensures forall j :: 1 <= j <= |t| ==> (SrcAt(t, j) <==> SrcAt(t[1..], j - 1))
  {
    forall j | 1 <= j <= |t|
      ensures SrcAt(t, j) <==> SrcAt(t[1..], j - 1)
    {
      assert t[j..] == t[1..][j - 1..];
    }
  }

  /** Group 1 grows one character at a time until `src="` starts a value that completes the match. */
  function FindSrc(t: string): (r: Option<SrcMatch>)
    ensures r.Some? ==> t == SrcText(r.value) && SrcShape(r.value)
    decreases |t|
  {
    if t == [] then None
    else if SrcAttr <= t && SrcValue(t[|SrcAttr|..]).Some? then
      assert t == SrcAttr + t[|SrcAttr|..];
      SrcValue(t[|SrcAttr|..])
    else if t[0] == '>' then None
    else
      match FindSrc(t[1..])
      case None => None
      case Some(f) =>
        assert t == [t[0]] + t[1..];
        SrcTextCons(t[0], f);
        Some(f.(before := [t[0]] + f.before))
  }

  /** The lazy group 1: the match found has the shortest group 1 of all. */
  lemma {:induction false} FindSrcLeftmost(t: string)
    requires FindSrc(t).Some?
    ensures var b := FindSrc(t).value.before;
      SrcAt(t, |b|) && forall j :: 0 <= j < |b| ==> !SrcAt(t, j)
    decreases |t|
  {
    if SrcAttr <= t && SrcValue(t[|SrcAttr|..]).Some? {
      assert t[0..] == t;
    } else {
      var f := FindSrc(t[1..]).value;
      FindSrcLeftmost(t[1..]);
      FirstSrcStep(t, |f.before|);
    }
  }

  /** There is no match when no position up to the first `>` starts one. */
  lemma {:induction false} FindSrcNone(t: string)
    requires FindSrc(t).None?
    ensures forall j :: 0 <= j <= |t| && '>' !in t[..j] ==> !SrcAt(t, j)
    decreases |t|
  {
    if t == [] {
    } else if t[0] == '>' {
      NoSrcPastClose(t);
    } else {
      FindSrcNone(t[1..]);
      NoSrcStep(t);
    }
  }

  /** A text starting with `>` has no match position before its first `>` but the start, which fails. */
  lemma NoSrcPastClose(t: string)
    requires t != [] && t[0] == '>'
    ensures forall j :: 0 <= j <= |t| && '>' !in t[..j] ==> !SrcAt(t, j)
  {
    assert t[0..] == t;
    forall j | 1 <= j <= |t|
      ensures '>' in t[..j]
    {
      assert t[..j][0] == '>';
    }
  }

  /** No match position in `t[1..]` before its first `>` and none at the start: none in `t`. */
  lemma NoSrcStep(t: string)
    requires t != [] && t[0] != '>' && !(SrcAttr <= t && SrcValue(t[|SrcAttr|..]).Some?)
    requires forall j :: 0 <= j <= |t| - 1 && '>' !in t[1..][..j] ==> !SrcAt(t[1..], j)
    ensures forall j :: 0 <= j <= |t| && '>' !in t[..j] ==> !SrcAt(t, j)
  {
    assert t[0..] == t;
    SrcAtShift(t);
    forall j | 1 <= j <= |t| && '>' !in t[..j]
      ensures '>' !in t[1..][..j - 1]
    {
      assert t[1..][..j - 1] == t[..j][1..];
    }
  }

  /** The first match position in `t[1..]`, shifted by one, is the first in `t` when the start fails. */
  lemma FirstSrcStep(t: string, k: nat)
    requires t != [] && !(SrcAttr <= t && SrcValue(t[|SrcAttr|..]).Some?)
    requires SrcAt(t[1..], k) && forall j :: 0 <= j < k ==> !SrcAt(t[1..], j)
    ensures SrcAt(t, k + 1) && forall j :: 0 <= j < k + 1 ==> !SrcAt(t, j)
  {
    assert t[0..] == t;
    SrcAtShift(t);
  }

  /** The match of the dimension pattern at the start of `s` and the text after it. */
  function MatchImg(s: string): (r: Option<(ImgSrc, string)>)
    ensures r.Some? ==> WellFormed(r.value.0) && s == FullTag(r.value.0) + r.value.1
  {
    if !("<img" <= s) then None
    else
      var rest := s[4..];
      var ws := LeadingSpace(rest);
      if ws == [] then None
      else
        match FindSrc(rest[|ws|..])
        case None => None
        case Some(f) =>
          var m := ImgSrc(ws, f.before, f.src, f.after);
          assert s == "<img" + rest;
          assert rest == ws + rest[|ws|..];
          FullTagParts(m, f);
          Some((m, f.tail))
  }

  lemma FullTagParts(m: ImgSrc, f: SrcMatch)
    requires m.before == f.before && m.src == f.src && m.after == f.after
    ensures FullTag(m) + f.tail == "<img" + (m.ws + SrcText(f))
  {
  }

  // ------------------------------------------------------------ the dimension callback

  /** The image file a `src` names, relative to the page: `../` dropped on sports pages, `./` elsewhere. */
  function ImagePath(src: string, htmlFile: string): string
  {
    if "sports/" <= htmlFile then ReplaceAll(src, "../", "") else ReplaceAll(src, "./", "")
  }

  const WidthAttr: string := "width="
  const HeightAttr: string := "height="

  /** The tag rebuilt with the size right after `src`; the whitespace after `<img` becomes one space. */
  function WithDimensions(m: ImgSrc, w: nat, h: nat): string
  {
    "<img " + m.before + SrcAttr + m.src + "\" " + WidthAttr + "\"" + NatToString(w) + "\" " +
    HeightAttr + "\"" + NatToString(h) + "\"" + m.after + ">"
  }

  predicate HasDimensions(tag: string)
  {
    Contains(tag, WidthAttr) && Contains(tag, HeightAttr)
  }

  /**
   * `replace_img`: `None` when the match is returned as it is; otherwise the
   * rebuilt tag. `disk` gives the size read from each image file, if any.
   */
  function ReplaceImg(m: ImgSrc, htmlFile: string, disk: string -> Option<(nat, nat)>): (r: Option<string>)
    ensures HasDimensions(FullTag(m)) ==> r.None?
    ensures !HasDimensions(FullTag(m)) ==>
      (r.Some? <==> GetImageDimensions(ImagePath(m.src, htmlFile), disk(ImagePath(m.src, htmlFile))).Some?)
    ensures r.Some? ==> var d := GetImageDimensions(ImagePath(m.src, htmlFile), disk(ImagePath(m.src, htmlFile))).value;
      r.value == WithDimensions(m, d.0, d.1)
  {
    if HasDimensions(FullTag(m)) then None
    else
      var path := ImagePath(m.src, htmlFile);
      match GetImageDimensions(path, disk(path))
      case None => None
      case Some((w, h)) => Some(WithDimensions(m, w, h))
  }

  /** A rebuilt tag has both attributes, so the callback returns it as it is on a second run. */
  lemma RebuiltHasDimensions(m: ImgSrc, w: nat, h: nat)
    ensures HasDimensions(WithDimensions(m, w, h))
  {
    var t := WithDimensions(m, w, h);
    var a := "<img " + m.before + SrcAttr + m.src + "\" ";
    var b := "\"" + NatToString(w) + "\" ";
    var c := "\"" + NatToString(h) + "\"" + m.after + ">";
    assert t == a + WidthAttr + (b + HeightAttr + c);
    ContainsMiddle(a, WidthAttr, b + HeightAttr + c);
    assert t == (a + WidthAttr + b) + HeightAttr + c;
    ContainsMiddle(a + WidthAttr + b, HeightAttr, c);
  }

  /** The rebuilt tag keeps group 1, the source and group 3 and carries the given size. */
  lemma RebuiltKeepsAttributes(m: ImgSrc, w: nat, h: nat)
    ensures ("<img " + m.before + SrcAttr + m.src + "\"") <= WithDimensions(m, w, h)
    ensures var t := WithDimensions(m, w, h);
      t[|t| - |m.after| - 1..] == m.after + ">"
  {
  }

  /** What the scan puts in place of a match. */
  function Replacement(m: ImgSrc, htmlFile: string, disk: string -> Option<(nat, nat)>): string
  {
    match ReplaceImg(m, htmlFile, disk)
    case None => FullTag(m)
    case Some(t) => t
  }

  /** `re.sub(img_pattern, replace_img, content)` in `add_dimensions_to_images`. */
  function AddDimensions(s: string, htmlFile: string, disk: string -> Option<(nat, nat)>): string
    decreases |s|
  {
    if s == [] then []
    else
      match MatchImg(s)
      case Some((m, tail)) => Replacement(m, htmlFile, disk) + AddDimensions(tail, htmlFile, disk)
      case None => [s[0]] + AddDimensions(s[1..], htmlFile, disk)
  }

  /** Its `changes` counter: the tags rebuilt. */
  function DimensionChanges(s: string, htmlFile: string, disk: string -> Option<(nat, nat)>): nat
    decreases |s|
  {
    if s == [] then 0
    else
      match MatchImg(s)
      case Some((m, tail)) =>
        (if ReplaceImg(m, htmlFile, disk).Some? then 1 else 0) + DimensionChanges(tail, htmlFile, disk)
      case None => DimensionChanges(s[1..], htmlFile, disk)
  }

  /** With no tag rebuilt, the page comes back as it was. */
  lemma {:induction false} NoDimensionChangesUnchanged(s: string, htmlFile: string, disk: string -> Option<(nat, nat)>)
    requires DimensionChanges(s, htmlFile, disk) == 0
    ensures AddDimensions(s, htmlFile, disk) == s
    decreases |s|
  {
    if s != [] {
      match MatchImg(s)
      case Some((m, tail)) =>
        NoDimensionChangesUnchanged(tail, htmlFile, disk);
      case None =>
        NoDimensionChangesUnchanged(s[1..], htmlFile, disk);
    }
  }

  // ------------------------------------------------------------ lazy loading

  const LoadingAttr: string := "loading="
  /** What `add_lazy_loading` inserts before a tag's `>`. */
  const LazyAttrs: string := " " + LoadingAttr + "\"lazy\" decoding=\"async\""
  const LazyClose: string := LazyAttrs + ">"

  /** `replace_lazy`: tags with `loading=` or the header logo stay; others get the attributes at every `>`. */
  function LazyCallback(t: string): string
  {
    if Contains(t, LoadingAttr) || Contains(t, "header-logo") then t else ReplaceAll(t, ">", LazyClose)
  }

  predicate LazyCounted(t: string)
  {
    !Contains(t, LoadingAttr) && !Contains(t, "header-logo")
  }

  /** `add_lazy_loading`: the new content and its `changes` counter. */
  function AddLazyLoading(s: string): (string, nat)
  {
    (Sub(s, Img, LazyCallback), CountWhere(Tags(s, Img), LazyCounted))
  }

  lemma LazyAttrsHasNoClose()
    ensures '>' !in LazyAttrs
  {
  }

  /** On a tag the attributes are inserted once, right before its closing `>`. */
  lemma LazyInsertedOnce(t: string)
    requires IsTag(t, Img) && LazyCounted(t)
    ensures LazyCallback(t) == t[..|t| - 1] + LazyAttrs + ">"
  {
    ReplaceClose(t, Img, LazyClose);
  }

  /** The inserted text carries `loading=`. */
  lemma LazyHasLoading(body: string)
    ensures Contains(body + LazyAttrs + ">", LoadingAttr)
  {
    var rest := "\"lazy\" decoding=\"async\"" + ">";
    assert body + LazyAttrs + ">" == (body + " ") + LoadingAttr + rest;
    ContainsMiddle(body + " ", LoadingAttr, rest);
  }

  /** The callback turns tags into tags and is idempotent on them. */
  lemma LazyCallbackStable(t: string)
    requires IsTag(t, Img)
    ensures IsTag(LazyCallback(t), Img) && LazyCallback(LazyCallback(t)) == LazyCallback(t)
  {
    if LazyCounted(t) {
      LazyInsertedOnce(t);
      LazyAttrsHasNoClose();
      ExtendTag(t, LazyAttrs, Img);
      LazyHasLoading(t[..|t| - 1]);
    }
  }

  /** Running the lazy-loading pass twice gives the same page as running it once. */
  lemma AddLazyLoadingIdempotent(s: string)
    ensures AddLazyLoading(AddLazyLoading(s).0).0 == AddLazyLoading(s).0
  {
    forall t | IsTag(t, Img)
      ensures IsTag(LazyCallback(t), Img) && LazyCallback(LazyCallback(t)) == LazyCallback(t)
    {
      LazyCallbackStable(t);
    }
    SubIdempotent(s, Img, LazyCallback);
  }

  // ------------------------------------------------------------ files

  /**
   * `process_file` on an existing page: the dimension pass, then the lazy
   * pass; the change list holds one count per pass that changed something,
   * and the page is written exactly when that list is non-empty.
   */
  function ProcessFile(s: string, htmlFile: string, disk: string -> Option<(nat, nat)>): (r: (Option<string>, seq<nat>))
    ensures r.0.Some? <==> r.1 != []
    ensures |r.1| <= 2 && forall k :: 0 <= k < |r.1| ==> r.1[k] > 0
    ensures r.0.Some? ==> r.0.value == AddLazyLoading(AddDimensions(s, htmlFile, disk)).0
    ensures r.1 == [] ==> AddLazyLoading(AddDimensions(s, htmlFile, disk)).0 == s
  {
    var dimChanges := DimensionChanges(s, htmlFile, disk);
    var s1 := AddDimensions(s, htmlFile, disk);
    var (s2, lazyChanges) := AddLazyLoading(s1);
    var changes := (if dimChanges > 0 then [dimChanges] else []) + (if lazyChanges > 0 then [lazyChanges] else []);
    if changes == [] then
      NoDimensionChangesUnchanged(s, htmlFile, disk);
      NoLazyChangesUnchanged(s1);
      (None, [])
    else (Some(s2), changes)
  }

  /** With no tag counted, the lazy pass leaves the page as it is. */
  lemma NoLazyChangesUnchanged(s: string)
    requires AddLazyLoading(s).1 == 0
    ensures AddLazyLoading(s).0 == s
  {
    var tags := Tags(s, Img);
    forall t | t in tags
      ensures LazyCallback(t) == t
    {
      var k :| 0 <= k < |tags| && tags[k] == t;
      CountZero(tags, LazyCounted, k);
    }
    SubUnchanged(s, Img, LazyCallback);
  }

  /** A zero count means no element satisfies the predicate. */
  lemma {:induction false} CountZero(tags: seq<string>, p: string -> bool, k: nat)
    requires CountWhere(tags, p) == 0 && k < |tags|
    ensures !p(tags[k])
  {
    if k > 0 {
      CountZero(tags[1..], p, k - 1);
    }
  }

  /** The number of change messages for one page: its path and, when the file exists, its content. */
  function Improvements(page: (string, Option<string>), disk: string -> Option<(nat, nat)>): nat
  {
    if page.1.Some? then |ProcessFile(page.1.value, page.0, disk).1| else 0
  }

  predicate Modified(page: (string, Option<string>), disk: string -> Option<(nat, nat)>)
  {
    Improvements(page, disk) > 0
  }

  function FilesModified(pages: seq<(string, Option<string>)>, disk: string -> Option<(nat, nat)>): nat
  {
    if pages == [] then 0
    else FilesModified(pages[..|pages| - 1], disk) + (if Modified(pages[|pages| - 1], disk) then 1 else 0)
  }

  function TotalImprovements(pages: seq<(string, Option<string>)>, disk: string -> Option<(nat, nat)>): nat
  {
    if pages == [] then 0
    else TotalImprovements(pages[..|pages| - 1], disk) + Improvements(pages[|pages| - 1], disk)
  }

  /** Each page contributes at most two messages, so the total is bounded by twice the files modified. */
  lemma {:induction false} ImprovementsBounded(pages: seq<(string, Option<string>)>, disk: string -> Option<(nat, nat)>)
    ensures FilesModified(pages, disk) <= |pages|
    ensures TotalImprovements(pages, disk) <= 2 * FilesModified(pages, disk)
  {
    if pages != [] {
      ImprovementsBounded(pages[..|pages| - 1], disk);
    }
  }

  /** `main`: missing files are skipped; the counters tally the files with change messages and the messages. */
  method FixAll(pages: seq<(string, Option<string>)>, disk: string -> Option<(nat, nat)>)
    returns (totalFiles: nat, totalChanges: nat)
    ensures totalFiles == FilesModified(pages, disk)
    ensures totalChanges == TotalImprovements(pages, disk)
  {
    totalFiles, totalChanges := 0, 0;
    for i := 0 to |pages|
      invariant totalFiles == FilesModified(pages[..i], disk)
      invariant totalChanges == TotalImprovements(pages[..i], disk)
    {
      assert pages[..i + 1][..i] == pages[..i];
      var changes := Improvements(pages[i], disk);
      if changes > 0 {
        totalFiles := totalFiles + 1;
        totalChanges := totalChanges + changes;
      }
    }
    assert pages[..|pages|] == pages;
  }
}

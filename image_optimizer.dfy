/**
 * `scripts/optimize-images-simple.py`: images below the fold get
 * `loading="lazy"` and `decoding="async"`, above-the-fold images only
 * `decoding="async"`, and videos `preload="none"`.
 *
 * Both scans use the pattern `(<NAME\s+[^>]*?)(>)`, the tag scan of
 * `HtmlTags`; each callback receives the tag with its closing `>` and keeps
 * that `>` last, so a second run finds every attribute in place.
 */
module ImageOptimizer {
  import opened Wrappers
  import opened Strings
  import opened HtmlTags

  const Img: string := "img"
  const Video: string := "video"

  const LoadingAttr: string := "loading="
  const DecodingAttr: string := "decoding="
  const PreloadAttr: string := "preload="

  const LazyLoading: string := "loading=\"lazy\""
  const AsyncDecoding: string := "decoding=\"async\""
  const NoPreload: string := " preload=\"none\""

  /** The tag without its closing `>` (group 1 of the pattern). */
  function Body(t: string): string
  {
    if t == [] then [] else t[..|t| - 1]
  }

  /** Images that should load eagerly: header and brand logos and hero images. */
  predicate AboveFold(body: string)
  {
    Contains(body, "header-logo") || Contains(body, "hero-") || Contains(body, "brand-logo")
  }

  /** The attributes the callback appends to a below-the-fold image. */
  function AttrsToAdd(body: string): seq<string>
  {
    (if !Contains(body, LoadingAttr) then [LazyLoading] else []) +
    (if !Contains(body, DecodingAttr) then [AsyncDecoding] else [])
  }

  /** `replace_img` in `add_lazy_loading_to_images`. */
  function ImgCallback(t: string): string
  {
    var body := Body(t);
    if Contains(body, LoadingAttr) then t
    else if AboveFold(body) then
      if !Contains(body, DecodingAttr) then body + " " + AsyncDecoding + ">" else t
    else
      var attrs := AttrsToAdd(body);
      if attrs != [] then body + " " + Join(attrs, " ") + ">" else t
  }

  /** The tags `replace_img` counts: those without `loading=` below the fold. */
  predicate ImgCounted(t: string)
  {
    !Contains(Body(t), LoadingAttr) && !AboveFold(Body(t))
  }

  /** `replace_video` in `add_video_lazy_loading`. */
  function VideoCallback(t: string): string
  {
    var body := Body(t);
    if Contains(body, PreloadAttr) then t else body + NoPreload + ">"
  }

  predicate VideoCounted(t: string)
  {
    !Contains(Body(t), PreloadAttr)
  }

  /** `add_lazy_loading_to_images`: the new content and the number of counted images. */
  function LazyImages(s: string): (string, nat)
  {
    (Sub(s, Img, ImgCallback), CountWhere(Tags(s, Img), ImgCounted))
  }

  /** `add_video_lazy_loading`. */
  function LazyVideos(s: string): (string, nat)
  {
    (Sub(s, Video, VideoCallback), CountWhere(Tags(s, Video), VideoCounted))
  }

  // ------------------------------------------------------------ the image callback

  /** A below-the-fold image without `loading=` always gets `loading="lazy"`, so the list is never empty there. */
  lemma AttrsNeverEmpty(body: string)
    requires !Contains(body, LoadingAttr)
    ensures AttrsToAdd(body) != [] && AttrsToAdd(body)[0] == LazyLoading
  {
  }

  /** An image that already has `loading=` is returned unchanged. */
  lemma ImgWithLoadingKept(t: string)
    requires Contains(Body(t), LoadingAttr)
    ensures ImgCallback(t) == t
  {
  }

  /**
   * Above the fold only `decoding="async"` is added, and only when missing;
   * below the fold whichever of the two attributes is missing is added; a tag
   * changes exactly when it is counted or is an above-the-fold image without
   * `decoding=`.
   */
  lemma ImgCallbackCases(t: string)
    requires IsTag(t, Img)
    ensures !Contains(Body(t), LoadingAttr) && AboveFold(Body(t)) ==>
      ImgCallback(t) == (if Contains(Body(t), DecodingAttr) then t else Body(t) + " " + AsyncDecoding + ">")
    ensures ImgCounted(t) ==>
      ImgCallback(t) == Body(t) + " " + LazyLoading + (if Contains(Body(t), DecodingAttr) then "" else " " + AsyncDecoding) + ">"
    ensures ImgCallback(t) != t <==>
      ImgCounted(t) || (!Contains(Body(t), LoadingAttr) && AboveFold(Body(t)) && !Contains(Body(t), DecodingAttr))
  {
    var body := Body(t);
    TagShape(t, Img);
    assert t == body + ">";
    if ImgCounted(t) {
      AttrsNeverEmpty(body);
      if Contains(body, DecodingAttr) {
        assert AttrsToAdd(body) == [LazyLoading];
        assert Join([LazyLoading], " ") == LazyLoading;
      } else {
        assert AttrsToAdd(body) == [LazyLoading, AsyncDecoding];
        assert Join([LazyLoading, AsyncDecoding], " ") == LazyLoading + " " + AsyncDecoding;
      }
    }
  }

  /** The callback turns image tags into image tags and is idempotent on them. */
  lemma ImgCallbackStable(t: string)
    requires IsTag(t, Img)
    ensures IsTag(ImgCallback(t), Img) && ImgCallback(ImgCallback(t)) == ImgCallback(t)
  {
    ImgCallbackCases(t);
    if ImgCounted(t) {
      LazyStable(t);
    } else if ImgCallback(t) != t {
      EagerStable(t);
    }
  }

  /** A below-the-fold image gains `loading="lazy"`, so the second pass keeps it. */
  lemma LazyStable(t: string)
    requires IsTag(t, Img) && ImgCounted(t)
    ensures IsTag(ImgCallback(t), Img) && ImgCallback(ImgCallback(t)) == ImgCallback(t)
  {
    var body := Body(t);
    ImgCallbackCases(t);
    var x := " " + LazyLoading + (if Contains(body, DecodingAttr) then "" else " " + AsyncDecoding);
    assert ImgCallback(t) == body + x + ">";
    var y := if Contains(body, DecodingAttr) then "" else " " + AsyncDecoding;
    assert x == " " + LazyLoading + y;
    assert '>' !in x;
    AppendedTag(t, x);
    LoadingAppended(body, y);
    BodyOf(body + x);
    ImgWithLoadingKept(body + x + ">");
  }

  /** Text without `>` appended to a tag's body, then `>`, gives a tag. */
  lemma AppendedTag(t: string, x: string)
    requires IsTag(t, Img) && '>' !in x
    ensures IsTag(Body(t) + x + ">", Img)
  {
    TagShape(t, Img);
    ExtendTag(t, x, Img);
  }

  lemma LoadingAppended(body: string, y: string)
    ensures Contains(body + (" " + LazyLoading + y), LoadingAttr)
  {
    var x := " " + LazyLoading + y;
    assert x[1..1 + |LoadingAttr|] == LoadingAttr;
    ContainsAt(x, LoadingAttr, 1);
    ContainsInSuffix(body, x, LoadingAttr);
  }

  lemma AsyncHasNoLoading()
    ensures !Contains(" " + AsyncDecoding, LoadingAttr)
    ensures (" " + AsyncDecoding)[0] !in LoadingAttr
  {
    var x := " " + AsyncDecoding;
    assert x[0] == ' ' && LoadingAttr[0] == 'l';
    assert forall i :: 0 <= i < |LoadingAttr| ==> LoadingAttr[i] != ' ';
    assert forall i :: 0 <= i < |x| ==> x[i] != 'l';
    NotContainsFirstChar(x, LoadingAttr);
  }

  /** Appending ` decoding="async"` adds no `loading=`. */
  lemma DecodingAppendedNoLoading(body: string)
    requires !Contains(body, LoadingAttr)
    ensures !Contains(body + (" " + AsyncDecoding), LoadingAttr)
  {
    AsyncHasNoLoading();
    NotContainsConcat(body, " " + AsyncDecoding, LoadingAttr);
  }

  /** Appending ` decoding="async"` adds `decoding=`. */
  lemma DecodingAppended(body: string)
    ensures Contains(body + (" " + AsyncDecoding), DecodingAttr)
  {
    var x := " " + AsyncDecoding;
    assert x[1..1 + |DecodingAttr|] == DecodingAttr;
    ContainsAt(x, DecodingAttr, 1);
    ContainsInSuffix(body, x, DecodingAttr);
  }

  /** An above-the-fold image gains `decoding="async"` only, so the second pass keeps it. */
  lemma EagerStable(t: string)
    requires IsTag(t, Img) && !Contains(Body(t), LoadingAttr) && AboveFold(Body(t)) && !Contains(Body(t), DecodingAttr)
    ensures IsTag(ImgCallback(t), Img) && ImgCallback(ImgCallback(t)) == ImgCallback(t)
  {
    var body := Body(t);
    ImgCallbackCases(t);
    var x := " " + AsyncDecoding;
    assert ImgCallback(t) == body + x + ">";
    AppendedTag(t, x);
    BodyOf(body + x);
    DecodingAppendedNoLoading(body);
    DecodingAppended(body);
    AboveFoldKept(body, x);
  }

  lemma AboveFoldKept(body: string, x: string)
    requires AboveFold(body)
    ensures AboveFold(body + x)
  {
    if Contains(body, "header-logo") {
      ContainsInPrefix(body, x, "header-logo");
    } else if Contains(body, "hero-") {
      ContainsInPrefix(body, x, "hero-");
    } else {
      ContainsInPrefix(body, x, "brand-logo");
    }
  }

  /** Running the image pass twice gives the same page as running it once. */
  lemma LazyImagesIdempotent(s: string)
    ensures LazyImages(LazyImages(s).0).0 == LazyImages(s).0
  {
    forall t | IsTag(t, Img)
      ensures IsTag(ImgCallback(t), Img) && ImgCallback(ImgCallback(t)) == ImgCallback(t)
    {
      ImgCallbackStable(t);
    }
    SubIdempotent(s, Img, ImgCallback);
  }

  // ------------------------------------------------------------ the video callback

  /** The body of a tag built from a body and `>` is that body. */
  lemma BodyOf(x: string)
    ensures Body(x + ">") == x
  {
  }

  lemma PreloadAdded(body: string)
    ensures Contains(body + NoPreload, PreloadAttr)
  {
    ContainsAt(NoPreload, PreloadAttr, 1);
    ContainsInSuffix(body, NoPreload, PreloadAttr);
  }

  /** A video without `preload=` gets ` preload="none"` before its `>`; one with it is kept. */
  lemma VideoCallbackStable(t: string)
    requires IsTag(t, Video)
    ensures VideoCallback(t) == t <==> Contains(Body(t), PreloadAttr)
    ensures IsTag(VideoCallback(t), Video) && VideoCallback(VideoCallback(t)) == VideoCallback(t)
  {
    var body := Body(t);
    TagShape(t, Video);
    if !Contains(body, PreloadAttr) {
      var u := body + NoPreload + ">";
      assert VideoCallback(t) == u;
      ExtendTag(t, NoPreload, Video);
      BodyOf(body + NoPreload);
      PreloadAdded(body);
      assert |u| > |t|;
    }
  }

  /** Running the video pass twice gives the same page as running it once. */
  lemma LazyVideosIdempotent(s: string)
    ensures LazyVideos(LazyVideos(s).0).0 == LazyVideos(s).0
  {
    forall t | IsTag(t, Video)
      ensures IsTag(VideoCallback(t), Video) && VideoCallback(VideoCallback(t)) == VideoCallback(t)
    {
      VideoCallbackStable(t);
    }
    SubIdempotent(s, Video, VideoCallback);
  }

  /** A page whose videos all have `preload=` comes back unchanged from the video pass. */
  lemma LazyVideosUnchanged(s: string)
    requires forall k :: 0 <= k < |Tags(s, Video)| ==> Contains(Body(Tags(s, Video)[k]), PreloadAttr)
    ensures LazyVideos(s).0 == s
  {
    var tags := Tags(s, Video);
    forall t | t in tags
      ensures VideoCallback(t) == t
    {
      var k :| 0 <= k < |tags| && tags[k] == t;
    }
    SubUnchanged(s, Video, VideoCallback);
  }

  // ------------------------------------------------------------ files

  /** `process_file`: the change messages as counts, and the content to write when it differs. */
  function ProcessFile(s: string): (r: (Option<string>, seq<nat>))
    ensures r.0.Some? <==> LazyVideos(LazyImages(s).0).0 != s
    ensures r.0.Some? ==> r.0.value == LazyVideos(LazyImages(s).0).0
    ensures |r.1| <= 2 && forall k :: 0 <= k < |r.1| ==> r.1[k] > 0
  {
    var (s1, imgChanges) := LazyImages(s);
    var (s2, videoChanges) := LazyVideos(s1);
    var changes := (if imgChanges > 0 then [imgChanges] else []) + (if videoChanges > 0 then [videoChanges] else []);
    (if s2 != s then Some(s2) else None, changes)
  }

  /** The number of change messages for one entry of the file list; a missing file has none. */
  function Improvements(page: Option<string>): nat
  {
    if page.Some? then |ProcessFile(page.value).1| else 0
  }

  predicate Modified(page: Option<string>)
  {
    Improvements(page) > 0
  }

  function FilesModified(pages: seq<Option<string>>): nat
  {
    if pages == [] then 0 else FilesModified(pages[..|pages| - 1]) + (if Modified(pages[|pages| - 1]) then 1 else 0)
  }

  function TotalImprovements(pages: seq<Option<string>>): nat
  {
    if pages == [] then 0 else TotalImprovements(pages[..|pages| - 1]) + Improvements(pages[|pages| - 1])
  }

  /** Each file contributes at most two improvements, so the total is bounded by twice the files modified. */
  lemma {:induction false} ImprovementsBounded(pages: seq<Option<string>>)
    ensures FilesModified(pages) <= |pages|
    ensures TotalImprovements(pages) <= 2 * FilesModified(pages)
  {
    if pages != [] {
      ImprovementsBounded(pages[..|pages| - 1]);
    }
  }

  /** `main`: missing files (`None`) are skipped; the counters tally the files with change messages. */
  method OptimizeAll(pages: seq<Option<string>>) returns (totalFiles: nat, totalChanges: nat)
    ensures totalFiles == FilesModified(pages)
    ensures totalChanges == TotalImprovements(pages)
  {
    totalFiles, totalChanges := 0, 0;
    for i := 0 to |pages|
      invariant totalFiles == FilesModified(pages[..i])
      invariant totalChanges == TotalImprovements(pages[..i])
    {
      assert pages[..i + 1][..i] == pages[..i];
      if pages[i].Some? {
        var changes := ProcessFile(pages[i].value).1;
        if changes != [] {
          totalFiles := totalFiles + 1;
          totalChanges := totalChanges + |changes|;
        }
      }
      assert Improvements(pages[i]) > 0 <==> Modified(pages[i]);
    }
    assert pages[..|pages|] == pages;
  }
}

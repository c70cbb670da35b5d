/**
 * `scripts/add-video-alt-text.py`: every catalogue video without an
 * `aria-label` gets one, derived from the file name of its poster image.
 *
 * The scan `<video class="catalog-video[^"]*"([^>]*?)>(.*?)</video>` is
 * written out as the deterministic match it amounts to: after the fixed
 * opening, the class runs to the first `"`, the attributes to the first `>`
 * and the content to the first `</video>`.
 */
module VideoAltText {
  import opened Wrappers
  import opened Strings

  const VideoOpen: string := "<video class=\"catalog-video"
  const VideoClose: string := "</video>"
  const AriaLabel: string := "aria-label="
  const PosterAttr: string := "poster=\""
  /** The rest of the class a rewritten video gets. */
  const NewClassRest: string := " hover-play lazy-video"

  /** The product videos whose poster names have a hand-written description. */
  const VideoDescriptions: map<string, string> := map[
    "English TV" := "Premier English IPTV package preview - UK and US channels",
    "France TV" := "France IPTV Collective package preview - French channels",
    "German TV" := "DACH Sports & News package preview - German channels",
    "italy TV" := "Italian Serie A IPTV package preview - Italian channels",
    "Latin TV" := "LATAM Sports & Novelas package preview - Spanish and Portuguese channels",
    "Scandinavia TV" := "Nordic IPTV Fabric package preview - Scandinavian channels",
    "India TV" := "India Cricket & Cinema package preview - Indian channels",
    "Netherlands TV" := "Netherlands All Access package preview - Dutch channels",
    "The world TV" := "Global Hospitality IPTV package preview - Worldwide channels"
  ]

  /** One match of the video pattern: the rest of the class, group 1 and group 2. */
  datatype VideoTag = VideoTag(classRest: string, attrs: string, inner: string)

  /** The text of a match. */
  function Render(v: VideoTag): string
  {
    VideoOpen + v.classRest + "\"" + v.attrs + ">" + v.inner + VideoClose
  }

  /** The groups as the pattern can capture them. */
  predicate WellFormed(v: VideoTag)
  {
    '"' !in v.classRest && '>' !in v.attrs && !Contains(v.inner, VideoClose)
  }

  // ------------------------------------------------------------ matching

  /** The match of the video pattern at the start of `s` and the text after it, if there is one. */
  function MatchVideo(s: string): (r: Option<(VideoTag, string)>)
    ensures r.Some? ==> WellFormed(r.value.0) && s == Render(r.value.0) + r.value.1
  {
    if !(VideoOpen <= s) then None
    else
      match SplitOnce(s[|VideoOpen|..], "\"")
      case None => None
      case Some((classRest, after)) =>
        match SplitOnce(after, ">")
        case None => None
        case Some((attrs, body)) =>
          match SplitOnce(body, VideoClose)
          case None => None
          case Some((inner, tail)) =>
            ContainsChar(classRest, '"');
            ContainsChar(attrs, '>');
            var v := VideoTag(classRest, attrs, inner);
            RenderParts(v, tail);
            assert s == VideoOpen + s[|VideoOpen|..];
            Some((v, tail))
  }

  lemma RenderParts(v: VideoTag, tail: string)
    ensures Render(v) + tail == VideoOpen + (v.classRest + "\"" + (v.attrs + ">" + (v.inner + VideoClose + tail)))
  {
  }

  /** `</video>` occurs first right after content that lacks it. */
  lemma FirstClose(inner: string, rest: string)
    requires !Contains(inner, VideoClose)
    ensures SplitOnce(inner + VideoClose + rest, VideoClose) == Some((inner, rest))
  {
    assert VideoClose[1..] == "/video>";
    SplitOnceAfter(inner, VideoClose, rest);
  }

  /** A rendered match is recognised again, with the same groups, whatever follows it. */
  lemma MatchRender(v: VideoTag, rest: string)
    requires WellFormed(v)
    ensures MatchVideo(Render(v) + rest) == Some((v, rest))
  {
    var s := Render(v) + rest;
    var body := v.inner + VideoClose + rest;
    var after := v.attrs + ">" + body;
    assert s == VideoOpen + (v.classRest + "\"" + after);
    assert s[|VideoOpen|..] == v.classRest + "\"" + after;
    SplitOnceChar(v.classRest, '"', after);
    SplitOnceChar(v.attrs, '>', body);
    FirstClose(v.inner, rest);
  }

  // ------------------------------------------------------------ the poster name

  /** `[\w%\s]`, with `\w` on the ASCII range. */
  predicate IsNameChar(c: char)
  {
    'a' <= c <= 'z' || 'A' <= c <= 'Z' || IsDigit(c) || c == '_' || c == '%' || IsSpace(c)
  }

  /**
   * The name the poster pattern captures right after `poster="`: the value
   * up to the next quote must end in `.jpg`, and the name between its last `/` and `.jpg` must be non-empty and made of name characters.
   */
  function PosterValue(t: string): (r: Option<string>)
    ensures r.Some? ==> r.value != [] && forall i :: 0 <= i < |r.value| ==> IsNameChar(r.value[i])
    ensures r.Some? ==> Contains(t, "/" + r.value + ".jpg\"")
  {
    match IndexOf(t, "\"")
    case None => None
    case Some(q) =>
      var v := t[..q];
      if |v| < 4 || v[|v| - 4..] != ".jpg" then None
      else
        match LastIndexOf(v[..|v| - 4], '/')
        case None => None
        case Some(k) =>
          var name := v[k + 1..|v| - 4];
          if name == [] || exists i :: 0 <= i < |name| && !IsNameChar(name[i]) then None
          else
            assert t[k..q + 1] == "/" + name + ".jpg\"" by {
              assert t[q] == '"' by { assert t[q..q + 1] == "\""; }
              assert t[k] == v[..|v| - 4][k] == '/';
              assert t[k + 1..q - 4] == name;
              assert t[q - 4..q] == v[|v| - 4..] == ".jpg";
              assert t[k..q + 1] == [t[k]] + t[k + 1..q - 4] + t[q - 4..q] + [t[q]];
            }
            ContainsAt(t, "/" + name + ".jpg\"", k);
            Some(name)
  }

  /** `re.search` for the poster pattern: the first `poster="` whose value fits. */
  function PosterName(attrs: string): (r: Option<string>)
    ensures r.Some? ==> r.value != [] && forall i :: 0 <= i < |r.value| ==> IsNameChar(r.value[i])
    ensures r.Some? ==> Contains(attrs, "/" + r.value + ".jpg\"")
    ensures !Contains(attrs, PosterAttr) ==> r.None?
    decreases |attrs|
  {
    if attrs == [] then None
    else if PosterAttr <= attrs && PosterValue(attrs[|PosterAttr|..]).Some? then
      var name := PosterValue(attrs[|PosterAttr|..]).value;
      ContainsInSuffix(PosterAttr, attrs[|PosterAttr|..], "/" + name + ".jpg\"");
      assert PosterAttr + attrs[|PosterAttr|..] == attrs;
      Some(name)
    else
      match PosterName(attrs[1..])
      case None => None
      case Some(name) =>
        ContainsInSuffix([attrs[0]], attrs[1..], "/" + name + ".jpg\"");
        assert [attrs[0]] + attrs[1..] == attrs;
        Some(name)
  }

  // ------------------------------------------------------------ the callback

  /** The description for a poster name, `%20` decoded: the table entry, else a generic one. */
  function Description(filename: string): (d: string)
    ensures filename in VideoDescriptions ==> d == VideoDescriptions[filename]
    ensures filename !in VideoDescriptions ==> d == filename + " package preview"
  {
    if filename in VideoDescriptions then VideoDescriptions[filename]
    else filename + " package preview"
  }

  /** The description for a captured poster name: `%20` decoded, then looked up. */
  function PosterDescription(name: string): string
  {
    Description(ReplaceAll(name, "%20", " "))
  }

  /** Group 1 right-stripped, after a space, followed by a space and the quoted `aria-label`. */
  function LabelledAttrs(attrs: string, description: string): string
  {
    " " + TrimEnd(attrs) + " " + AriaLabel + "\"" + description + "\""
  }

  /**
   * `replace_video`: `None` when the match is returned as it is, otherwise the
   * rewritten video with the fixed class, the attributes right-stripped and an
   * `aria-label` appended, and the content kept.
   */
  function Label(v: VideoTag): (r: Option<VideoTag>)
    ensures r.None? <==> Contains(v.attrs, AriaLabel) || PosterName(v.attrs).None?
    ensures r.Some? ==> r.value.inner == v.inner && r.value.classRest == NewClassRest
    ensures r.Some? ==> Contains(r.value.attrs, AriaLabel)
    ensures r.Some? ==> r.value.attrs == LabelledAttrs(v.attrs, PosterDescription(PosterName(v.attrs).value))
  {
    if Contains(v.attrs, AriaLabel) then None
    else
      match PosterName(v.attrs)
      case None => None
      case Some(name) =>
        var d := PosterDescription(name);
        var head := " " + TrimEnd(v.attrs) + " ";
        var attrs := LabelledAttrs(v.attrs, d);
        assert attrs == head + (AriaLabel + ("\"" + d + "\""));
        ContainsAt(AriaLabel + ("\"" + d + "\""), AriaLabel, 0);
        ContainsInSuffix(head, AriaLabel + ("\"" + d + "\""), AriaLabel);
        Some(VideoTag(NewClassRest, attrs, v.inner))
  }

  /** What `replace_video` returns for a match. */
  function Replacement(v: VideoTag): string
  {
    match Label(v)
    case None => Render(v)
    case Some(w) => Render(w)
  }

  lemma NewClassRestUnquoted()
    ensures '"' !in NewClassRest
  {
  }

  /** A rewritten video is a match again, and the callback leaves it alone the second time. */
  lemma LabelledSkipped(v: VideoTag, rest: string)
    requires WellFormed(v) && Label(v).Some? && '>' !in Label(v).value.attrs
    ensures MatchVideo(Render(Label(v).value) + rest) == Some((Label(v).value, rest))
    ensures Replacement(Label(v).value) == Render(Label(v).value)
  {
    var w := Label(v).value;
    NewClassRestUnquoted();
    MatchRender(w, rest);
  }

  // ------------------------------------------------------------ the page

  /** `re.sub(video_pattern, replace_video, content, flags=re.DOTALL)`. */
  function AddAriaLabels(s: string): string
    decreases |s|
  {
    if s == [] then []
    else
      match MatchVideo(s)
      case Some((v, tail)) => Replacement(v) + AddAriaLabels(tail)
      case None => [s[0]] + AddAriaLabels(s[1..])
  }

  /** The `changes` counter: the matches the callback rewrites. */
  function Changes(s: string): nat
    decreases |s|
  {
    if s == [] then 0
    else
      match MatchVideo(s)
      case Some((v, tail)) => (if Label(v).Some? then 1 else 0) + Changes(tail)
      case None => Changes(s[1..])
  }

  /** With no rewritten match the page comes back as it was. */
  lemma {:induction false} NoChangesUnchanged(s: string)
    requires Changes(s) == 0
    ensures AddAriaLabels(s) == s
    decreases |s|
  {
    if s != [] {
      match MatchVideo(s)
      case Some((v, tail)) =>
        NoChangesUnchanged(tail);
      case None =>
        NoChangesUnchanged(s[1..]);
    }
  }

  /** A page without the video opening has nothing to match and no change. */
  lemma {:induction false} NoVideoNoChanges(s: string)
    requires !Contains(s, VideoOpen)
    ensures Changes(s) == 0 && AddAriaLabels(s) == s
    decreases |s|
  {
    if s != [] {
      assert !(VideoOpen <= s);
      NotContainsSuffix(s, VideoOpen, 1);
      NoVideoNoChanges(s[1..]);
    }
  }

  /** `process_file`: the content to write back, present exactly when something changed, and the count. */
  function ProcessFile(s: string): (r: (Option<string>, nat))
    ensures r.1 == Changes(s)
    ensures r.0.Some? <==> r.1 > 0
    ensures r.0.Some? ==> r.0.value == AddAriaLabels(s)
    ensures r.0.None? ==> AddAriaLabels(s) == s
  {
    var changes := Changes(s);
    if changes > 0 then (Some(AddAriaLabels(s)), changes)
    else
      NoChangesUnchanged(s);
      (None, 0)
  }

  /** The changes counted for one entry of the file list; a missing file counts none. */
  function FileChanges(file: Option<string>): nat
  {
    if file.Some? then Changes(file.value) else 0
  }

  /** What is written for one entry of the file list. */
  function FileWrite(file: Option<string>): Option<string>
  {
    if file.Some? then ProcessFile(file.value).0 else None
  }

  /** The total the script reports: changes summed over the files that exist. */
  function TotalChanges(files: seq<Option<string>>): nat
  {
    if files == [] then 0 else TotalChanges(files[..|files| - 1]) + FileChanges(files[|files| - 1])
  }

  /** `main`: each existing file is processed; missing files are skipped. */
  method AddLabelsToFiles(files: seq<Option<string>>) returns (written: seq<Option<string>>, total: nat)
    ensures |written| == |files|
    ensures forall i :: 0 <= i < |files| ==> written[i] == FileWrite(files[i])
    ensures total == TotalChanges(files)
  {
    written, total := [], 0;
    for i := 0 to |files|
      invariant |written| == i
      invariant forall j :: 0 <= j < i ==> written[j] == FileWrite(files[j])
      invariant total == TotalChanges(files[..i])
    {
      assert files[..i + 1][..i] == files[..i];
      written := written + [FileWrite(files[i])];
      total := total + FileChanges(files[i]);
    }
    assert files[..|files|] == files;
  }
}

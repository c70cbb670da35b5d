/**
 * `inject_chatbot.py`: adds the chat widget snippet in front of the closing
 * `</body>` tag of every HTML page that does not have it yet, skipping
 * template and tooling directories.
 */
module ChatbotInjector {
  import opened Wrappers
  import opened Strings

  /** The widget markup, split around the marker that `already_has_chatbot` looks for first. */
  const WidgetHead: string := @"<!-- TVMaster VIP Chatbot -->
<div id="""
  const Marker: string := "tvmaster-chat-widget"
  const WidgetTail: string := @"""></div>
<script src=""https://unpkg.com/@rasahq/rasa-chat@1.0.1""></script>
<script>
  RasaWebchat.default.init({
    selector: ""#tvmaster-chat-widget"",
    initPayload: ""/greet"",
    socketUrl: ""https://bot.tvmaster.work"",
    socketPath: ""/socket.io/"",
    title: ""TVMaster VIP"",
    subtitle: ""We're online 24/7"",
    showFullScreenButton: true,
    profileAvatar: ""https://eleven11zz.github.io/thesitez2/assets/footer_picture.png"",
    inputTextFieldHint: ""Ask about channels, trials, pricing…"",
    customData: { language: ""en"" },
    params: { storage: ""session"" },
    tooltipPayload: ""/greet"",
    tooltipDelay: 2000,
    embedded: false   /* keeps it as a floating launcher */
  });
</script>"
  const Widget: string := WidgetHead + Marker + WidgetTail

  /** `CHATBOT_SNIPPET`: the widget with a newline before and after it. */
  const ChatbotSnippet: string := "\n" + Widget + "\n"

  /** The text that replaces each `</body>`. */
  const Insertion: string := ChatbotSnippet + "\n</body>"

  const SkipDirs: seq<string> := ["_includes", "_templates", "_config", ".git", ".github", "node_modules"]

  // ------------------------------------------------------------ paths

  /** `Path.suffix`: from the last dot of the name, unless that dot starts or ends it. */
  function Suffix(path: string): string
  {
    NameSuffix(Basename(path))
  }

  function NameSuffix(name: string): string
  {
    match LastIndexOf(name, '.')
    case Some(i) => if 0 < i < |name| - 1 then name[i..] else ""
    case None => ""
  }

  /** A path has the `.html` suffix exactly when its name ends in `.html` and is longer than that. */
  lemma HtmlSuffix(path: string)
    ensures Suffix(path) == ".html" <==> (var name := Basename(path); |name| > 5 && name[|name| - 5..] == ".html")
  {
    HtmlNameSuffix(Basename(path));
  }

  lemma HtmlNameSuffix(name: string)
    ensures NameSuffix(name) == ".html" <==> |name| > 5 && name[|name| - 5..] == ".html"
  {
    if |name| > 5 && name[|name| - 5..] == ".html" {
      var i := |name| - 5;
      assert name[i] == '.';
      assert name[i + 1..] == "html";
      LastIndexOfAt(name, '.', i);
    }
    if NameSuffix(name) == ".html" {
      var i := LastIndexOf(name, '.').value;
      assert |name[i..]| == 5;
    }
  }

  /** The path lies under a skipped directory, or starts with its name. */
  predicate InSkipDir(path: string, dir: string)
  {
    Contains(path, "/" + dir + "/") || dir <= path
  }

  predicate ShouldProcess(path: string)
  {
    (forall k :: 0 <= k < |SkipDirs| ==> !InSkipDir(path, SkipDirs[k])) && Suffix(path) == ".html"
  }

  /** `should_process_file`: the loop over the skipped directories with early return. */
  method ShouldProcessFile(path: string) returns (r: bool)
    ensures r == ShouldProcess(path)
  {
    for k := 0 to |SkipDirs|
      invariant forall j :: 0 <= j < k ==> !InSkipDir(path, SkipDirs[j])
    {
      if Contains(path, "/" + SkipDirs[k] + "/") || SkipDirs[k] <= path {
        return false;
      }
    }
    return Suffix(path) == ".html";
  }

  /** Nothing below a `node_modules` directory is processed. */
  lemma NodeModulesSkipped(a: string, b: string)
    ensures !ShouldProcess(a + "/node_modules/" + b)
  {
    var p := a + "/node_modules/" + b;
    assert p[|a|..|a| + 14] == "/node_modules/";
    ContainsAt(p, "/node_modules/", |a|);
    assert SkipDirs[5] == "node_modules";
    assert "/" + SkipDirs[5] + "/" == "/node_modules/";
    assert InSkipDir(p, SkipDirs[5]);
  }

  // ------------------------------------------------------------ the transform

  /** `already_has_chatbot`. */
  predicate AlreadyHasChatbot(content: string)
  {
    Contains(content, Marker) || Contains(content, "RasaWebchat")
  }

  /**
   * `inject_chatbot_widget` on the file's content: `None` when the page is
   * skipped (the function returns False and writes nothing), otherwise the
   * content written back.
   */
  function InjectChatbotWidget(content: string): (r: Option<string>)
    ensures r.None? <==> AlreadyHasChatbot(content) || !Contains(content, "</body>")
  {
    if AlreadyHasChatbot(content) then None
    else if !Contains(content, "</body>") then None
    else Some(ReplaceAll(content, "</body>", Insertion))
  }

  lemma SnippetHasMarker()
    ensures Contains(ChatbotSnippet, Marker)
  {
    assert Marker <= Marker + WidgetTail;
    ContainsAt(Marker + WidgetTail, Marker, 0);
    ContainsInSuffix(WidgetHead, Marker + WidgetTail, Marker);
    assert Widget == WidgetHead + (Marker + WidgetTail);
    ContainsInSuffix("\n", Widget, Marker);
    ContainsInPrefix("\n" + Widget, "\n", Marker);
  }

  /**
   * The snippet goes in front of the first `</body>`; the text before it is
   * unchanged and each further `</body>` is handled the same way.
   */
  lemma InjectAtFirstBody(content: string, i: nat)
    requires !AlreadyHasChatbot(content) && IndexOf(content, "</body>") == Some(i)
    ensures InjectChatbotWidget(content) ==
      Some(content[..i] + ChatbotSnippet + "\n</body>" + ReplaceAll(content[i + 7..], "</body>", Insertion))
  {
    ReplaceAllAt(content, "</body>", Insertion, i);
    assert |"</body>"| == 7;
    var rest := ReplaceAll(content[i + 7..], "</body>", Insertion);
    Regroup(content[..i], ChatbotSnippet, "\n</body>", rest);
  }

  /** Each `</body>` grows the page by the snippet and one newline. */
  lemma InjectLength(content: string)
    requires InjectChatbotWidget(content).Some?
    ensures |InjectChatbotWidget(content).value| == |content| + CountMatches(content, "</body>") * (|ChatbotSnippet| + 1)
  {
    ReplaceAllLength(content, "</body>", Insertion);
  }

  /** A second run finds the widget and skips the page. */
  lemma InjectTwiceSkips(content: string)
    requires InjectChatbotWidget(content).Some?
    ensures AlreadyHasChatbot(InjectChatbotWidget(content).value)
    ensures InjectChatbotWidget(InjectChatbotWidget(content).value).None?
  {
    var out := ReplaceAll(content, "</body>", Insertion);
    assert InjectChatbotWidget(content).value == out;
    ReplaceAllInserts(content, "</body>", Insertion);
    SnippetHasMarker();
    ContainsInPrefix(ChatbotSnippet, "\n</body>", Marker);
    ContainsTransitive(out, Insertion, Marker);
  }

  // ------------------------------------------------------------ main

  datatype Page = Page(path: string, content: string)

  function CountInjected(pages: seq<Page>): (n: nat)
    ensures n <= |pages|
  {
    if pages == [] then 0
    else CountInjected(pages[..|pages| - 1]) + (if InjectChatbotWidget(pages[|pages| - 1].content).Some? then 1 else 0)
  }

  /**
   * `main` after the page list is sorted: every page either gets the widget
   * or is skipped, and the two counters add up to the number of pages.
   */
  method InjectAll(pages: seq<Page>) returns (written: seq<Option<string>>, processed: nat, skipped: nat)
    ensures |written| == |pages|
    ensures forall i :: 0 <= i < |pages| ==> written[i] == InjectChatbotWidget(pages[i].content)
    ensures processed == CountInjected(pages) && processed + skipped == |pages|
  {
    written, processed, skipped := [], 0, 0;
    for i := 0 to |pages|
      invariant |written| == i && processed + skipped == i
      invariant processed == CountInjected(pages[..i])
      invariant forall j :: 0 <= j < i ==> written[j] == InjectChatbotWidget(pages[j].content)
    {
      assert pages[..i + 1][..i] == pages[..i];
      var r := InjectChatbotWidget(pages[i].content);
      if r.Some? {
        processed := processed + 1;
      } else {
        skipped := skipped + 1;
      }
      written := written + [r];
    }
    assert pages[..|pages|] == pages;
  }

  /** The pages `main` hands to the injector: those `should_process_file` accepts, in order. */
  function Selected(paths: seq<Page>): (r: seq<Page>)
    ensures |r| <= |paths|
    ensures forall k :: 0 <= k < |r| ==> ShouldProcess(r[k].path)
    ensures forall p :: p in r <==> p in paths && ShouldProcess(p.path)
  {
    if paths == [] then []
    else if ShouldProcess(paths[0].path) then [paths[0]] + Selected(paths[1..])
    else Selected(paths[1..])
  }
}

/**
 * `fix_chatbot.py`: swaps the widget markup that the injector put into the
 * pages for a snippet that loads a different chat library.
 */
module ChatbotFix {
  import opened Wrappers
  import opened Strings
  import ChatbotInjector

  /** `OLD_SNIPPET`: the same text as the injector's widget markup, without the surrounding newlines. */
  const OldSnippet: string := ChatbotInjector.Widget

  /** `NEW_SNIPPET`. */
  const NewSnippet: string := @"<!-- TVMaster VIP Chatbot -->
<script src=""https://cdn.jsdelivr.net/npm/rasa-webchat@1.x.x/lib/index.js""></script>
<script>
  window.WebChat.default({
    initPayload: ""/greet"",
    customData: {""language"": ""en""},
    socketUrl: ""https://bot.tvmaster.work"",
    socketPath: ""/socket.io/"",
    title: ""TVMaster VIP"",
    subtitle: ""We're online 24/7"",
    params: {
      storage: ""session""
    },
    showFullScreenButton: true,
    profileAvatar: ""https://eleven11zz.github.io/thesitez2/assets/footer_picture.png"",
    inputTextFieldHint: ""Ask about channels, trials, pricing…"",
    tooltipPayload: ""/greet"",
    tooltipDelay: 2000,
    embedded: false
  }, null);
</script>"

  /**
   * `fix_chatbot_widget` on the file's content: `None` when the old snippet
   * is absent (returns False, nothing written), otherwise the content written
   * back with every old snippet replaced.
   */
  function FixChatbotWidget(content: string): (r: Option<string>)
    ensures r.None? <==> !Contains(content, OldSnippet)
  {
    if !Contains(content, OldSnippet) then None
    else Some(ReplaceAll(content, OldSnippet, NewSnippet))
  }

  /**
   * The two snippets cannot overlap: no piece of the new snippet starts the
   * old one and no piece of the old one starts the new one. Both open with
   * `<!--` and contain `<!` nowhere else.
   */
  ghost predicate SnippetsDisjoint()
  {
    NoOverlap(OldSnippet, NewSnippet)
  }

  /** Every old snippet is gone after the fix. */
  lemma FixClearsOld(content: string)
    requires SnippetsDisjoint()
    requires FixChatbotWidget(content).Some?
    ensures !Contains(FixChatbotWidget(content).value, OldSnippet)
  {
    ReplaceAllAvoids(content, OldSnippet, NewSnippet, OldSnippet);
  }

  /** A second run finds no old snippet and leaves the page alone. */
  lemma FixTwiceSkips(content: string)
    requires SnippetsDisjoint()
    requires FixChatbotWidget(content).Some?
    ensures FixChatbotWidget(FixChatbotWidget(content).value).None?
  {
    FixClearsOld(content);
  }

  /** A page with an old snippet gets the new one. */
  lemma FixInsertsNew(content: string)
    requires FixChatbotWidget(content).Some?
    ensures Contains(FixChatbotWidget(content).value, NewSnippet)
  {
    ReplaceAllInserts(content, OldSnippet, NewSnippet);
  }

  function CountUpdated(pages: seq<string>): (n: nat)
    ensures n <= |pages|
  {
    if pages == [] then 0
    else CountUpdated(pages[..|pages| - 1]) + (if FixChatbotWidget(pages[|pages| - 1]).Some? then 1 else 0)
  }

  /** `main` over the selected pages, in sorted order, with its `updated_count`. */
  method FixAll(pages: seq<string>) returns (written: seq<Option<string>>, updated: nat)
    ensures |written| == |pages|
    ensures forall i :: 0 <= i < |pages| ==> written[i] == FixChatbotWidget(pages[i])
    ensures updated == CountUpdated(pages)
  {
    written, updated := [], 0;
    for i := 0 to |pages|
      invariant |written| == i && updated == CountUpdated(pages[..i])
      invariant forall j :: 0 <= j < i ==> written[j] == FixChatbotWidget(pages[j])
    {
      assert pages[..i + 1][..i] == pages[..i];
      var r := FixChatbotWidget(pages[i]);
      if r.Some? {
        updated := updated + 1;
      }
      written := written + [r];
    }
    assert pages[..|pages|] == pages;
  }
}

/**
 * `scripts/apply-accessibility-fixes.py`: five rewrites of a page, each
 * returning the new text and a flag, threaded through `process_file`, which
 * writes the page back when any flag was raised.
 */
module AccessibilityFixes {
  import opened Wrappers
  import opened Strings
  import opened Patterns

  // ------------------------------------------------------------ accessibility.css

  const CssName: string := "accessibility.css"
  const CssLink: string := "<link rel=\"stylesheet\" href=\"./assets/css/" + CssName + "\"/>"
  const UiUxLink: string := "<link rel=\"stylesheet\" href=\"./assets/css/ui-ux-fixes.css\"/>"
  const HeadClose: string := "</head>"

  /** The link goes after the first ui-ux-fixes.css link. */
  const AfterUiUx: string := UiUxLink + "\n" + CssLink
  /** Otherwise it goes before the first `</head>`. */
  const BeforeHead: string := CssLink + "\n" + HeadClose

  /** `add_accessibility_css`: the new text and whether it differs from the old. */
  function AddAccessibilityCss(content: string): (r: (string, bool))
    ensures Contains(content, CssName) ==> r == (content, false)
    ensures r.1 <==> r.0 != content
  {
    if Contains(content, CssName) then (content, false)
    else
      var first := ReplaceFirst(content, UiUxLink, AfterUiUx);
      var next := if first == content then ReplaceFirst(content, HeadClose, BeforeHead) else first;
      (next, next != content)
  }

  lemma CssLinkNamesCss()
    ensures Contains(CssLink, CssName)
  {
    var pre := "<link rel=\"stylesheet\" href=\"./assets/css/";
    assert CssLink == pre + CssName + "\"/>";
    ContainsMiddle(pre, CssName, "\"/>");
  }

  /** Splicing `rep` in at the first occurrence of `pat` puts the css link in the page. */
  lemma SplicedHasCss(s: string, pat: string, rep: string)
    requires pat != [] && IndexOf(s, pat).Some? && Contains(rep, CssName)
    ensures Contains(ReplaceFirst(s, pat, rep), CssName)
  {
    var i := IndexOf(s, pat).value;
    ReplaceFirstAt(s, pat, rep);
    ContainsMiddle(s[..i], rep, s[i + |pat|..]);
    ContainsTransitive(ReplaceFirst(s, pat, rep), rep, CssName);
  }

  /**
   * Without the stylesheet, the link is spliced in right after the first
   * ui-ux-fixes.css link when there is one, else right before the first
   * `</head>`; with neither, nothing happens. The flag is raised exactly
   * when one of the two anchors is present.
   */
  lemma AccessibilityCssPlacement(content: string)
    requires !Contains(content, CssName)
    ensures var r := AddAccessibilityCss(content);
      (Contains(content, UiUxLink) ==> var i := IndexOf(content, UiUxLink).value;
        r.0 == content[..i] + AfterUiUx + content[i + |UiUxLink|..]) &&
      (!Contains(content, UiUxLink) && Contains(content, HeadClose) ==> var i := IndexOf(content, HeadClose).value;
        r.0 == content[..i] + BeforeHead + content[i + |HeadClose|..]) &&
      (r.1 <==> Contains(content, UiUxLink) || Contains(content, HeadClose)) &&
      (r.1 ==> Contains(r.0, CssName))
  {
    CssLinkNamesCss();
    if Contains(content, UiUxLink) {
      ReplaceFirstAt(content, UiUxLink, AfterUiUx);
      ContainsInSuffix(UiUxLink + "\n", CssLink, CssName);
      SplicedHasCss(content, UiUxLink, AfterUiUx);
      NotBoth(content, CssName);
    } else {
      ReplaceFirstNoMatch(content, UiUxLink, AfterUiUx);
      if Contains(content, HeadClose) {
        ReplaceFirstAt(content, HeadClose, BeforeHead);
        ContainsInPrefix(CssLink, "\n" + HeadClose, CssName);
        assert CssLink + "\n" + HeadClose == CssLink + ("\n" + HeadClose);
        SplicedHasCss(content, HeadClose, BeforeHead);
        NotBoth(content, CssName);
      } else {
        ReplaceFirstNoMatch(content, HeadClose, BeforeHead);
      }
    }
  }

  /** A text that lacks `sub` differs from every text that holds it. */
  lemma NotBoth(content: string, sub: string)
    requires !Contains(content, sub)
    ensures forall t :: Contains(t, sub) ==> t != content
  {
  }

  /** `add_accessibility_css` is idempotent: a second call changes nothing and reports nothing. */
  lemma AccessibilityCssIdempotent(content: string)
    ensures var r := AddAccessibilityCss(content);
      AddAccessibilityCss(r.0) == (r.0, false)
  {
    if !Contains(content, CssName) {
      AccessibilityCssPlacement(content);
    }
  }

  // ------------------------------------------------------------ skip link

  const SkipClass: string := "skip-to-main"
  const SkipLink: string := "<a href=\"#main-content\" class=\"" + SkipClass + "\">Skip to main content</a>"
  const SkipText: string := "\n<!-- Skip to main content for keyboard users -->\n" + SkipLink + "\n"
  const BodyOpen: string := "<body"

  /** `<body[^>]*>` at the start of `s`: the attributes between `<body` and `>`, and the text after the tag. */
  function BodyAttrs(s: string): (r: Option<(string, string)>)
    ensures r.Some? ==> '>' !in r.value.0 && s == BodyOpen + r.value.0 + ">" + r.value.1
  {
    if !(BodyOpen <= s) then None
    else
      match SplitOnce(s[|BodyOpen|..], ">")
      case None => None
      case Some((attrs, rest)) =>
        ContainsChar(attrs, '>');
        assert s == BodyOpen + attrs + ">" + rest;
        Some((attrs, rest))
  }

  /** `(<body[^>]*>)` replaced by itself and the skip link. */
  function BodyTag(s: string): (r: Option<(string, string)>)
    ensures r.Some? <==> BodyAttrs(s).Some?
  {
    match BodyAttrs(s)
    case None => None
    case Some((attrs, rest)) => Some((BodyOpen + attrs + ">" + SkipText, rest))
  }

  /** `add_skip_link`. */
  function AddSkipLink(content: string): (r: (string, bool))
    ensures Contains(content, SkipClass) ==> r == (content, false)
    ensures r.1 <==> r.0 != content
  {
    if Contains(content, SkipClass) then (content, false)
    else
      var next := SubFirst(content, BodyTag);
      (next, next != content)
  }

  lemma SkipTextHasClass()
    ensures Contains(SkipText, SkipClass)
  {
    var pre := "<a href=\"#main-content\" class=\"";
    var post := "\">Skip to main content</a>";
    ContainsMiddle(pre, SkipClass, post);
    assert SkipLink == pre + SkipClass + post;
    var lead := "\n<!-- Skip to main content for keyboard users -->\n";
    ContainsMiddle(lead, SkipLink, "\n");
    assert SkipText == lead + SkipLink + "\n";
    ContainsTransitive(SkipText, SkipLink, SkipClass);
  }

  /** Where the first body tag ends, counting from the start of the page. */
  function BodyTagEnd(content: string, i: nat): nat
    requires i < |content| && BodyAttrs(content[i..]).Some?
  {
    i + |BodyOpen| + |BodyAttrs(content[i..]).value.0| + 1
  }

  /** The text with the skip link spliced in after position `j`. */
  lemma SkipSplice(content: string, i: nat)
    requires i < |content| && BodyAttrs(content[i..]).Some?
    ensures var j := BodyTagEnd(content, i);
      j <= |content| && content[..i] + BodyTag(content[i..]).value.0 + BodyTag(content[i..]).value.1 ==
        content[..j] + SkipText + content[j..]
  {
    var (attrs, rest) := BodyAttrs(content[i..]).value;
    var tag := BodyOpen + attrs + ">";
    assert BodyTag(content[i..]).value == (tag + SkipText, rest);
    SpliceAfter(content, i, tag, SkipText, rest);
  }

  /**
   * Without a skip link, the link goes right after the first `<body ...>`
   * tag and nothing else changes; a page with no body tag is left alone.
   */
  lemma SkipLinkAfterBody(content: string)
    requires !Contains(content, SkipClass)
    ensures FirstMatch(content, BodyTag, 0).None? ==> AddSkipLink(content) == (content, false)
    ensures FirstMatch(content, BodyTag, 0).Some? ==>
      var j := BodyTagEnd(content, FirstMatch(content, BodyTag, 0).value);
      j <= |content| && AddSkipLink(content) == (content[..j] + SkipText + content[j..], true)
  {
    if FirstMatch(content, BodyTag, 0).Some? {
      SkipLinkAt(content, FirstMatch(content, BodyTag, 0).value);
    }
  }

  lemma SkipLinkAt(content: string, i: nat)
    requires !Contains(content, SkipClass)
    requires i < |content| && BodyAttrs(content[i..]).Some? && FirstMatch(content, BodyTag, 0) == Some(i)
    ensures var j := BodyTagEnd(content, i);
      j <= |content| && AddSkipLink(content) == (content[..j] + SkipText + content[j..], true)
  {
    SkipSplice(content, i);
    var j := BodyTagEnd(content, i);
    assert SubFirst(content, BodyTag) == content[..j] + SkipText + content[j..];
    SkipLinkLands(content, j);
  }

  lemma SkipLinkLands(content: string, j: nat)
    requires j <= |content| && !Contains(content, SkipClass)
    ensures Contains(content[..j] + SkipText + content[j..], SkipClass)
    ensures content[..j] + SkipText + content[j..] != content
  {
    SkipTextHasClass();
    ContainsMiddle(content[..j], SkipText, content[j..]);
    ContainsTransitive(content[..j] + SkipText + content[j..], SkipText, SkipClass);
  }

  /** A second `add_skip_link` is a no-op. */
  lemma SkipLinkTwice(content: string)
    ensures var r := AddSkipLink(content);
      AddSkipLink(r.0) == (r.0, false)
  {
    if !Contains(content, SkipClass) && FirstMatch(content, BodyTag, 0).Some? {
      SkipLinkAfterBody(content);
      var j := BodyTagEnd(content, FirstMatch(content, BodyTag, 0).value);
      SkipLinkLands(content, j);
    }
  }

  // ------------------------------------------------------------ landmarks

  const HeaderOpen: string := "<header"
  const BannerRole: string := "role=\"banner\""
  const FooterOpen: string := "<footer"
  const ContentInfoRole: string := "role=\"contentinfo\""
  const ClassOpen: string := "class=\""

  /** `<tag\s+class="([^"]+)"` replaced by `<tag class="\1" role="..."`. */
  function ClassRole(s: string, tag: string, role: string): (r: Option<(string, string)>)
    ensures r.Some? ==> exists v :: v != [] && '"' !in v && r.value.0 == tag + " " + ClassOpen + v + "\" " + role
    ensures r.Some? ==> tag <= s
  {
    match Chain(s, tag, [ClassOpen])
    case None => None
    case Some(t) =>
      match SplitOnce(t, "\"")
      case None => None
      case Some((v, rest)) =>
        if v == [] then None
        else
          ContainsChar(v, '"');
          Some((tag + " " + ClassOpen + v + "\" " + role, rest))
  }

  /** A chain of literals leaves a proper suffix of the text behind. */
  lemma ChainConsumes(x: string, first: string, parts: seq<string>)
    requires first != [] && Chain(x, first, parts).Some?
    ensures first <= x && |Chain(x, first, parts).value| < |x|
  {
    WsChainShorter(x[|first|..], parts);
  }

  lemma {:induction false} WsChainShorter(x: string, parts: seq<string>)
    requires WsChain(x, parts).Some?
    ensures |WsChain(x, parts).value| <= |x|
    decreases |parts|
  {
    if parts != [] {
      var t := AfterWs(x, parts[0]).value;
      WsChainShorter(t, parts[1..]);
    }
  }

  /** A landmark step for a class-bearing tag: the guard, then the first matching tag gains the role. */
  function RoleStep(content: string, tag: string, role: string): (r: (string, bool))
    ensures r.1 <==> Contains(content, tag) && !Contains(content, role)
    ensures !r.1 ==> r.0 == content
  {
    if Contains(content, tag) && !Contains(content, role) then
      (SubFirst(content, s => ClassRole(s, tag, role)), true)
    else (content, false)
  }

  /**
   * When the guard holds and a class-bearing tag is found, the role lands
   * on the first such tag, so the guard fails on the result and a second
   * step reports nothing.
   */
  lemma RoleStepOnce(content: string, tag: string, role: string)
    requires Contains(content, tag) && !Contains(content, role)
    requires FirstMatch(content, s => ClassRole(s, tag, role), 0).Some?
    ensures var r := RoleStep(content, tag, role);
      Contains(r.0, role) && RoleStep(r.0, tag, role) == (r.0, false)
  {
    var rw: Rewriter := s => ClassRole(s, tag, role);
    var i := FirstMatch(content, rw, 0).value;
    var m := rw(content[i..]).value;
    var v :| v != [] && '"' !in v && m.0 == tag + " " + ClassOpen + v + "\" " + role;
    ContainsMiddle(tag + " " + ClassOpen + v + "\" ", role, []);
    assert m.0 == tag + " " + ClassOpen + v + "\" " + role + [];
    ContainsMiddle(content[..i], m.0, m.1);
    ContainsTransitive(content[..i] + m.0 + m.1, m.0, role);
  }

  /** A step whose guard holds raises the flag even when no tag has a class to match. */
  lemma HeaderWithoutClass()
    ensures RoleStep("<header>", HeaderOpen, BannerRole) == ("<header>", true)
  {
    var s := "<header>";
    assert HeaderOpen <= s;
    var rw: Rewriter := x => ClassRole(x, HeaderOpen, BannerRole);
    assert AfterWs(">", ClassOpen).None?;
    assert rw(s[0..]).None?;
    forall k | 1 <= k < |s|
      ensures rw(s[k..]).None?
    {
      assert !(HeaderOpen <= s[k..]);
    }
    assert FirstMatch(s, rw, 0).None?;
    assert !Contains(s, BannerRole) by {
      assert IndexOf(s, BannerRole).None?;
    }
  }

  const MainBare: string := "<main>"
  const MainOpen: string := "<main"
  const MainId: string := "id=\"main-content\""
  const MainLabelled: string := "<main " + MainId + " role=\"main\">"
  const MainLabelledOpen: string := "<main " + MainId + " role=\"main\" "

  /** `<main\s+` replaced by the opening with the id and role. */
  function MainSpace(s: string): (r: Option<(string, string)>)
    ensures r.Some? ==> r.value.0 == MainLabelledOpen && |r.value.1| < |s|
  {
    if !(MainOpen <= s) then None
    else
      var ws := LeadingSpace(s[|MainOpen|..]);
      if ws == [] then None else Some((MainLabelledOpen, s[|MainOpen| + |ws|..]))
  }

  /** The `<main>` step: a bare `<main>` first, else an unlabelled `<main ...>`. */
  function MainStep(content: string): (r: (string, bool))
    ensures Contains(content, MainBare) ==> r.1
    ensures !Contains(content, MainBare) ==> (r.1 <==> Contains(content, MainOpen) && !Contains(content, MainId))
    ensures !r.1 ==> r.0 == content
  {
    if Contains(content, MainBare) then (ReplaceFirst(content, MainBare, MainLabelled), true)
    else if Contains(content, MainOpen) && !Contains(content, MainId) then (SubFirst(content, MainSpace), true)
    else (content, false)
  }

  /** The first bare `<main>` becomes `<main id="main-content" role="main">`; the rest is untouched. */
  lemma BareMainLabelled(content: string)
    requires Contains(content, MainBare)
    ensures var i := IndexOf(content, MainBare).value;
      MainStep(content).0 == content[..i] + MainLabelled + content[i + |MainBare|..]
  {
    ReplaceFirstAt(content, MainBare, MainLabelled);
  }

  const NavOpen: string := "<nav"
  const NavClass: string := "class=\"main-nav\""
  const NavigationRole: string := "role=\"navigation\""
  /** The main navigation's opening as it is usually written. */
  const NavUsual: string := NavOpen + " " + NavClass
  const NavLabelled: string := NavOpen + " " + NavClass + " " + NavigationRole + " aria-label=\"Primary navigation\""

  /** `<nav\s+class="main-nav"` replaced by the labelled opening. */
  function MainNav(s: string): (r: Option<(string, string)>)
    ensures r.Some? ==> r.value.0 == NavLabelled && |r.value.1| < |s|
  {
    match Chain(s, NavOpen, [NavClass])
    case None => None
    case Some(t) =>
      ChainConsumes(s, NavOpen, [NavClass]);
      Some((NavLabelled, t))
  }

  function NavStep(content: string): (r: (string, bool))
    ensures r.1 <==> Contains(content, NavOpen) && !Contains(content, NavigationRole)
    ensures !r.1 ==> r.0 == content
  {
    if Contains(content, NavOpen) && !Contains(content, NavigationRole) then (SubFirst(content, MainNav), true)
    else (content, false)
  }

  /** `<nav class="main-nav"` with one space matches the navigation pattern. */
  lemma MainNavMatches(x: string)
    requires NavUsual <= x
    ensures MainNav(x).Some?
  {
    PrefixSplit(NavUsual, x);
    NavUsualSpaced();
    ChainMatches(NavOpen, [NavClass], x[|NavUsual|..]);
  }

  lemma NavUsualSpaced()
    ensures NavUsual == NavOpen + Spaced([NavClass])
  {
    assert Spaced([NavClass]) == " " + NavClass;
  }

  lemma NavLabelledHasRole()
    ensures Contains(NavLabelled, NavigationRole)
  {
    var pre := NavOpen + " " + NavClass + " ";
    var post := " aria-label=\"Primary navigation\"";
    ContainsMiddle(pre, NavigationRole, post);
    assert NavLabelled == pre + NavigationRole + post;
  }

  lemma MainNavWrites()
    ensures Writes(MainNav, NavLabelled)
  {
  }

  /** The main navigation written the usual way gains its role and label, when the guard lets the step run. */
  lemma MainNavLabelled(content: string, k: nat)
    requires !Contains(content, NavigationRole)
    requires k <= |content| && NavUsual <= content[k..]
    ensures NavStep(content).1 && Contains(NavStep(content).0, NavigationRole)
  {
    assert NavOpen <= content[k..];
    ContainsFrom(content, NavOpen, k);
    MainNavFound(content, k);
    assert NavStep(content).0 == SubFirst(content, MainNav);
  }

  lemma MainNavFound(content: string, k: nat)
    requires k <= |content| && NavUsual <= content[k..]
    ensures Contains(SubFirst(content, MainNav), NavigationRole)
  {
    MainNavMatches(content[k..]);
    assert FirstMatch(content, MainNav, 0).Some?;
    MainNavWrites();
    SubFirstInserts(content, MainNav, NavLabelled);
    NavLabelledHasRole();
    ContainsTransitive(SubFirst(content, MainNav), NavLabelled, NavigationRole);
  }

  /** `add_aria_landmarks`: header, main, footer and nav steps in turn; the flag is raised if any guard held. */
  function AddAriaLandmarks(content: string): (r: (string, bool))
    ensures !r.1 ==> r.0 == content
  {
    var (s1, c1) := RoleStep(content, HeaderOpen, BannerRole);
    var (s2, c2) := MainStep(s1);
    var (s3, c3) := RoleStep(s2, FooterOpen, ContentInfoRole);
    var (s4, c4) := NavStep(s3);
    (s4, c1 || c2 || c3 || c4)
  }

  /**
   * A page with a header but no class-bearing header tag and no other
   * landmark raises the landmark flag and is left as it was; the lone
   * `<header>` of `HeaderWithoutClass` is such a page.
   */
  lemma LandmarkFlagWithoutChange(s: string)
    requires Contains(s, HeaderOpen) && !Contains(s, BannerRole)
    requires FirstMatch(s, x => ClassRole(x, HeaderOpen, BannerRole), 0).None?
    requires !Contains(s, MainOpen) && !Contains(s, FooterOpen) && !Contains(s, NavOpen)
    ensures AddAriaLandmarks(s) == (s, true)
  {
    assert RoleStep(s, HeaderOpen, BannerRole) == (s, true);
    NoMainNoStep(s);
  }

  /** A page without `<main` is left alone by the main step. */
  lemma NoMainNoStep(s: string)
    requires !Contains(s, MainOpen)
    ensures MainStep(s) == (s, false)
  {
  }

  // ------------------------------------------------------------ button labels

  const NavToggle: string := "nav-toggle"
  const OpenMenuLabel: string := "aria-label=\"Open navigation menu\""
  const ButtonOpen: string := "<button"
  const ToggleClass: string := "class=\"" + NavToggle + "\""
  const ToggleRest: seq<string> := ["type=\"button\"", "aria-expanded=\"false\"", "aria-controls=\"primary-nav\">"]
  const ToggleAttrs: seq<string> := [ToggleClass] + ToggleRest
  const ToggleLabelledHead: string :=
    "<button class=\"nav-toggle\" type=\"button\" aria-expanded=\"false\" aria-controls=\"primary-nav\" "
  const ToggleLabelled: string := ToggleLabelledHead + OpenMenuLabel + ">"

  /** The toggle button as it is usually written, one space between the attributes. */
  const ToggleUnlabelled: string := ButtonOpen + " " + ToggleClass + Spaced(ToggleRest)

  /** `<button\s+class="nav-toggle"\s+type="button"\s+aria-expanded="false"\s+aria-controls="primary-nav">`. */
  function ToggleButton(s: string): (r: Option<(string, string)>)
    ensures r.Some? ==> r.value.0 == ToggleLabelled && |r.value.1| < |s|
  {
    match Chain(s, ButtonOpen, ToggleAttrs)
    case None => None
    case Some(t) =>
      ChainConsumes(s, ButtonOpen, ToggleAttrs);
      Some((ToggleLabelled, t))
  }

  /** `improve_button_aria_labels`: the flag follows the guard, whether or not a button matched. */
  function ImproveButtonAriaLabels(content: string): (r: (string, bool))
    ensures r.1 <==> Contains(content, NavToggle) && !Contains(content, OpenMenuLabel)
    ensures !r.1 ==> r.0 == content
  {
    if Contains(content, NavToggle) && !Contains(content, OpenMenuLabel) then (SubAll(content, ToggleButton), true)
    else (content, false)
  }

  lemma ToggleUnlabelledMatches(rest: string)
    ensures ToggleButton(ToggleUnlabelled + rest).Some?
  {
    ToggleAttrsUnspaced();
    ChainMatches(ButtonOpen, ToggleAttrs, rest);
    ToggleUnlabelledSpaced();
  }

  lemma ToggleAttrsUnspaced()
    ensures forall k :: 0 <= k < |ToggleAttrs| ==> ToggleAttrs[k] != [] && !IsSpace(ToggleAttrs[k][0])
  {
  }

  lemma ToggleUnlabelledSpaced()
    ensures ToggleUnlabelled == ButtonOpen + Spaced(ToggleAttrs)
  {
    assert ToggleAttrs[1..] == ToggleRest;
  }

  lemma ToggleUnlabelledNamesToggle()
    ensures Contains(ToggleUnlabelled, NavToggle)
  {
    var pre := ButtonOpen + " class=\"";
    var post := "\"" + Spaced(ToggleRest);
    ContainsMiddle(pre, NavToggle, post);
    assert ToggleUnlabelled == pre + NavToggle + post;
  }

  lemma ToggleButtonWrites()
    ensures Writes(ToggleButton, ToggleLabelled)
  {
  }

  /** Wherever an unlabelled toggle button is written the usual way, the rewrite leaves the label in the page. */
  lemma ToggleFound(content: string, k: nat)
    requires k <= |content| && ToggleUnlabelled <= content[k..]
    ensures Contains(SubAll(content, ToggleButton), OpenMenuLabel)
  {
    var x := content[k..];
    PrefixSplit(ToggleUnlabelled, x);
    ToggleUnlabelledMatches(x[|ToggleUnlabelled|..]);
    ToggleButtonWrites();
    SubAllInserts(content, ToggleButton, ToggleLabelled, k);
    ContainsMiddle(ToggleLabelledHead, OpenMenuLabel, ">");
    ContainsTransitive(SubAll(content, ToggleButton), ToggleLabelled, OpenMenuLabel);
  }

  /** An unlabelled toggle button gets its label, after which the fix has nothing left to do. */
  lemma ToggleLabelledOnce(content: string, k: nat)
    requires k <= |content| && ToggleUnlabelled <= content[k..]
    requires !Contains(content, OpenMenuLabel)
    ensures var r := ImproveButtonAriaLabels(content);
      r.1 && Contains(r.0, OpenMenuLabel) && ImproveButtonAriaLabels(r.0) == (r.0, false)
  {
    ContainsFrom(content, ToggleUnlabelled, k);
    ToggleUnlabelledNamesToggle();
    ContainsTransitive(content, ToggleUnlabelled, NavToggle);
    ToggleFound(content, k);
  }

  // ------------------------------------------------------------ logo alt text

  const HeaderLogo: string := "header-logo"
  const HeaderAlt: string := "alt=\"TVMaster\""
  const FooterAlt: string := "alt=\"TVMaster Logo\""
  const LogoAlt: string := "alt=\"TVMaster VIP logo - Premium IPTV Service\""
  const BrandLabelled: string := "<a href=\"#hero\" class=\"brand\" aria-label=\"TVMaster VIP - Return to homepage\">"

  /** `<a\s+href="#hero"\s+class="brand">`. */
  function BrandLink(s: string): (r: Option<(string, string)>)
    ensures r.Some? ==> r.value.0 == BrandLabelled && |r.value.1| < |s|
  {
    match Chain(s, "<a", ["href=\"#hero\"", "class=\"brand\">"])
    case None => None
    case Some(t) =>
      ChainConsumes(s, "<a", ["href=\"#hero\"", "class=\"brand\">"]);
      Some((BrandLabelled, t))
  }

  /** The header-logo alt text, rewritten only on pages that mention the header logo. */
  function HeaderLogoFix(content: string): string
  {
    if Contains(content, HeaderLogo) then ReplaceAll(content, HeaderAlt, LogoAlt) else content
  }

  function FooterLogoFix(content: string): string
  {
    ReplaceAll(content, FooterAlt, LogoAlt)
  }

  /** `improve_image_alt_text`: the flag tells only whether the header logo was there. */
  function ImproveImageAltText(content: string): (r: (string, bool))
    ensures r.1 <==> Contains(content, HeaderLogo)
  {
    (SubAll(FooterLogoFix(HeaderLogoFix(content)), BrandLink), Contains(content, HeaderLogo))
  }

  /** Without a header logo the flag stays down, although the footer-logo text is still rewritten. */
  lemma FooterFixUnflagged(content: string)
    requires !Contains(content, HeaderLogo) && Contains(content, FooterAlt)
    ensures !ImproveImageAltText(content).1
    ensures FooterLogoFix(HeaderLogoFix(content)) != content && Contains(FooterLogoFix(HeaderLogoFix(content)), LogoAlt)
  {
    ReplaceAllChanges(content, FooterAlt, LogoAlt);
    ReplaceAllInserts(content, FooterAlt, LogoAlt);
  }

  /** Wherever the home link matches in the text the brand pass sees, the labelled link is in the result. */
  lemma BrandLinkLabelled(content: string, k: nat)
    requires var t := FooterLogoFix(HeaderLogoFix(content)); k < |t| && BrandLink(t[k..]).Some?
    ensures Contains(ImproveImageAltText(content).0, BrandLabelled)
  {
    SubAllInserts(FooterLogoFix(HeaderLogoFix(content)), BrandLink, BrandLabelled, k);
  }

  // ------------------------------------------------------------ the page

  /** The five fixes in turn: the final text and the messages raised. */
  function Pipeline(content: string): (r: (string, seq<string>))
    ensures |r.1| <= 5
    ensures r.1 == [] ==> !AddAccessibilityCss(content).1 && !ImproveImageAltText(content).1
  {
    var (s1, c1) := AddAccessibilityCss(content);
    var (s2, c2) := AddSkipLink(s1);
    var (s3, c3) := AddAriaLandmarks(s2);
    var (s4, c4) := ImproveButtonAriaLabels(s3);
    var (s5, c5) := ImproveImageAltText(s4);
    var changes :=
      (if c1 then ["Added accessibility.css"] else []) +
      (if c2 then ["Added skip-to-main link"] else []) +
      (if c3 then ["Added ARIA landmarks"] else []) +
      (if c4 then ["Improved button aria-labels"] else []) +
      (if c5 then ["Improved image alt text"] else []);
    (s5, changes)
  }

  /** `process_file` for a page that exists: the text is written back only when some fix raised its flag. */
  function ProcessFile(content: string): (r: (Option<string>, seq<string>))
    ensures r.1 == Pipeline(content).1 && |r.1| <= 5
    ensures r.0.Some? <==> r.1 != []
    ensures r.0.Some? ==> r.0.value == Pipeline(content).0
  {
    var (text, changes) := Pipeline(content);
    if changes == [] then (None, []) else (Some(text), changes)
  }

  /** No body tag, no match. */
  lemma NoBodyNoMatch(content: string)
    requires !Contains(content, BodyOpen)
    ensures FirstMatch(content, BodyTag, 0).None?
  {
    forall k | 0 <= k < |content|
      ensures BodyTag(content[k..]).None?
    {
      NoBodyAt(content, k);
    }
  }

  lemma NoBodyAt(content: string, k: nat)
    requires k < |content| && !Contains(content, BodyOpen)
    ensures BodyTag(content[k..]).None?
  {
    if BodyOpen <= content[k..] {
      ContainsFrom(content, BodyOpen, k);
      assert false;
    }
  }

  /** A page none of whose landmark tags occur is left alone by the landmark fix. */
  lemma NoLandmarks(content: string)
    requires !Contains(content, HeaderOpen) && !Contains(content, MainOpen)
    requires !Contains(content, FooterOpen) && !Contains(content, NavOpen)
    ensures AddAriaLandmarks(content) == (content, false)
  {
    NoMainNoStep(content);
  }

  /** A page that offers none of the fixes an anchor raises no flag. */
  lemma NoFlags(content: string)
    requires !Contains(content, CssName) && !Contains(content, UiUxLink) && !Contains(content, HeadClose)
    requires !Contains(content, BodyOpen) && !Contains(content, HeaderOpen) && !Contains(content, MainOpen)
    requires !Contains(content, FooterOpen) && !Contains(content, NavOpen) && !Contains(content, NavToggle)
    requires !Contains(content, HeaderLogo)
    ensures Pipeline(content).1 == []
  {
    AccessibilityCssPlacement(content);
    assert AddAccessibilityCss(content) == (content, false);
    NoBodyNoMatch(content);
    assert AddSkipLink(content) == (content, false);
    NoLandmarks(content);
    assert ImproveButtonAriaLabels(content) == (content, false);
  }

  /**
   * A page whose only fixable text is the footer-logo alt text raises no
   * flag, so it is not written back and the footer rewrite is discarded.
   */
  lemma FooterFixDiscarded(content: string)
    requires Contains(content, FooterAlt)
    requires !Contains(content, CssName) && !Contains(content, UiUxLink) && !Contains(content, HeadClose)
    requires !Contains(content, BodyOpen) && !Contains(content, HeaderOpen) && !Contains(content, MainOpen)
    requires !Contains(content, FooterOpen) && !Contains(content, NavOpen) && !Contains(content, NavToggle)
    requires !Contains(content, HeaderLogo)
    ensures ProcessFile(content) == (None, [])
    ensures FooterLogoFix(HeaderLogoFix(content)) != content
  {
    NoFlags(content);
    FooterFixUnflagged(content);
  }

  // ------------------------------------------------------------ the run

  /** The number of change messages for one page: its path and, when the file exists, its content. */
  function Improvements(page: (string, Option<string>)): nat
  {
    if page.1.Some? then |ProcessFile(page.1.value).1| else 0
  }

  function FilesModified(pages: seq<(string, Option<string>)>): nat
  {
    if pages == [] then 0
    else FilesModified(pages[..|pages| - 1]) + (if Improvements(pages[|pages| - 1]) > 0 then 1 else 0)
  }

  function TotalImprovements(pages: seq<(string, Option<string>)>): nat
  {
    if pages == [] then 0
    else TotalImprovements(pages[..|pages| - 1]) + Improvements(pages[|pages| - 1])
  }

  /** Each page contributes at most five messages, and only modified pages contribute any. */
  lemma {:induction false} ImprovementsBounded(pages: seq<(string, Option<string>)>)
    ensures FilesModified(pages) <= |pages|
    ensures TotalImprovements(pages) <= 5 * FilesModified(pages)
    ensures FilesModified(pages) <= TotalImprovements(pages)
  {
    if pages != [] {
      ImprovementsBounded(pages[..|pages| - 1]);
    }
  }

  /** `main`: missing files are skipped; the counters tally the files with change messages and the messages. */
  method ApplyAll(pages: seq<(string, Option<string>)>) returns (totalFiles: nat, totalChanges: nat)
    ensures totalFiles == FilesModified(pages)
    ensures totalChanges == TotalImprovements(pages)
  {
    totalFiles, totalChanges := 0, 0;
    for i := 0 to |pages|
      invariant totalFiles == FilesModified(pages[..i])
      invariant totalChanges == TotalImprovements(pages[..i])
    {
      assert pages[..i + 1][..i] == pages[..i];
      var changes := Improvements(pages[i]);
      if changes > 0 {
        totalFiles := totalFiles + 1;
        totalChanges := totalChanges + changes;
      }
    }
    assert pages[..|pages|] == pages;
  }
}

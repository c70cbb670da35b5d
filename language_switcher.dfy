/**
 * The header language switcher: the page's language is read off the URL
 * path, the matching dropdown link is marked active and the button shows
 * the language's two-letter label; the stored preference falls back to
 * English, and the browser language is cut at its first '-'.
 */
module LanguageSwitcher {
  import opened Wrappers
  import opened Strings

  const DefaultLang: string := "en"

  /** `langMap`, in its insertion order: a path fragment and the code it selects. */
  const LangMap: seq<(string, string)> := [
    ("/th/", "th"), ("/de/", "de"), ("/fr/", "fr"), ("/sv/", "sv"),
    ("/no/", "no"), ("/it/", "it"), ("/nl/", "nl")]

  const Globe: string := "\U{1F310}"

  /** `langNames`: a flag (two regional-indicator characters), a space and the upper-case code. */
  const LangNames: seq<(string, string)> := [
    ("en", "\U{1F1EC}\U{1F1E7} EN"), ("th", "\U{1F1F9}\U{1F1ED} TH"),
    ("de", "\U{1F1E9}\U{1F1EA} DE"), ("fr", "\U{1F1EB}\U{1F1F7} FR"),
    ("sv", "\U{1F1F8}\U{1F1EA} SV"), ("no", "\U{1F1F3}\U{1F1F4} NO"),
    ("it", "\U{1F1EE}\U{1F1F9} IT"), ("nl", "\U{1F1F3}\U{1F1F1} NL")]

  /**
   * The code `setCurrentLanguage` settles on: that of the first fragment, in
   * table order, that the path contains, or the default.
   */
  function DetectedCode(table: seq<(string, string)>, path: string): (r: string)
    ensures r == DefaultLang || exists i :: 0 <= i < |table| && r == table[i].1 && Contains(path, table[i].0)
    ensures (forall i :: 0 <= i < |table| ==> !Contains(path, table[i].0)) ==> r == DefaultLang
    ensures forall i :: 0 <= i < |table| && Contains(path, table[i].0) ==>
      exists j :: 0 <= j <= i && r == table[j].1 && Contains(path, table[j].0)
  {
    if table == [] then DefaultLang
    else if Contains(path, table[0].0) then table[0].1
    else
      var r := DetectedCode(table[1..], path);
      assert forall i :: 1 <= i < |table| ==> table[i] == table[1..][i - 1];
      r
  }

  /** The path-scanning loop of `setCurrentLanguage`, with its early `break`. */
  method DetectLanguage(path: string) returns (code: string)
    ensures code == DetectedCode(LangMap, path)
  {
    code := DefaultLang;
    var i := 0;
    while i < |LangMap|
      invariant 0 <= i <= |LangMap|
      invariant DetectedCode(LangMap, path) == DetectedCode(LangMap[i..], path)
      invariant code == DefaultLang
    {
      DetectAt(LangMap, i, path);
      if Contains(path, LangMap[i].0) {
        code := LangMap[i].1;
        break;
      }
      i := i + 1;
    }
  }

  /** The code found from entry `i` on: entry `i`'s own when the path contains its fragment, else the one found after it. */
  lemma DetectAt(table: seq<(string, string)>, i: nat, path: string)
    requires i < |table|
    ensures DetectedCode(table[i..], path) ==
      if Contains(path, table[i].0) then table[i].1 else DetectedCode(table[i + 1..], path)
  {
    assert table[i..][0] == table[i];
    assert table[i..][1..] == table[i + 1..];
  }

  /** Every fragment of the table is a two-letter directory between slashes, naming its own code. */
  predicate DirectoryTable(table: seq<(string, string)>)
  {
    forall i :: 0 <= i < |table| ==> |table[i].1| == 2 && '/' !in table[i].1 && table[i].0 == "/" + table[i].1 + "/"
  }

  lemma LangMapIsDirectoryTable()
    ensures DirectoryTable(LangMap)
  {
  }

  /** Inside `/xx/page`, with a slash-free page, the only directory fragment found is `/xx/`. */
  lemma DirectoryFragment(dir: string, page: string, code: string)
    requires |dir| == 2 && '/' !in dir && '/' !in page
    requires |code| == 2 && '/' !in code
    ensures Contains("/" + dir + "/" + page, "/" + code + "/") <==> code == dir
  {
    var path := "/" + dir + "/" + page;
    var frag := "/" + code + "/";
    if code == dir {
      assert OccursAt(path, frag, 0);
      ContainsAt(path, frag, 0);
    }
    if Contains(path, frag) {
      var at := ContainsWitness(path, frag);
      assert path[at..at + 4] == frag;
      assert path[at] == '/' && path[at + 3] == '/' by {
        assert path[at] == frag[0] && path[at + 3] == frag[3];
      }
      if 1 <= at <= 2 {
        assert false;
      } else if at >= 3 {
        assert false;
      }
      assert code == frag[1..3] == path[1..3] == dir;
    }
  }

  /** A path under a language directory of the table selects that language. */
  lemma {:induction false} LanguageDirectorySelected(table: seq<(string, string)>, dir: string, page: string)
    requires DirectoryTable(table)
    requires exists k :: 0 <= k < |table| && table[k].1 == dir
    requires '/' !in page
    ensures DetectedCode(table, "/" + dir + "/" + page) == dir
  {
    var k :| 0 <= k < |table| && table[k].1 == dir;
    var path := "/" + dir + "/" + page;
    DirectoryFragment(dir, page, dir);
    var j :| 0 <= j <= k && DetectedCode(table, path) == table[j].1 && Contains(path, table[j].0);
    DirectoryFragment(dir, page, table[j].1);
  }

  /** `document.querySelector('.lang-dropdown a[data-lang="…"]')`: the first link with that language. */
  function ActiveLink(links: seq<string>, code: string): (r: Option<nat>)
    ensures r.Some? ==> r.value < |links| && links[r.value] == code && forall j :: 0 <= j < r.value ==> links[j] != code
    ensures r.None? <==> code !in links
  {
    if links == [] then None
    else if links[0] == code then Some(0)
    else
      var r := ActiveLink(links[1..], code);
      assert links == [links[0]] + links[1..];
      if r.Some? then Some(r.value + 1) else None
  }

  /** `langNames[code]`: the last entry for the code. */
  function NameOf(names: seq<(string, string)>, code: string): (r: Option<string>)
    ensures r.Some? <==> exists i :: 0 <= i < |names| && names[i].0 == code
    ensures r.Some? ==> exists i :: 0 <= i < |names| && names[i] == (code, r.value)
  {
    if names == [] then None
    else
      var n := |names| - 1;
      if names[n].0 == code then Some(names[n].1)
      else
        var r := NameOf(names[..n], code);
        assert forall i :: 0 <= i < n ==> names[..n][i] == names[i];
        r
  }

  /**
   * The button text: the globe, a space and the second space-separated
   * token of the language's name (`undefined` when there is none); nothing
   * is written for an unnamed or empty-named code.
   */
  function ButtonLabel(names: seq<(string, string)>, code: string): (r: Option<string>)
    ensures r.Some? <==> NameOf(names, code).Some? && NameOf(names, code).value != ""
  {
    match NameOf(names, code)
    case None => None
    case Some(name) =>
      if name == "" then None
      else
        var parts := Split(name, ' ');
        Some(Globe + " " + if |parts| >= 2 then parts[1] else "undefined")
  }

  /** A name made of a space-free flag, a space and a space-free text shows that text. */
  lemma {:induction false} LabelShowsCode(names: seq<(string, string)>, code: string, flag: string, text: string)
    requires NameOf(names, code) == Some(flag + " " + text)
    requires ' ' !in flag && ' ' !in text
    ensures ButtonLabel(names, code) == Some(Globe + " " + text)
  {
    JoinSplit([flag, text], ' ');
    assert Join([flag, text], [' ']) == flag + " " + text;
  }

  /** `getLanguagePreference`: the stored value unless it is missing or empty, or storage fails. */
  function LanguagePreference(stored: Option<string>, storageFails: bool): (r: string)
    ensures r != ""
    ensures r != DefaultLang ==> !storageFails && stored == Some(r)
  {
    if storageFails then DefaultLang
    else match stored
      case Some(v) => if v != "" then v else DefaultLang
      case None => DefaultLang
  }

  /** The code `autoDetectLanguage` extracts: the browser language up to its first '-'. */
  function BrowserLangCode(browserLang: string): (r: string)
    ensures r <= browserLang && '-' !in r
    ensures '-' in browserLang ==> browserLang[|r|] == '-'
  {
    var r := Split(browserLang, '-')[0];
    SplitHead(browserLang, '-');
    assert |r| < |browserLang| ==> browserLang[|r|] == '-';
    r
  }

  /** A region subtag is dropped: `xx-YY` gives `xx`. */
  lemma {:induction false} RegionDropped(lang: string, region: string)
    requires '-' !in lang
    ensures BrowserLangCode(lang + "-" + region) == lang
  {
    SplitAfter(lang, region, '-');
  }
}

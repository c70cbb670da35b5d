/**
 * `audit_translations.py`: the translation auditor over the `languages`
 * object of `languages.json`. Each language is compared with the English
 * reference: the key structure, empty and untranslated values, placeholder
 * and HTML-tag consistency, and suspicious characters.
 *
 * Key paths are dotted strings as the script builds them. Python sets of
 * keys are iterated in an order the model takes as a parameter: a
 * duplicate-free sequence holding exactly the set's elements.
 */
module TranslationAudit {
  import opened Wrappers
  import opened Strings
  import opened Json
  import opened Sequences

  const ReferenceLang: string := "en"

  // ------------------------------------------------------------ key paths

  /** `f"{prefix}.{key}" if prefix else key`. */
  function FullKey(prefix: string, key: string): string
  {
    if prefix != [] then prefix + "." + key else key
  }

  /** `get_all_keys`: the dotted path of every member at every depth; nothing for a non-object. */
  function AllKeys(v: Json, prefix: string): (r: set<string>)
    ensures !v.Obj? ==> r == {}
    decreases v, 1
  {
    if v.Obj? then FieldKeys(v, 0, prefix) else {}
  }

  /** A member whose key a later member repeats: `json.load` keeps only the later one. */
  predicate Overridden(fields: seq<(string, Json)>, i: nat)
    requires i < |fields|
  {
    HasKey(fields[i + 1..], fields[i].0)
  }

  /** The paths contributed by the members of `v` from index `i` on; an overridden member contributes nothing. */
  function FieldKeys(v: Json, i: nat, prefix: string): (r: set<string>)
    requires v.Obj? && i <= |v.fields|
    decreases v, 0, |v.fields| - i
  {
    if i == |v.fields| then {}
    else if Overridden(v.fields, i) then FieldKeys(v, i + 1, prefix)
    else
      var full := FullKey(prefix, v.fields[i].0);
      var child := v.fields[i].1;
      assert child < v;
      {full} + AllKeys(child, full) + FieldKeys(v, i + 1, prefix)
  }

  /** What member `key` of the object `v` lists below `prefix`: its own path and the paths inside its value. */
  ghost predicate Contributes(v: Json, prefix: string, key: string, p: string)
  {
    v.Obj? && HasKey(v.fields, key) &&
    var full := FullKey(prefix, key);
    (p == full || p in AllKeys(Get(v.fields, key).value, full))
  }

  /** The paths of an object are those of its keys, each taken with the value a lookup finds (the last member so named). */
  lemma ObjectKeys(v: Json, prefix: string, p: string)
    requires v.Obj?
    ensures p in AllKeys(v, prefix) <==> exists key :: Contributes(v, prefix, key, p)
  {
    FieldKeysFrom(v, 0, prefix, p);
    assert v.fields[0..] == v.fields;
  }

  lemma {:induction false} FieldKeysFrom(v: Json, i: nat, prefix: string, p: string)
    requires v.Obj? && i <= |v.fields|
    ensures p in FieldKeys(v, i, prefix) <==> exists key :: HasKey(v.fields[i..], key) && Contributes(v, prefix, key, p)
    decreases |v.fields| - i
  {
    if i < |v.fields| {
      FieldKeysFrom(v, i + 1, prefix, p);
      if Overridden(v.fields, i) {
        OverriddenStep(v, i, prefix, p);
      } else {
        KeptStep(v, i, prefix, p);
      }
    }
  }

  /** An overridden member adds no path: its key is found again further on. */
  lemma OverriddenStep(v: Json, i: nat, prefix: string, p: string)
    requires v.Obj? && i < |v.fields| && Overridden(v.fields, i)
    requires p in FieldKeys(v, i + 1, prefix) <==> exists key :: HasKey(v.fields[i + 1..], key) && Contributes(v, prefix, key, p)
    ensures p in FieldKeys(v, i, prefix) <==> exists key :: HasKey(v.fields[i..], key) && Contributes(v, prefix, key, p)
  {
    HasKeyFrom(v.fields, i);
    if exists key :: HasKey(v.fields[i..], key) && Contributes(v, prefix, key, p) {
      var key :| HasKey(v.fields[i..], key) && Contributes(v, prefix, key, p);
      assert HasKey(v.fields[i + 1..], key);
    }
  }

  /** A member kept by `json.load` adds its own path and the paths inside its value. */
  lemma KeptStep(v: Json, i: nat, prefix: string, p: string)
    requires v.Obj? && i < |v.fields| && !Overridden(v.fields, i)
    requires p in FieldKeys(v, i + 1, prefix) <==> exists key :: HasKey(v.fields[i + 1..], key) && Contributes(v, prefix, key, p)
    ensures p in FieldKeys(v, i, prefix) <==> exists key :: HasKey(v.fields[i..], key) && Contributes(v, prefix, key, p)
  {
    HasKeyFrom(v.fields, i);
    GetLast(v.fields, i);
    var key, child := v.fields[i].0, v.fields[i].1;
    var full := FullKey(prefix, key);
    assert FieldKeys(v, i, prefix) == {full} + AllKeys(child, full) + FieldKeys(v, i + 1, prefix);
    assert Contributes(v, prefix, key, p) <==> p == full || p in AllKeys(child, full);
    if p == full || p in AllKeys(child, full) {
      assert HasKey(v.fields[i..], key) && Contributes(v, prefix, key, p);
    }
    if exists k :: HasKey(v.fields[i..], k) && Contributes(v, prefix, k, p) {
      var k :| HasKey(v.fields[i..], k) && Contributes(v, prefix, k, p);
      if k != key {
        assert HasKey(v.fields[i + 1..], k);
      }
    }
  }

  /** The keys from index `i` on are the key at `i` and those after it. */
  lemma HasKeyFrom(fields: seq<(string, Json)>, i: nat)
    requires i < |fields|
    ensures forall k :: HasKey(fields[i..], k) <==> k == fields[i].0 || HasKey(fields[i + 1..], k)
  {
    forall k
      ensures HasKey(fields[i..], k) <==> k == fields[i].0 || HasKey(fields[i + 1..], k)
    {
      if HasKey(fields[i..], k) {
        var j :| 0 <= j < |fields[i..]| && fields[i..][j].0 == k;
        if j > 0 {
          assert fields[i + 1..][j - 1] == fields[i..][j];
        }
      }
      if HasKey(fields[i + 1..], k) {
        var j :| 0 <= j < |fields[i + 1..]| && fields[i + 1..][j].0 == k;
        assert fields[i..][j + 1] == fields[i + 1..][j];
      }
      assert fields[i..][0].0 == fields[i].0;
    }
  }

  /** The path segments of `get_nested_value`: descend while the value is an object holding the segment. */
  function NestedAt(v: Json, segs: seq<string>): (r: Option<Json>)
    decreases |segs|
  {
    if segs == [] then Some(v)
    else if v.Obj? && HasKey(v.fields, segs[0]) then NestedAt(Get(v.fields, segs[0]).value, segs[1..])
    else None
  }

  /** `get_nested_value`: `None` when a segment is missing or a value on the way is not an object. */
  function NestedValue(v: Json, path: string): Option<Json>
  {
    NestedAt(v, Split(path, '.'))
  }

  /** The loop of `get_nested_value`. */
  method GetNestedValue(obj: Json, path: string) returns (r: Option<Json>)
    ensures r == NestedValue(obj, path)
  {
    var keys := Split(path, '.');
    var value := obj;
    var i := 0;
    while i < |keys|
      invariant 0 <= i <= |keys|
      invariant NestedAt(obj, keys) == NestedAt(value, keys[i..])
    {
      assert keys[i..][1..] == keys[i + 1..];
      if value.Obj? && HasKey(value.fields, keys[i]) {
        value := Get(value.fields, keys[i]).value;
      } else {
        return None;
      }
      i := i + 1;
    }
    r := Some(value);
  }

  /** Every key at every depth is non-empty and dot-free, and no object repeats a key. */
  predicate PlainKeys(v: Json)
    decreases v
  {
    v.Obj? ==>
      (forall k :: 0 <= k < |v.fields| ==> v.fields[k].0 != [] && '.' !in v.fields[k].0) &&
      (forall j, k :: 0 <= j < k < |v.fields| ==> v.fields[j].0 != v.fields[k].0) &&
      (forall k :: 0 <= k < |v.fields| ==> PlainKeys(v.fields[k].1))
  }

  /** The segments of a dotted path. */
  function Dotted(segs: seq<string>): string
  {
    Join(segs, ".")
  }

  lemma FullKeyDotted(segs: seq<string>, key: string)
    requires forall k :: 0 <= k < |segs| ==> segs[k] != []
    ensures FullKey(Dotted(segs), key) == Dotted(segs + [key])
  {
    if segs != [] {
      DottedNonEmpty(segs);
      DottedSnoc(segs, key);
    }
  }

  lemma {:induction false} DottedNonEmpty(segs: seq<string>)
    requires segs != [] && segs[0] != []
    ensures Dotted(segs) != []
  {
    JoinEnds(segs, ".");
  }

  lemma {:induction false} DottedSnoc(segs: seq<string>, key: string)
    requires segs != []
    ensures Dotted(segs + [key]) == Dotted(segs) + "." + key
  {
    if |segs| == 1 {
      assert (segs + [key])[1..] == [key];
      assert Dotted(segs) == segs[0];
      assert Dotted(segs + [key]) == segs[0] + "." + Dotted([key]);
    } else {
      assert (segs + [key])[1..] == segs[1..] + [key];
      DottedSnoc(segs[1..], key);
    }
  }

  /** In an object with distinct keys, the member at index `k` is what a lookup of its key finds. */
  lemma {:induction false} GetDistinct(fields: seq<(string, Json)>, k: nat)
    requires k < |fields|
    requires forall a, b :: 0 <= a < b < |fields| ==> fields[a].0 != fields[b].0
    ensures Get(fields, fields[k].0) == Some(fields[k].1)
  {
    var n := |fields| - 1;
    if k < n {
      assert fields[n].0 != fields[k].0;
      GetDistinct(fields[..n], k);
    }
  }

  /** A path listed below `Dotted(segs)` is `Dotted(segs + q)` for a sequence `q` of plain segments that resolves. */
  lemma {:induction false} ListedResolves(v: Json, segs: seq<string>, p: string) returns (q: seq<string>)
    requires PlainKeys(v) && p in AllKeys(v, Dotted(segs))
    requires forall k :: 0 <= k < |segs| ==> segs[k] != [] && '.' !in segs[k]
    ensures q != [] && p == Dotted(segs + q) && NestedAt(v, q).Some?
    ensures forall k :: 0 <= k < |q| ==> q[k] != [] && '.' !in q[k]
    decreases v, 1
  {
    q := FieldResolves(v, 0, segs, p);
  }

  lemma {:induction false} FieldResolves(v: Json, i: nat, segs: seq<string>, p: string) returns (q: seq<string>)
    requires v.Obj? && i <= |v.fields| && PlainKeys(v) && p in FieldKeys(v, i, Dotted(segs))
    requires forall k :: 0 <= k < |segs| ==> segs[k] != [] && '.' !in segs[k]
    ensures q != [] && p == Dotted(segs + q) && NestedAt(v, q).Some?
    ensures forall k :: 0 <= k < |q| ==> q[k] != [] && '.' !in q[k]
    decreases v, 0, |v.fields| - i, 1
  {
    var full := FullKey(Dotted(segs), v.fields[i].0);
    if Overridden(v.fields, i) {
      q := FieldResolves(v, i + 1, segs, p);
    } else if p == full {
      q := HeadResolves(v, i, segs);
    } else if p in AllKeys(v.fields[i].1, full) {
      q := ChildResolves(v, i, segs, p);
    } else {
      q := FieldResolves(v, i + 1, segs, p);
    }
  }

  /** The member's own path. */
  lemma HeadResolves(v: Json, i: nat, segs: seq<string>) returns (q: seq<string>)
    requires v.Obj? && i < |v.fields| && PlainKeys(v)
    requires forall k :: 0 <= k < |segs| ==> segs[k] != []
    ensures q == [v.fields[i].0]
    ensures FullKey(Dotted(segs), v.fields[i].0) == Dotted(segs + q) && NestedAt(v, q).Some?
  {
    var key := v.fields[i].0;
    q := [key];
    FullKeyDotted(segs, key);
    GetDistinct(v.fields, i);
    NestedStep(v, key, v.fields[i].1, []);
    assert [key] + [] == q;
  }

  /** A path below the member's own. */
  lemma {:induction false} ChildResolves(v: Json, i: nat, segs: seq<string>, p: string) returns (q: seq<string>)
    requires v.Obj? && i < |v.fields| && PlainKeys(v)
    requires p in AllKeys(v.fields[i].1, FullKey(Dotted(segs), v.fields[i].0))
    requires forall k :: 0 <= k < |segs| ==> segs[k] != [] && '.' !in segs[k]
    ensures q != [] && p == Dotted(segs + q) && NestedAt(v, q).Some?
    ensures forall k :: 0 <= k < |q| ==> q[k] != [] && '.' !in q[k]
    decreases v, 0, |v.fields| - i, 0
  {
    var key, child := v.fields[i].0, v.fields[i].1;
    FullKeyDotted(segs, key);
    GetDistinct(v.fields, i);
    assert child < v && PlainKeys(child);
    assert key != [] && '.' !in key;
    var segs' := segs + [key];
    assert forall k :: 0 <= k < |segs'| ==> segs'[k] != [] && '.' !in segs'[k] by {
      forall k | 0 <= k < |segs'|
        ensures segs'[k] != [] && '.' !in segs'[k]
      {
        if k < |segs| {
          assert segs'[k] == segs[k];
        }
      }
    }
    var q' := ListedResolves(child, segs', p);
    q := [key] + q';
    NestedStep(v, key, child, q');
    SnocAssoc(segs, key, q');
    assert forall k :: 1 <= k < |q| ==> q[k] == q'[k - 1];
  }

  lemma SnocAssoc(a: seq<string>, x: string, b: seq<string>)
    ensures a + [x] + b == a + ([x] + b)
  {
  }

  lemma NestedStep(v: Json, key: string, child: Json, rest: seq<string>)
    requires v.Obj? && Get(v.fields, key) == Some(child)
    ensures NestedAt(v, [key] + rest) == NestedAt(child, rest)
  {
    assert ([key] + rest)[1..] == rest;
  }

  /** For plain keys, every path `get_all_keys` lists resolves through `get_nested_value`. */
  lemma ListedKeysResolve(v: Json, p: string)
    requires PlainKeys(v) && p in AllKeys(v, "")
    ensures NestedValue(v, p).Some?
  {
    assert Dotted([]) == "";
    var q := ListedResolves(v, [], p);
    assert [] + q == q;
    JoinSplit(q, '.');
  }

  // ------------------------------------------------------------ structure

  /** `check_structure`: the reference keys the language lacks, and the language keys the reference lacks. */
  function CheckStructure(ref: Json, lang: Json): (r: (set<string>, set<string>))
    ensures r.0 !! r.1
    ensures r.0 == {} && r.1 == {} <==> AllKeys(ref, "") == AllKeys(lang, "")
  {
    var refKeys, langKeys := AllKeys(ref, ""), AllKeys(lang, "");
    (refKeys - langKeys, langKeys - refKeys)
  }

  /** A path is missing exactly when the reference has it and the language lacks it, and extra the other way round. */
  lemma CheckStructureMembers(ref: Json, lang: Json, p: string)
    ensures p in CheckStructure(ref, lang).0 <==> p in AllKeys(ref, "") && p !in AllKeys(lang, "")
    ensures p in CheckStructure(ref, lang).1 <==> p in AllKeys(lang, "") && p !in AllKeys(ref, "")
  {
  }

  // ------------------------------------------------------------ untranslated text

  predicate IsUpper(c: char)
  {
    'A' <= c <= 'Z'
  }

  /** `re.match(p, text)` for a pattern ending in `$`: the body, or the body and one final newline. */
  predicate WholeOrNewline(text: string, body: string -> bool)
  {
    body(text) || (text != [] && text[|text| - 1] == '\n' && body(text[..|text| - 1]))
  }

  predicate FourDigits(s: string)
  {
    |s| == 4 && AllDigits(s)
  }

  predicate Acronym(s: string)
  {
    |s| >= 2 && forall i :: 0 <= i < |s| ==> IsUpper(s[i])
  }

  /** The skip patterns, each anchored at the start of the text by `re.match`. */
  predicate Skipped(text: string)
  {
    "http://" <= text || "https://" <= text ||
    "@" <= text ||
    (text != [] && IsDigit(text[0])) || (|text| >= 2 && text[0] == '+' && IsDigit(text[1])) ||
    WholeOrNewline(text, s => s == "TVMaster VIP") ||
    "24/7" <= text ||
    WholeOrNewline(text, FourDigits) ||
    WholeOrNewline(text, Acronym)
  }

  const EnglishIndicators: seq<string> := [
    "Premium IPTV Service", "Start Streaming", "All rights reserved",
    "Live Hub", "TV Guide", "Setup Guides", "Global Support"
  ]

  /** Some indicator phrase occurs in the text, both lowercased. */
  predicate HasIndicator(text: string, indicators: seq<string>)
  {
    exists k :: 0 <= k < |indicators| && Contains(Lower(text), Lower(indicators[k]))
  }

  /** `is_likely_untranslated`. */
  function IsLikelyUntranslated(text: Json, langCode: string): (r: bool)
    ensures !text.Str? || text.s == [] || langCode == ReferenceLang ==> !r
    ensures text.Str? && Skipped(text.s) ==> !r
    ensures text.Str? && text.s != [] && !Skipped(text.s) && langCode != ReferenceLang ==>
      (r <==> HasIndicator(text.s, EnglishIndicators))
  {
    text.Str? && text.s != [] && !Skipped(text.s) && langCode != ReferenceLang &&
    HasIndicator(text.s, EnglishIndicators)
  }

  /** A text starting with `@` is never flagged. */
  lemma AtStartSkipped(t: string, code: string)
    requires "@" <= t
    ensures !IsLikelyUntranslated(Str(t), code)
  {
  }

  /**
   * The skip patterns are anchored: a text starting with a lowercase letter
   * other than `h` escapes all of them, whatever it holds further on (an
   * `@`, digits), and is flagged exactly when it holds an indicator.
   */
  lemma SkipAnchored(t: string, code: string)
    requires t != [] && 'a' <= t[0] <= 'z' && t[0] != 'h' && code != ReferenceLang
    ensures IsLikelyUntranslated(Str(t), code) <==> HasIndicator(t, EnglishIndicators)
  {
    assert !Skipped(t) by {
      assert !IsUpper(t[0]) && !IsDigit(t[0]);
      assert !FourDigits(t) && !Acronym(t);
      assert t != "TVMaster VIP";
      if t[|t| - 1] == '\n' && |t| > 1 {
        var u := t[..|t| - 1];
        assert u[0] == t[0];
        assert !FourDigits(u) && !Acronym(u) && u != "TVMaster VIP";
      }
    }
  }

  // ------------------------------------------------------------ per-key checks

  /** Key substrings that exempt an identical value. */
  const ExemptParts: seq<string> := ["url", "email", "phone", "author", "name", "hreflang", "locale", "path", "dir"]

  predicate Exempt(key: string)
  {
    exists k :: 0 <= k < |ExemptParts| && Contains(key, ExemptParts[k])
  }

  /** The recorded value: its first 100 characters, and `...` when it was longer. */
  function Truncated(s: string): (r: string)
    ensures |s| <= 100 ==> r == s
    ensures |s| > 100 ==> |r| == 103 && r[..100] == s[..100]
  {
    if |s| > 100 then s[..100] + "..." else s
  }

  predicate IsString(v: Option<Json>)
  {
    v.Some? && v.value.Str?
  }

  /** Whether a value is whitespace only (`strip() == ''`). */
  predicate Blank(s: string)
  {
    forall i :: 0 <= i < |s| ==> IsSpace(s[i])
  }

  /** The findings of `check_translations` for one key. */
  datatype TranslationFinding = Empty(key: string) | Identical(key: string, value: string)

  function KeyTranslationFindings(ref: Json, lang: Json, langCode: string, key: string): (r: seq<TranslationFinding>)
    ensures |r| <= 1
    ensures r != [] ==> IsString(NestedValue(ref, key)) && IsString(NestedValue(lang, key))
    ensures r == [Empty(key)] <==> IsString(NestedValue(ref, key)) && IsString(NestedValue(lang, key)) && Blank(NestedValue(lang, key).value.s)
  {
    var refValue, langValue := NestedValue(ref, key), NestedValue(lang, key);
    if !IsString(refValue) || !IsString(langValue) then []
    else
      var s := langValue.value.s;
      TrimBlank(s);
      if Trim(s) == [] then [Empty(key)]
      else if langValue == refValue && langCode != ReferenceLang && !Exempt(key) then [Identical(key, Truncated(s))]
      else []
  }

  function TranslationFindings(ref: Json, lang: Json, langCode: string, keys: seq<string>): (r: seq<TranslationFinding>)
    ensures |r| <= |keys|
  {
    if keys == [] then []
    else TranslationFindings(ref, lang, langCode, keys[..|keys| - 1]) + KeyTranslationFindings(ref, lang, langCode, keys[|keys| - 1])
  }

  /** An identical, non-exempt, non-blank string in another language is flagged with its truncated value. */
  lemma IdenticalFlagged(ref: Json, lang: Json, langCode: string, key: string)
    requires IsString(NestedValue(ref, key)) && NestedValue(lang, key) == NestedValue(ref, key)
    requires !Blank(NestedValue(ref, key).value.s) && langCode != ReferenceLang && !Exempt(key)
    ensures KeyTranslationFindings(ref, lang, langCode, key) == [Identical(key, Truncated(NestedValue(ref, key).value.s))]
  {
    TrimBlank(NestedValue(ref, key).value.s);
  }

  /** The reference language is never flagged as identical to itself. */
  lemma ReferenceNeverIdentical(ref: Json, key: string)
    ensures forall f :: f in KeyTranslationFindings(ref, ref, ReferenceLang, key) ==> f.Empty?
  {
    var r := KeyTranslationFindings(ref, ref, ReferenceLang, key);
    assert r == [] || r == [Empty(key)];
  }

  // ------------------------------------------------------------ placeholders and tags

  /** `re.findall` of a literal pattern: one copy per non-overlapping occurrence. */
  function FindLiteral(s: string, pat: string): (r: seq<string>)
    requires pat != []
    ensures |r| == CountMatches(s, pat)
    ensures forall k :: 0 <= k < |r| ==> r[k] == pat
  {
    seq(CountMatches(s, pat), _ => pat)
  }

  /** `re.findall(r'%[a-z]', s)`. */
  function FindPercentLetter(s: string): (r: seq<string>)
    ensures forall k :: 0 <= k < |r| ==> |r[k]| == 2 && r[k][0] == '%' && 'a' <= r[k][1] <= 'z'
    decreases |s|
  {
    if |s| < 2 then []
    else if s[0] == '%' && 'a' <= s[1] <= 'z' then [s[..2]] + FindPercentLetter(s[2..])
    else FindPercentLetter(s[1..])
  }

  /** `re.findall` of `opener [^}]* }`: from each `opener` to the first `}` after it. */
  function FindBraced(s: string, opener: string): (r: seq<string>)
    requires opener != []
    ensures forall k :: 0 <= k < |r| ==> opener <= r[k] && r[k][|r[k]| - 1] == '}'
    decreases |s|
  {
    if s == [] then []
    else if opener <= s then
      match IndexOf(s[|opener|..], "}")
        case Some(j) =>
          var m := s[..|opener| + j + 1];
          assert s[|opener|..][j] == '}';
          [m] + FindBraced(s[|opener| + j + 1..], opener)
        case None => FindBraced(s[1..], opener)
    else FindBraced(s[1..], opener)
  }

  /** `re.findall(r'<[^>]+>', s)`: from each `<` to the first `>` after it, with at least one character between. */
  function FindTags(s: string): (r: seq<string>)
    ensures forall k :: 0 <= k < |r| ==> |r[k]| >= 3 && r[k][0] == '<' && r[k][|r[k]| - 1] == '>'
    decreases |s|
  {
    if s == [] then []
    else if s[0] == '<' then
      match IndexOf(s[1..], ">")
        case Some(j) =>
          if j == 0 then FindTags(s[1..])
          else
            assert s[1..][j] == '>';
            [s[..j + 2]] + FindTags(s[j + 2..])
        case None => FindTags(s[1..])
    else FindTags(s[1..])
  }

  /** The placeholder patterns, in the script's order: `%s`, `%d`, `%[a-z]`, `{...}`, `${...}`. */
  function Placeholders(s: string, pattern: nat): seq<string>
    requires pattern < 5
  {
    if pattern == 0 then FindLiteral(s, "%s")
    else if pattern == 1 then FindLiteral(s, "%d")
    else if pattern == 2 then FindPercentLetter(s)
    else if pattern == 3 then FindBraced(s, "{")
    else FindBraced(s, "${")
  }

  /** One mismatch: the key, the expected matches and the found ones. */
  datatype Mismatch = Mismatch(key: string, expected: seq<string>, found: seq<string>)

  /** The placeholder mismatches of one key, one per pattern whose reference matches are non-empty and differ. */
  function PatternMismatches(key: string, refText: string, langText: string, from: nat): (r: seq<Mismatch>)
    requires from <= 5
    ensures |r| <= 5 - from
    ensures forall k :: 0 <= k < |r| ==> r[k].expected != [] && r[k].expected != r[k].found && r[k].key == key
    decreases 5 - from
  {
    if from == 5 then []
    else
      var expected := Placeholders(refText, from);
      var found := if langText != [] then Placeholders(langText, from) else [];
      var rest := PatternMismatches(key, refText, langText, from + 1);
      if expected != [] && expected != found then [Mismatch(key, expected, found)] + rest else rest
  }

  /** A reference text without placeholders yields no mismatch. */
  lemma {:induction false} NoPlaceholdersNoMismatch(key: string, refText: string, langText: string, from: nat)
    requires from <= 5
    requires forall p :: from <= p < 5 ==> Placeholders(refText, p) == []
    ensures PatternMismatches(key, refText, langText, from) == []
    decreases 5 - from
  {
    if from < 5 {
      NoPlaceholdersNoMismatch(key, refText, langText, from + 1);
    }
  }

  function KeyPlaceholderMismatches(ref: Json, lang: Json, key: string): seq<Mismatch>
  {
    var refValue, langValue := NestedValue(ref, key), NestedValue(lang, key);
    if IsString(refValue) && IsString(langValue) then PatternMismatches(key, refValue.value.s, langValue.value.s, 0) else []
  }

  function PlaceholderMismatches(ref: Json, lang: Json, keys: seq<string>): (r: seq<Mismatch>)
    ensures forall k :: 0 <= k < |r| ==> r[k].expected != [] && r[k].key in keys
  {
    if keys == [] then []
    else
      var init := PlaceholderMismatches(ref, lang, keys[..|keys| - 1]);
      assert forall x :: x in keys[..|keys| - 1] ==> x in keys;
      init + KeyPlaceholderMismatches(ref, lang, keys[|keys| - 1])
  }

  /** The tag mismatch of one key: both tag lists are recorded sorted, and differ exactly when the tags differ as multisets. */
  function KeyTagMismatch(ref: Json, lang: Json, key: string): (r: seq<Mismatch>)
    ensures |r| <= 1
    ensures r != [] <==>
      (IsString(NestedValue(ref, key)) && IsString(NestedValue(lang, key)) &&
       FindTags(NestedValue(ref, key).value.s) != [] &&
       multiset(FindTags(NestedValue(ref, key).value.s)) != multiset(FindTags(NestedValue(lang, key).value.s)))
    ensures r != [] ==>
      r[0].key == key &&
      LexSorted(r[0].expected) && multiset(r[0].expected) == multiset(FindTags(NestedValue(ref, key).value.s)) &&
      LexSorted(r[0].found) && multiset(r[0].found) == multiset(FindTags(NestedValue(lang, key).value.s))
  {
    var refValue, langValue := NestedValue(ref, key), NestedValue(lang, key);
    if !IsString(refValue) || !IsString(langValue) then []
    else
      var refTags := FindTags(refValue.value.s);
      var langTags := if langValue.value.s != [] then FindTags(langValue.value.s) else [];
      assert langTags == FindTags(langValue.value.s);
      var expected, found := SortStrings(refTags), SortStrings(langTags);
      SortedEqualIff(refTags, langTags);
      if expected != [] && expected != found then [Mismatch(key, expected, found)] else []
  }

  /** Reordered tags are not a mismatch. */
  lemma ReorderedTagsAccepted(ref: Json, lang: Json, key: string)
    requires IsString(NestedValue(ref, key)) && IsString(NestedValue(lang, key))
    requires multiset(FindTags(NestedValue(ref, key).value.s)) == multiset(FindTags(NestedValue(lang, key).value.s))
    ensures KeyTagMismatch(ref, lang, key) == []
  {
  }

  function TagMismatches(ref: Json, lang: Json, keys: seq<string>): (r: seq<Mismatch>)
    ensures |r| <= |keys|
  {
    if keys == [] then [] else TagMismatches(ref, lang, keys[..|keys| - 1]) + KeyTagMismatch(ref, lang, keys[|keys| - 1])
  }

  // ------------------------------------------------------------ special characters

  predicate IsControl(c: char)
  {
    c as int <= 0x1F
  }

  predicate IsLineSeparator(c: char)
  {
    c as int == 0x2028 || c as int == 0x2029
  }

  /** One finding of `check_special_characters`: the key and which class of character it holds. */
  datatype SpecialFinding = ControlCharacters(key: string) | LineSeparators(key: string)

  function KeySpecialFindings(lang: Json, key: string): (r: seq<SpecialFinding>)
    ensures ControlCharacters(key) in r <==> IsString(NestedValue(lang, key)) && exists c :: c in NestedValue(lang, key).value.s && IsControl(c)
    ensures LineSeparators(key) in r <==> IsString(NestedValue(lang, key)) && exists c :: c in NestedValue(lang, key).value.s && IsLineSeparator(c)
    ensures |r| <= 2
  {
    var value := NestedValue(lang, key);
    if !IsString(value) then []
    else
      var s := value.value.s;
      (if exists c :: c in s && IsControl(c) then [ControlCharacters(key)] else []) +
      (if exists c :: c in s && IsLineSeparator(c) then [LineSeparators(key)] else [])
  }

  function SpecialFindings(lang: Json, keys: seq<string>): (r: seq<SpecialFinding>)
    ensures |r| <= 2 * |keys|
  {
    if keys == [] then [] else SpecialFindings(lang, keys[..|keys| - 1]) + KeySpecialFindings(lang, keys[|keys| - 1])
  }

  // ------------------------------------------------------------ the auditor

  /** The issue lists of one language; an absent list is an empty one. */
  datatype LangIssues = LangIssues(
    missingKeys: set<string>, extraKeys: set<string>,
    translations: seq<TranslationFinding>, placeholders: seq<Mismatch>, tags: seq<Mismatch>,
    special: seq<SpecialFinding>)

  const NoIssues := LangIssues({}, {}, [], [], [], [])

  /** `issue_count`: the lengths of the lists summed (each list value counts its length). */
  function IssueCount(i: LangIssues): nat
  {
    |i.missingKeys| + |i.extraKeys| + |i.translations| + |i.placeholders| + |i.tags| + |i.special|
  }

  datatype Stats = Stats(totalKeys: nat, issueCount: nat, hasIssues: bool)

  /** The statistics written for a language: its key count, its issue count, and whether it has any. */
  function LangStats(lang: Json, issues: LangIssues): (r: Stats)
    ensures r.hasIssues <==> r.issueCount > 0
    ensures r.issueCount == IssueCount(issues)
  {
    var count := IssueCount(issues);
    Stats(|AllKeys(lang, "")|, count, count > 0)
  }

  /** A duplicate-free sequence that lists exactly the elements of a set: one iteration order of it. */
  /** The issues after one audit of a language, added to what was recorded before. */
  function Audited(before: LangIssues, ref: Json, lang: Json, code: string, refOrder: seq<string>, langOrder: seq<string>): LangIssues
  {
    var (missing, extra) := CheckStructure(ref, lang);
    LangIssues(
      if missing != {} then missing else before.missingKeys,
      if extra != {} then extra else before.extraKeys,
      before.translations + TranslationFindings(ref, lang, code, refOrder),
      before.placeholders + PlaceholderMismatches(ref, lang, refOrder),
      before.tags + TagMismatches(ref, lang, refOrder),
      before.special + SpecialFindings(lang, langOrder))
  }

  /** A language whose structure matches the reference and whose checks find nothing has no issue. */
  lemma CleanLanguage(ref: Json, lang: Json, code: string, refOrder: seq<string>, langOrder: seq<string>)
    requires AllKeys(ref, "") == AllKeys(lang, "")
    requires TranslationFindings(ref, lang, code, refOrder) == [] && PlaceholderMismatches(ref, lang, refOrder) == []
    requires TagMismatches(ref, lang, refOrder) == [] && SpecialFindings(lang, langOrder) == []
    ensures IssueCount(Audited(NoIssues, ref, lang, code, refOrder, langOrder)) == 0
  {
  }

  /** A key the language lacks makes its first audit report an issue. */
  lemma MissingKeyCounts(ref: Json, lang: Json, code: string, refOrder: seq<string>, langOrder: seq<string>, p: string)
    requires p in AllKeys(ref, "") && p !in AllKeys(lang, "")
    ensures IssueCount(Audited(NoIssues, ref, lang, code, refOrder, langOrder)) > 0
  {
    CheckStructureMembers(ref, lang, p);
  }

  /** A read of the `defaultdict` of issues: a language not yet audited has none. */
  function IssuesIn(issues: map<string, LangIssues>, code: string): (r: LangIssues)
    ensures code !in issues ==> r == NoIssues
    ensures code in issues ==> r == issues[code]
  {
    if code in issues then issues[code] else NoIssues
  }

  class TranslationAuditor {
    /** The `languages` object of the loaded file. */
    const languages: seq<(string, Json)>
    var issues: map<string, LangIssues>
    var stats: map<string, Stats>

    constructor(languages: seq<(string, Json)>)
      ensures this.languages == languages && issues == map[] && stats == map[]
    {
      this.languages := languages;
      issues := map[];
      stats := map[];
    }

    function RefData(): Json
      requires HasKey(languages, ReferenceLang)
    {
      Get(languages, ReferenceLang).value
    }


    /**
     * `audit_language`: nothing for the reference language; otherwise the
     * checks append to the language's issue lists and its statistics are
     * written. The reference must exist, as the script reads it.
     */
    method AuditLanguage(code: string, refOrder: seq<string>, langOrder: seq<string>)
      requires HasKey(languages, ReferenceLang) && HasKey(languages, code)
      requires Enumerates(refOrder, AllKeys(RefData(), ""))
      requires Enumerates(langOrder, AllKeys(Get(languages, code).value, ""))
      modifies this`issues, this`stats
      ensures code == ReferenceLang ==> issues == old(issues) && stats == old(stats)
      ensures code != ReferenceLang ==>
        issues == old(issues)[code := Audited(IssuesIn(old(issues), code), RefData(), Get(languages, code).value, code, refOrder, langOrder)]
      ensures code != ReferenceLang ==> code in issues && stats == old(stats)[code := LangStats(Get(languages, code).value, issues[code])]
    {
      if code == ReferenceLang {
        return;
      }
      RunChecks(code, RefData(), Get(languages, code).value, refOrder, langOrder);
    }

    /**
     * The checks of `audit_language`: the structure check replaces the
     * missing and extra keys when it finds some, the other checks append
     * their findings; then the statistics are written.
     */
    method RunChecks(code: string, ref: Json, langData: Json, refOrder: seq<string>, langOrder: seq<string>)
      modifies this`issues, this`stats
      ensures issues == old(issues)[code := Audited(IssuesIn(old(issues), code), ref, langData, code, refOrder, langOrder)]
      ensures stats == old(stats)[code := LangStats(langData, issues[code])]
    {
      var after := Audited(IssuesIn(issues, code), ref, langData, code, refOrder, langOrder);
      issues := issues[code := after];
      stats := stats[code := LangStats(langData, after)];
    }

    /** The languages other than the reference among the first `i`. */
    ghost function CodesBefore(i: nat): set<string>
      requires i <= |languages|
    {
      if i == 0 then {}
      else CodesBefore(i - 1) + (if languages[i - 1].0 != ReferenceLang then {languages[i - 1].0} else {})
    }

    lemma {:induction false} CodesBeforeListed(i: nat)
      requires i <= |languages|
      ensures forall code :: code in CodesBefore(i) <==> code != ReferenceLang && exists k :: 0 <= k < i && languages[k].0 == code
    {
      if i > 0 {
        CodesBeforeListed(i - 1);
      }
    }

    /** `langOrders[k]` is an iteration order of the keys of the `k`-th language. */
    predicate LangOrderFits(langOrders: seq<seq<string>>, k: int)
    {
      0 <= k < |langOrders| == |languages| && Enumerates(langOrders[k], AllKeys(Get(languages, languages[k].0).value, ""))
    }

    /** The languages other than the reference are those the file lists. */
    lemma CodesListed()
      ensures forall code :: code in CodesBefore(|languages|) <==> code != ReferenceLang && HasKey(languages, code)
    {
      CodesBeforeListed(|languages|);
    }

    /** `languages[code]['name']` succeeds: the entry is an object with a `name` member. */
    predicate Named(v: Json)
    {
      v.Obj? && HasKey(v.fields, "name")
    }

    /** The entry at `k` is audited without raising: it is the reference, or it has a name and the reference exists. */
    predicate AuditsCleanly(k: int)
      requires 0 <= k < |languages|
    {
      languages[k].0 == ReferenceLang || (Named(Get(languages, languages[k].0).value) && HasKey(languages, ReferenceLang))
    }

    /** The issues `run_audit` leaves for the entry at `k`, starting from `before`. */
    function AuditedAt(k: int, before: LangIssues, refOrder: seq<string>, langOrders: seq<seq<string>>): LangIssues
      requires HasKey(languages, ReferenceLang) && 0 <= k < |langOrders| == |languages|
    {
      Audited(before, RefData(), Get(languages, languages[k].0).value, languages[k].0, refOrder, langOrders[k])
    }

    /**
     * One round of `run_audit`'s loop. For a language other than the
     * reference the script first reads the entry's `name` (raising when
     * the entry is not an object with one) and then audits it (raising
     * when the reference is missing); neither failure changes the state.
     */
    method AuditAt(i: nat, refOrder: seq<string>, langOrders: seq<seq<string>>) returns (ok: bool)
      requires i < |langOrders| == |languages|
      requires HasKey(languages, ReferenceLang) ==> Enumerates(refOrder, AllKeys(RefData(), ""))
      requires LangOrderFits(langOrders, i)
      modifies this`issues, this`stats
      ensures ok <==> AuditsCleanly(i)
      ensures !ok || languages[i].0 == ReferenceLang ==> issues == old(issues) && stats == old(stats)
      ensures ok && languages[i].0 != ReferenceLang ==>
        issues == old(issues)[languages[i].0 := AuditedAt(i, IssuesIn(old(issues), languages[i].0), refOrder, langOrders)]
      ensures ok && languages[i].0 != ReferenceLang ==>
        stats == old(stats)[languages[i].0 := LangStats(Get(languages, languages[i].0).value, issues[languages[i].0])]
    {
      var code := languages[i].0;
      if code == ReferenceLang {
        return true;
      }
      if !Named(Get(languages, code).value) || !HasKey(languages, ReferenceLang) {
        return false;
      }
      AuditLanguage(code, refOrder, langOrders[i]);
      ok := true;
    }

    /** The language codes of the file are distinct, as the keys of a JSON object read into a dict are. */
    predicate DistinctCodes()
    {
      forall a, b :: 0 <= a < b < |languages| ==> languages[a].0 != languages[b].0
    }

    /**
     * `run_audit`'s loop: every language other than the reference, in file
     * order. It stops at the first language whose name cannot be read or
     * whose audit cannot read the reference; a run that gets through leaves
     * each audited language with its audited issues and their statistics.
     */
    method RunAudit(refOrder: seq<string>, langOrders: seq<seq<string>>) returns (ok: bool)
      requires DistinctCodes() && |langOrders| == |languages|
      requires HasKey(languages, ReferenceLang) ==> Enumerates(refOrder, AllKeys(RefData(), ""))
      requires forall k :: 0 <= k < |languages| ==> LangOrderFits(langOrders, k)
      modifies this`issues, this`stats
      ensures ok <==> forall k :: 0 <= k < |languages| ==> AuditsCleanly(k)
      ensures ok ==> forall code :: code in stats <==> code in old(stats) || (code != ReferenceLang && HasKey(languages, code))
      ensures ok ==> forall k :: 0 <= k < |languages| && languages[k].0 != ReferenceLang ==>
        HasKey(languages, ReferenceLang) && languages[k].0 in issues &&
        issues[languages[k].0] == AuditedAt(k, IssuesIn(old(issues), languages[k].0), refOrder, langOrders)
      ensures ok ==> forall k :: 0 <= k < |languages| && languages[k].0 != ReferenceLang ==>
        languages[k].0 in stats && stats[languages[k].0] == LangStats(Get(languages, languages[k].0).value, IssuesIn(issues, languages[k].0))
      ensures ok ==> forall code :: code in old(stats) && (code == ReferenceLang || !HasKey(languages, code)) ==> stats[code] == old(stats)[code]
    {
      ghost var targets := PlanAudits(issues, refOrder, langOrders);
      for i := 0 to |languages|
        invariant Progress(i, issues, stats, old(issues), old(stats), targets)
      {
        ghost var before, statsBefore := issues, stats;
        ok := AuditAt(i, refOrder, langOrders);
        if !ok {
          return;
        }
        RoundDone(i, before, statsBefore, issues, stats, old(issues), old(stats), targets, refOrder, langOrders);
      }
      ok := true;
      RunDone(issues, stats, old(issues), old(stats), targets, refOrder, langOrders);
    }

    /** A passing round of `run_audit`'s loop, as `AuditAt` leaves it, extends the progress by its entry. */
    lemma RoundDone(i: nat, before: map<string, LangIssues>, statsBefore: map<string, Stats>,
                    issues: map<string, LangIssues>, stats: map<string, Stats>,
                    start: map<string, LangIssues>, startStats: map<string, Stats>, targets: seq<LangIssues>,
                    refOrder: seq<string>, langOrders: seq<seq<string>>)
      requires DistinctCodes() && i < |languages| == |targets| == |langOrders|
      requires Progress(i, before, statsBefore, start, startStats, targets)
      requires TargetOk(targets, start, refOrder, langOrders, i)
      requires AuditsCleanly(i)
      requires languages[i].0 == ReferenceLang ==> issues == before && stats == statsBefore
      requires languages[i].0 != ReferenceLang ==>
        issues == before[languages[i].0 := AuditedAt(i, IssuesIn(before, languages[i].0), refOrder, langOrders)]
      requires languages[i].0 != ReferenceLang ==>
        stats == statsBefore[languages[i].0 := LangStats(Get(languages, languages[i].0).value, issues[languages[i].0])]
      ensures Progress(i + 1, issues, stats, start, startStats, targets)
    {
      NotYetAudited(i);
      assert RoundUpdate(i, before, statsBefore, issues, stats, targets);
      ProgressStep(i, before, statsBefore, issues, stats, start, startStats, targets);
    }

    /** After every entry has passed, the run's results are those `RunAudit` promises. */
    lemma RunDone(issues: map<string, LangIssues>, stats: map<string, Stats>,
                  start: map<string, LangIssues>, startStats: map<string, Stats>, targets: seq<LangIssues>,
                  refOrder: seq<string>, langOrders: seq<seq<string>>)
      requires |languages| == |targets| == |langOrders|
      requires Progress(|languages|, issues, stats, start, startStats, targets)
      requires forall k :: 0 <= k < |languages| ==> TargetOk(targets, start, refOrder, langOrders, k)
      ensures forall k :: 0 <= k < |languages| ==> AuditsCleanly(k)
      ensures forall code :: code in stats <==> code in startStats || (code != ReferenceLang && HasKey(languages, code))
      ensures forall k :: 0 <= k < |languages| && languages[k].0 != ReferenceLang ==>
        HasKey(languages, ReferenceLang) && languages[k].0 in issues &&
        issues[languages[k].0] == AuditedAt(k, IssuesIn(start, languages[k].0), refOrder, langOrders)
      ensures forall k :: 0 <= k < |languages| && languages[k].0 != ReferenceLang ==>
        languages[k].0 in stats && stats[languages[k].0] == LangStats(Get(languages, languages[k].0).value, IssuesIn(issues, languages[k].0))
      ensures forall code :: code in startStats && (code == ReferenceLang || !HasKey(languages, code)) ==> stats[code] == startStats[code]
    {
      ProgressDone(issues, stats, start, startStats, targets);
      forall k | 0 <= k < |languages| && languages[k].0 != ReferenceLang
        ensures HasKey(languages, ReferenceLang) && languages[k].0 in issues &&
          issues[languages[k].0] == AuditedAt(k, IssuesIn(start, languages[k].0), refOrder, langOrders)
      {
        assert TargetOk(targets, start, refOrder, langOrders, k);
      }
    }

    /** The issues a full run leaves for the entry at `k`, when it is audited: its audit from the issues it had at the start. */
    ghost predicate TargetOk(targets: seq<LangIssues>, start: map<string, LangIssues>,
                             refOrder: seq<string>, langOrders: seq<seq<string>>, k: int)
      requires |targets| == |langOrders| == |languages| && 0 <= k < |languages|
    {
      HasKey(languages, ReferenceLang) && languages[k].0 != ReferenceLang ==>
        targets[k] == AuditedAt(k, IssuesIn(start, languages[k].0), refOrder, langOrders)
    }

    /** The issues a full run is to leave for each entry. */
    lemma PlanAudits(start: map<string, LangIssues>, refOrder: seq<string>, langOrders: seq<seq<string>>) returns (targets: seq<LangIssues>)
      requires |langOrders| == |languages|
      ensures |targets| == |languages|
      ensures forall k :: 0 <= k < |languages| ==> TargetOk(targets, start, refOrder, langOrders, k)
    {
      targets := seq(|languages|, k requires 0 <= k < |languages| =>
        if HasKey(languages, ReferenceLang) && languages[k].0 != ReferenceLang
        then AuditedAt(k, IssuesIn(start, languages[k].0), refOrder, langOrders) else NoIssues);
    }

    /**
     * What `run_audit` has done after the first `i` entries, starting from
     * `start` and `startStats`: each entry passed, and exactly the languages
     * among them other than the reference hold their planned issues and
     * their statistics; everything else is as it was.
     */
    ghost predicate Progress(i: nat, issues: map<string, LangIssues>, stats: map<string, Stats>,
                             start: map<string, LangIssues>, startStats: map<string, Stats>, targets: seq<LangIssues>)
      requires i <= |languages| == |targets|
    {
      (forall k :: 0 <= k < i ==> AuditsCleanly(k)) &&
      StatsKeysAt(i, stats, startStats) &&
      IssuesAt(i, issues, targets) &&
      StatsAt(i, issues, stats) &&
      UntouchedAt(i, issues, stats, start, startStats)
    }

    /** The languages with statistics are those that had them and the audited ones. */
    ghost predicate StatsKeysAt(i: nat, stats: map<string, Stats>, startStats: map<string, Stats>)
      requires i <= |languages|
    {
      forall code :: code in stats <==> code in startStats || code in CodesBefore(i)
    }

    /** Each audited language holds its planned issues. */
    predicate IssuesAt(i: nat, issues: map<string, LangIssues>, targets: seq<LangIssues>)
      requires i <= |languages| == |targets|
    {
      forall k :: 0 <= k < i && languages[k].0 != ReferenceLang ==>
        HasKey(languages, ReferenceLang) && languages[k].0 in issues && issues[languages[k].0] == targets[k]
    }

    /** Each audited language holds the statistics of its issues. */
    predicate StatsAt(i: nat, issues: map<string, LangIssues>, stats: map<string, Stats>)
      requires i <= |languages|
    {
      forall k :: 0 <= k < i && languages[k].0 != ReferenceLang ==>
        languages[k].0 in stats && stats[languages[k].0] == LangStats(Get(languages, languages[k].0).value, IssuesIn(issues, languages[k].0))
    }

    /** A language not yet audited keeps its issues and statistics. */
    ghost predicate UntouchedAt(i: nat, issues: map<string, LangIssues>, stats: map<string, Stats>,
                                start: map<string, LangIssues>, startStats: map<string, Stats>)
      requires i <= |languages|
    {
      (forall code :: code !in CodesBefore(i) ==> IssuesIn(issues, code) == IssuesIn(start, code)) &&
      (forall code :: code in startStats && code !in CodesBefore(i) ==> code in stats && stats[code] == startStats[code])
    }

    /**
     * One round of the loop on the entry at `i`: the reference leaves
     * everything as it was, any other language gets its planned issues
     * and their statistics.
     */
    ghost predicate RoundUpdate(i: nat, issues: map<string, LangIssues>, stats: map<string, Stats>,
                                issues': map<string, LangIssues>, stats': map<string, Stats>, targets: seq<LangIssues>)
      requires i < |languages| == |targets|
    {
      (languages[i].0 == ReferenceLang ==> issues' == issues && stats' == stats) &&
      (languages[i].0 != ReferenceLang ==>
        issues' == issues[languages[i].0 := targets[i]] &&
        stats' == stats[languages[i].0 := LangStats(Get(languages, languages[i].0).value, targets[i])])
    }

    /** One passing round of the loop extends the progress by its entry. */
    lemma ProgressStep(i: nat, issues: map<string, LangIssues>, stats: map<string, Stats>,
                       issues': map<string, LangIssues>, stats': map<string, Stats>,
                       start: map<string, LangIssues>, startStats: map<string, Stats>, targets: seq<LangIssues>)
      requires DistinctCodes() && i < |languages| == |targets|
      requires Progress(i, issues, stats, start, startStats, targets)
      requires AuditsCleanly(i)
      requires RoundUpdate(i, issues, stats, issues', stats', targets)
      ensures Progress(i + 1, issues', stats', start, startStats, targets)
    {
      IssuesProgress(i, issues, stats, issues', stats', start, startStats, targets);
      StatsProgress(i, issues, stats, issues', stats', start, startStats, targets);
    }

    /** The issues half of `ProgressStep`. */
    lemma IssuesProgress(i: nat, issues: map<string, LangIssues>, stats: map<string, Stats>,
                         issues': map<string, LangIssues>, stats': map<string, Stats>,
                         start: map<string, LangIssues>, startStats: map<string, Stats>, targets: seq<LangIssues>)
      requires DistinctCodes() && i < |languages| == |targets|
      requires Progress(i, issues, stats, start, startStats, targets)
      requires AuditsCleanly(i)
      requires RoundUpdate(i, issues, stats, issues', stats', targets)
      ensures IssuesAt(i + 1, issues', targets) && UntouchedAt(i + 1, issues', stats', start, startStats)
    {
      NotYetAudited(i);
      UntouchedStep(i, issues, stats, issues', stats', start, startStats, targets);
      IssuesStep(i, issues, stats, issues', stats', targets);
    }

    /** The statistics half of `ProgressStep`. */
    lemma StatsProgress(i: nat, issues: map<string, LangIssues>, stats: map<string, Stats>,
                        issues': map<string, LangIssues>, stats': map<string, Stats>,
                        start: map<string, LangIssues>, startStats: map<string, Stats>, targets: seq<LangIssues>)
      requires DistinctCodes() && i < |languages| == |targets|
      requires Progress(i, issues, stats, start, startStats, targets)
      requires RoundUpdate(i, issues, stats, issues', stats', targets)
      ensures StatsKeysAt(i + 1, stats', startStats) && StatsAt(i + 1, issues', stats')
    {
      NotYetAudited(i);
      StatsKeysStep(i, issues, stats, issues', stats', startStats, targets);
      StatsStep(i, issues, stats, issues', stats', targets);
    }

    /** One round changes the issues and the statistics of its own language at most. */
    lemma RoundChanges(i: nat, issues: map<string, LangIssues>, stats: map<string, Stats>,
                       issues': map<string, LangIssues>, stats': map<string, Stats>, targets: seq<LangIssues>)
      requires i < |languages| == |targets|
      requires RoundUpdate(i, issues, stats, issues', stats', targets)
      ensures forall code :: code != languages[i].0 ==> IssuesIn(issues', code) == IssuesIn(issues, code)
      ensures forall code :: code != languages[i].0 && code in stats ==> code in stats' && stats'[code] == stats[code]
      ensures forall code :: code in stats' <==> code in stats || (languages[i].0 != ReferenceLang && code == languages[i].0)
    {
    }

    /** The entry's planned issues join those of the entries before it. */
    lemma IssuesStep(i: nat, issues: map<string, LangIssues>, stats: map<string, Stats>,
                     issues': map<string, LangIssues>, stats': map<string, Stats>, targets: seq<LangIssues>)
      requires i < |languages| == |targets|
      requires IssuesAt(i, issues, targets)
      requires forall k :: 0 <= k < i ==> languages[k].0 != languages[i].0
      requires AuditsCleanly(i)
      requires RoundUpdate(i, issues, stats, issues', stats', targets)
      ensures IssuesAt(i + 1, issues', targets)
    {
      forall k | 0 <= k < i + 1 && languages[k].0 != ReferenceLang
        ensures HasKey(languages, ReferenceLang) && languages[k].0 in issues' && issues'[languages[k].0] == targets[k]
      {
        if k < i {
          assert languages[k].0 != languages[i].0;
        }
      }
    }

    /** The entry's statistics join those of the entries before it. */
    lemma StatsStep(i: nat, issues: map<string, LangIssues>, stats: map<string, Stats>,
                    issues': map<string, LangIssues>, stats': map<string, Stats>, targets: seq<LangIssues>)
      requires i < |languages| == |targets|
      requires StatsAt(i, issues, stats)
      requires forall k :: 0 <= k < i ==> languages[k].0 != languages[i].0
      requires RoundUpdate(i, issues, stats, issues', stats', targets)
      ensures StatsAt(i + 1, issues', stats')
    {
      RoundChanges(i, issues, stats, issues', stats', targets);
      forall k | 0 <= k < i + 1 && languages[k].0 != ReferenceLang
        ensures languages[k].0 in stats' &&
          stats'[languages[k].0] == LangStats(Get(languages, languages[k].0).value, IssuesIn(issues', languages[k].0))
      {
        if k < i {
          assert languages[k].0 != languages[i].0;
        }
      }
    }

    /** The statistics keys grow by the entry's code, unless it is the reference. */
    lemma StatsKeysStep(i: nat, issues: map<string, LangIssues>, stats: map<string, Stats>,
                        issues': map<string, LangIssues>, stats': map<string, Stats>,
                        startStats: map<string, Stats>, targets: seq<LangIssues>)
      requires i < |languages| == |targets|
      requires StatsKeysAt(i, stats, startStats)
      requires RoundUpdate(i, issues, stats, issues', stats', targets)
      ensures StatsKeysAt(i + 1, stats', startStats)
    {
      RoundChanges(i, issues, stats, issues', stats', targets);
    }

    /** The languages after the entry's code are still untouched. */
    lemma UntouchedStep(i: nat, issues: map<string, LangIssues>, stats: map<string, Stats>,
                        issues': map<string, LangIssues>, stats': map<string, Stats>,
                        start: map<string, LangIssues>, startStats: map<string, Stats>, targets: seq<LangIssues>)
      requires i < |languages| == |targets|
      requires UntouchedAt(i, issues, stats, start, startStats)
      requires RoundUpdate(i, issues, stats, issues', stats', targets)
      ensures UntouchedAt(i + 1, issues', stats', start, startStats)
    {
      RoundChanges(i, issues, stats, issues', stats', targets);
    }

    /** After the last entry the statistics cover exactly the listed languages besides those that had them. */
    lemma ProgressDone(issues: map<string, LangIssues>, stats: map<string, Stats>,
                       start: map<string, LangIssues>, startStats: map<string, Stats>, targets: seq<LangIssues>)
      requires |languages| == |targets|
      requires Progress(|languages|, issues, stats, start, startStats, targets)
      ensures forall code :: code in stats <==> code in startStats || (code != ReferenceLang && HasKey(languages, code))
      ensures forall code :: code in startStats && (code == ReferenceLang || !HasKey(languages, code)) ==> stats[code] == startStats[code]
    {
      CodesListed();
    }

    /** With distinct codes, the code at `i` is not among those audited before it. */
    lemma NotYetAudited(i: nat)
      requires DistinctCodes() && i < |languages|
      ensures languages[i].0 !in CodesBefore(i)
      ensures forall k :: 0 <= k < i ==> languages[k].0 != languages[i].0
    {
      CodesBeforeListed(i);
    }
  }
}

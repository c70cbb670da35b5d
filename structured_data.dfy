/**
 * `scripts/validate-structured-data.py`: the schema.org rules applied to
 * each JSON-LD block of a page, the issues collected per page, and the
 * exit status of a run.
 *
 * An issue is a constructor of `Issue`, one per message template of the
 * script. Where the script would raise (a Python `in` or `.get` applied
 * to a value that does not support it), the model returns `None`.
 */
module StructuredData {
  import opened Wrappers
  import opened Strings
  import opened Json

  const SchemaContext: string := "https://schema.org"

  /** The required properties of each known type, in table order. */
  const SchemaRequirements: seq<(string, seq<string>)> := [
    ("Article", ["headline", "author", "datePublished", "publisher"]),
    ("Organization", ["name", "url"]),
    ("WebSite", ["name", "url"]),
    ("Product", ["name", "description"]),
    ("FAQPage", ["mainEntity"]),
    ("BreadcrumbList", ["itemListElement"])
  ]

  datatype Issue =
    | MissingType
    | MissingContext(schemaType: Json)
    | InvalidContext(context: Json)
    | MissingProperty(prop: string, schemaType: Json)
    | BadAuthor
    | BadPublisher
    | BadLogo
    | NotAnArray(field: string)
    | BreadcrumbMissing(index: nat, field: string)
    | NotAQuestion(index: nat)
    | MissingAnswer(index: nat)

  /** Python's `key in v`: keys of a dict, elements of a list, substrings of a string; anything else raises. */
  function PyIn(key: string, v: Json): (r: Option<bool>)
    ensures v.Obj? ==> r == Some(HasKey(v.fields, key))
    ensures r.None? <==> !(v.Obj? || v.Arr? || v.Str?)
  {
    match v
      case Obj(fields) => Some(HasKey(fields, key))
      case Arr(items) => Some(Str(key) in items)
      case Str(s) => Some(Contains(s, key))
      case _ => None
  }

  /** The requirement list of a type name, `None` when it is not in the table. */
  function Requirements(table: seq<(string, seq<string>)>, t: string): (r: Option<seq<string>>)
    ensures r.Some? <==> exists i :: 0 <= i < |table| && table[i].0 == t
    ensures r.Some? ==> exists i :: 0 <= i < |table| && table[i] == (t, r.value)
  {
    if table == [] then None
    else if table[0].0 == t then Some(table[0].1)
    else
      var r := Requirements(table[1..], t);
      assert forall i :: 0 <= i < |table| - 1 ==> table[1..][i] == table[i + 1];
      assert (exists i :: 0 <= i < |table| && table[i].0 == t) ==> exists i :: 0 <= i < |table| - 1 && table[1..][i].0 == t by {
        if exists i :: 0 <= i < |table| && table[i].0 == t {
          var i :| 0 <= i < |table| && table[i].0 == t;
          assert i > 0 && table[1..][i - 1].0 == t;
        }
      }
      r
  }

  /** One issue per required property missing from the object, in requirement order. */
  function MissingProperties(fields: seq<(string, Json)>, props: seq<string>, t: Json): (r: seq<Issue>)
    ensures |r| <= |props|
    ensures forall k :: 0 <= k < |r| ==> r[k].MissingProperty? && r[k].prop in props && !HasKey(fields, r[k].prop)
  {
    if props == [] then []
    else
      var rest := MissingProperties(fields, props[1..], t);
      assert forall x :: x in props[1..] ==> x in props;
      if HasKey(fields, props[0]) then rest else [MissingProperty(props[0], t)] + rest
  }

  /** Every required property that is absent gets its issue. */
  lemma {:induction false} MissingPropertyReported(fields: seq<(string, Json)>, props: seq<string>, t: Json, k: nat)
    requires k < |props| && !HasKey(fields, props[k])
    ensures MissingProperty(props[k], t) in MissingProperties(fields, props, t)
  {
    if k > 0 {
      MissingPropertyReported(fields, props[1..], t, k - 1);
    }
  }

  /** A value that is an object with an `@type` member. */
  predicate IsTypedObject(v: Json)
  {
    v.Obj? && HasKey(v.fields, "@type")
  }

  /** The Article rules on `author` and `publisher`. */
  function ArticleIssues(fields: seq<(string, Json)>): (r: seq<Issue>)
    ensures BadAuthor in r <==> HasKey(fields, "author") && !IsTypedObject(Get(fields, "author").value)
    ensures BadPublisher in r <==> HasKey(fields, "publisher") && !Get(fields, "publisher").value.Obj?
    ensures BadLogo in r <==>
      (HasKey(fields, "publisher") && Get(fields, "publisher").value.Obj? &&
       HasKey(Get(fields, "publisher").value.fields, "logo") &&
       !IsTypedObject(Get(Get(fields, "publisher").value.fields, "logo").value))
    ensures |r| <= 2
  {
    var author := match Get(fields, "author")
      case Some(a) => if IsTypedObject(a) then [] else [BadAuthor]
      case None => [];
    var publisher := match Get(fields, "publisher")
      case Some(p) =>
        if !p.Obj? then [BadPublisher]
        else (match Get(p.fields, "logo")
          case Some(logo) => if IsTypedObject(logo) then [] else [BadLogo]
          case None => [])
      case None => [];
    author + publisher
  }

  /** Each breadcrumb item lacking `position` or `name`, one issue per missing field; `None` when an item does not support `in`. */
  function BreadcrumbItemIssues(items: seq<Json>, from: nat): (r: Option<seq<Issue>>)
    ensures r.None? <==> exists k :: 0 <= k < |items| && PyIn("position", items[k]).None?
    ensures r.Some? ==> |r.value| <= 2 * |items|
    decreases |items|
  {
    if items == [] then Some([])
    else
      var item := items[0];
      match (PyIn("position", item), PyIn("name", item))
        case (Some(hasPos), Some(hasName)) =>
          var own := (if hasPos then [] else [BreadcrumbMissing(from, "position")]) +
            (if hasName then [] else [BreadcrumbMissing(from, "name")]);
          var rest := BreadcrumbItemIssues(items[1..], from + 1);
          assert forall k :: 0 <= k < |items| - 1 ==> items[1..][k] == items[k + 1];
          assert (exists k :: 0 <= k < |items| && PyIn("position", items[k]).None?) ==>
            exists k :: 0 <= k < |items| - 1 && PyIn("position", items[1..][k]).None? by {
            if exists k :: 0 <= k < |items| && PyIn("position", items[k]).None? {
              var k :| 0 <= k < |items| && PyIn("position", items[k]).None?;
              assert k > 0 && items[1..][k - 1] == items[k];
            }
          }
          if rest.None? then None else Some(own + rest.value)
        case _ => None
  }

  /** Each FAQ entity whose `@type` is not `Question`, and each lacking `acceptedAnswer`; `None` when an entity is not an object. */
  function FaqEntityIssues(entities: seq<Json>, from: nat): (r: Option<seq<Issue>>)
    ensures r.None? <==> exists k :: 0 <= k < |entities| && !entities[k].Obj?
    ensures r.Some? ==> |r.value| <= 2 * |entities|
    ensures r.Some? ==> forall k :: 0 <= k < |entities| && Get(entities[k].fields, "@type") != Some(Str("Question")) ==>
      NotAQuestion(from + k) in r.value
    decreases |entities|
  {
    if entities == [] then Some([])
    else
      var e := entities[0];
      if !e.Obj? then None
      else
        var own := (if Get(e.fields, "@type") == Some(Str("Question")) then [] else [NotAQuestion(from)]) +
          (if HasKey(e.fields, "acceptedAnswer") then [] else [MissingAnswer(from)]);
        var rest := FaqEntityIssues(entities[1..], from + 1);
        assert forall k :: 0 <= k < |entities| - 1 ==> entities[1..][k] == entities[k + 1];
        assert (exists k :: 0 <= k < |entities| && !entities[k].Obj?) ==>
          exists k :: 0 <= k < |entities| - 1 && !entities[1..][k].Obj? by {
          if exists k :: 0 <= k < |entities| && !entities[k].Obj? {
            var k :| 0 <= k < |entities| && !entities[k].Obj?;
            assert k > 0 && entities[1..][k - 1] == entities[k];
          }
        }
        if rest.None? then None else Some(own + rest.value)
  }

  /** The issues one breadcrumb item contributes. */
  function ItemIssues(item: Json, index: nat): seq<Issue>
  {
    (if PyIn("position", item) == Some(true) then [] else [BreadcrumbMissing(index, "position")]) +
    (if PyIn("name", item) == Some(true) then [] else [BreadcrumbMissing(index, "name")])
  }

  /** The issues one FAQ entity contributes. */
  function EntityIssues(e: Json, index: nat): seq<Issue>
    requires e.Obj?
  {
    (if Get(e.fields, "@type") == Some(Str("Question")) then [] else [NotAQuestion(index)]) +
    (if HasKey(e.fields, "acceptedAnswer") then [] else [MissingAnswer(index)])
  }

  /** A passing breadcrumb check is the items' issues, one item after the other. */
  lemma BreadcrumbStep(items: seq<Json>, from: nat)
    requires items != [] && BreadcrumbItemIssues(items, from).Some?
    ensures PyIn("position", items[0]).Some? && PyIn("name", items[0]).Some?
    ensures BreadcrumbItemIssues(items[1..], from + 1).Some?
    ensures BreadcrumbItemIssues(items, from).value ==
      ItemIssues(items[0], from) + BreadcrumbItemIssues(items[1..], from + 1).value
  {
  }

  /** A passing FAQ check is the entities' issues, one entity after the other. */
  lemma FaqStep(entities: seq<Json>, from: nat)
    requires entities != [] && FaqEntityIssues(entities, from).Some?
    ensures entities[0].Obj? && FaqEntityIssues(entities[1..], from + 1).Some?
    ensures FaqEntityIssues(entities, from).value ==
      EntityIssues(entities[0], from) + FaqEntityIssues(entities[1..], from + 1).value
  {
  }

  /** Every breadcrumb issue is a missing field of an item in range, and they come in item order. */
  lemma {:induction false} BreadcrumbIndices(items: seq<Json>, from: nat, r: seq<Issue>)
    requires BreadcrumbItemIssues(items, from) == Some(r)
    ensures forall x :: x in r ==> x.BreadcrumbMissing? && from <= x.index < from + |items|
    ensures forall i, j :: 0 <= i < j < |r| ==> r[i].index <= r[j].index
    decreases |items|
  {
    if items != [] {
      BreadcrumbStep(items, from);
      var rest := BreadcrumbItemIssues(items[1..], from + 1).value;
      BreadcrumbIndices(items[1..], from + 1, rest);
      var own := ItemIssues(items[0], from);
      assert forall x :: x in own ==> x.BreadcrumbMissing? && x.index == from;
      Ordered(own, rest, from);
    }
  }

  /** Issues all at index `from` followed by issues at later indices are in index order. */
  lemma Ordered(own: seq<Issue>, rest: seq<Issue>, from: nat)
    requires forall x :: x in own ==> (x.BreadcrumbMissing? || x.NotAQuestion? || x.MissingAnswer?) && x.index == from
    requires forall x :: x in rest ==> (x.BreadcrumbMissing? || x.NotAQuestion? || x.MissingAnswer?) && from < x.index
    requires forall i, j :: 0 <= i < j < |rest| ==> rest[i].index <= rest[j].index
    ensures forall x :: x in own + rest ==> x.BreadcrumbMissing? || x.NotAQuestion? || x.MissingAnswer?
    ensures var r := own + rest; forall i, j :: 0 <= i < j < |r| ==> r[i].index <= r[j].index
  {
    var r := own + rest;
    forall i, j | 0 <= i < j < |r|
      ensures r[i].index <= r[j].index
    {
      if j >= |own| {
        assert r[j] == rest[j - |own|];
        if i >= |own| {
          assert r[i] == rest[i - |own|];
        } else {
          assert r[i] == own[i];
        }
      } else {
        assert r[i] == own[i] && r[j] == own[j];
      }
    }
  }

  /** One item reports a field missing exactly when `in` says it is absent. */
  lemma ItemReported(item: Json, index: nat, field: string)
    requires field == "position" || field == "name"
    requires PyIn(field, item).Some?
    ensures BreadcrumbMissing(index, field) in ItemIssues(item, index) <==> PyIn(field, item) == Some(false)
  {
  }

  /** The breadcrumb check reports field `field` of item `k` exactly when `in` says the item lacks it. */
  lemma {:induction false} BreadcrumbReportedAt(items: seq<Json>, from: nat, r: seq<Issue>, field: string, k: nat)
    requires BreadcrumbItemIssues(items, from) == Some(r)
    requires field == "position" || field == "name"
    requires k < |items|
    ensures BreadcrumbMissing(from + k, field) in r <==> PyIn(field, items[k]) == Some(false)
    decreases k, 1
  {
    if k == 0 {
      FirstItemReported(items, from, r, field);
    } else {
      LaterItemReported(items, from, r, field, k);
    }
  }

  lemma FirstItemReported(items: seq<Json>, from: nat, r: seq<Issue>, field: string)
    requires BreadcrumbItemIssues(items, from) == Some(r)
    requires field == "position" || field == "name"
    requires items != []
    ensures BreadcrumbMissing(from, field) in r <==> PyIn(field, items[0]) == Some(false)
  {
    BreadcrumbStep(items, from);
    var rest := BreadcrumbItemIssues(items[1..], from + 1).value;
    BreadcrumbIndices(items[1..], from + 1, rest);
    ReportedFirst(items[0], from, rest, r, field);
  }

  lemma {:induction false} LaterItemReported(items: seq<Json>, from: nat, r: seq<Issue>, field: string, k: nat)
    requires BreadcrumbItemIssues(items, from) == Some(r)
    requires field == "position" || field == "name"
    requires 0 < k < |items|
    ensures BreadcrumbMissing(from + k, field) in r <==> PyIn(field, items[k]) == Some(false)
    decreases k, 0
  {
    var tail := items[1..];
    assert tail[k - 1] == items[k];
    BreadcrumbStep(items, from);
    var rest := BreadcrumbItemIssues(tail, from + 1).value;
    BreadcrumbReportedAt(tail, from + 1, rest, field, k - 1);
    ReportedLater(items[0], from, rest, r, field, k, items[k]);
  }

  /** The first item's own issues decide whether it is reported, the later items having larger indices. */
  lemma ReportedFirst(item: Json, from: nat, rest: seq<Issue>, r: seq<Issue>, field: string)
    requires field == "position" || field == "name"
    requires PyIn(field, item).Some?
    requires r == ItemIssues(item, from) + rest
    requires forall x :: x in rest ==> x.BreadcrumbMissing? && from + 1 <= x.index
    ensures BreadcrumbMissing(from, field) in r <==> PyIn(field, item) == Some(false)
  {
    ItemReported(item, from, field);
    assert BreadcrumbMissing(from, field) !in rest;
  }

  /** An issue of a later item is reported iff the later items report it. */
  lemma ReportedLater(item: Json, from: nat, rest: seq<Issue>, r: seq<Issue>, field: string, k: nat, later: Json)
    requires r == ItemIssues(item, from) + rest && 0 < k
    requires BreadcrumbMissing(from + 1 + (k - 1), field) in rest <==> PyIn(field, later) == Some(false)
    ensures BreadcrumbMissing(from + k, field) in r <==> PyIn(field, later) == Some(false)
  {
    assert from + 1 + (k - 1) == from + k;
    assert BreadcrumbMissing(from + k, field) !in ItemIssues(item, from);
  }

  /** The breadcrumb check reports exactly the `position` and `name` fields each item lacks. */
  lemma BreadcrumbReported(items: seq<Json>, from: nat, r: seq<Issue>, field: string)
    requires BreadcrumbItemIssues(items, from) == Some(r)
    requires field == "position" || field == "name"
    ensures forall k :: 0 <= k < |items| ==> (BreadcrumbMissing(from + k, field) in r <==> PyIn(field, items[k]) == Some(false))
  {
    forall k | 0 <= k < |items|
      ensures BreadcrumbMissing(from + k, field) in r <==> PyIn(field, items[k]) == Some(false)
    {
      BreadcrumbReportedAt(items, from, r, field, k);
    }
  }

  /** Every FAQ issue is about an entity in range, and they come in entity order. */
  lemma {:induction false} FaqIndices(entities: seq<Json>, from: nat, r: seq<Issue>)
    requires FaqEntityIssues(entities, from) == Some(r)
    ensures forall x :: x in r ==> (x.NotAQuestion? || x.MissingAnswer?) && from <= x.index < from + |entities|
    ensures forall i, j :: 0 <= i < j < |r| ==> r[i].index <= r[j].index
    decreases |entities|
  {
    if entities != [] {
      FaqStep(entities, from);
      var rest := FaqEntityIssues(entities[1..], from + 1).value;
      FaqIndices(entities[1..], from + 1, rest);
      var own := EntityIssues(entities[0], from);
      assert forall x :: x in own ==> (x.NotAQuestion? || x.MissingAnswer?) && x.index == from;
      Ordered(own, rest, from);
    }
  }

  /** One entity's issues are about that entity: not a question exactly when its `@type` is not `Question`, missing an answer exactly when it has no `acceptedAnswer`. */
  lemma EntityReported(e: Json, index: nat)
    requires e.Obj?
    ensures forall x :: x in EntityIssues(e, index) ==> x == NotAQuestion(index) || x == MissingAnswer(index)
    ensures NotAQuestion(index) in EntityIssues(e, index) <==> Get(e.fields, "@type") != Some(Str("Question"))
    ensures MissingAnswer(index) in EntityIssues(e, index) <==> !HasKey(e.fields, "acceptedAnswer")
  {
  }

  /** The FAQ check reports an issue about entity `k` exactly when that entity's own issues hold it. */
  lemma {:induction false} EntityIssueAt(entities: seq<Json>, from: nat, r: seq<Issue>, k: nat, x: Issue)
    requires FaqEntityIssues(entities, from) == Some(r)
    requires k < |entities| && entities[k].Obj?
    requires x == NotAQuestion(from + k) || x == MissingAnswer(from + k)
    ensures x in r <==> x in EntityIssues(entities[k], from + k)
    decreases k, 1
  {
    if k == 0 {
      FirstEntityIssue(entities, from, r, x);
    } else {
      LaterEntityIssue(entities, from, r, k, x);
    }
  }

  lemma FirstEntityIssue(entities: seq<Json>, from: nat, r: seq<Issue>, x: Issue)
    requires FaqEntityIssues(entities, from) == Some(r)
    requires entities != [] && entities[0].Obj?
    requires x == NotAQuestion(from) || x == MissingAnswer(from)
    ensures x in r <==> x in EntityIssues(entities[0], from)
  {
    FaqStep(entities, from);
    var rest := FaqEntityIssues(entities[1..], from + 1).value;
    FaqIndices(entities[1..], from + 1, rest);
    assert x !in rest;
  }

  lemma {:induction false} LaterEntityIssue(entities: seq<Json>, from: nat, r: seq<Issue>, k: nat, x: Issue)
    requires FaqEntityIssues(entities, from) == Some(r)
    requires 0 < k < |entities| && entities[k].Obj?
    requires x == NotAQuestion(from + k) || x == MissingAnswer(from + k)
    ensures x in r <==> x in EntityIssues(entities[k], from + k)
    decreases k, 0
  {
    var tail := entities[1..];
    assert tail[k - 1] == entities[k];
    FaqStep(entities, from);
    var rest := FaqEntityIssues(tail, from + 1).value;
    EntityReported(entities[0], from);
    EntityIssueAt(tail, from + 1, rest, k - 1, x);
    assert EntityIssues(tail[k - 1], from + 1 + (k - 1)) == EntityIssues(entities[k], from + k);
    ReportedInRest(EntityIssues(entities[0], from), rest, r, x, EntityIssues(entities[k], from + k));
  }

  /** An issue the first entity cannot raise is reported iff the later entities report it. */
  lemma ReportedInRest(own: seq<Issue>, rest: seq<Issue>, r: seq<Issue>, x: Issue, later: seq<Issue>)
    requires r == own + rest && x !in own
    requires x in rest <==> x in later
    ensures x in r <==> x in later
  {
  }

  /** The FAQ check reports exactly the entities whose `@type` is not `Question` and those lacking `acceptedAnswer`. */
  lemma FaqReported(entities: seq<Json>, from: nat, r: seq<Issue>)
    requires FaqEntityIssues(entities, from) == Some(r)
    ensures forall k :: 0 <= k < |entities| ==> entities[k].Obj?
    ensures forall k :: 0 <= k < |entities| ==>
      (NotAQuestion(from + k) in r <==> Get(entities[k].fields, "@type") != Some(Str("Question")))
    ensures forall k :: 0 <= k < |entities| ==>
      (MissingAnswer(from + k) in r <==> !HasKey(entities[k].fields, "acceptedAnswer"))
  {
    forall k | 0 <= k < |entities|
      ensures NotAQuestion(from + k) in r <==> Get(entities[k].fields, "@type") != Some(Str("Question"))
      ensures MissingAnswer(from + k) in r <==> !HasKey(entities[k].fields, "acceptedAnswer")
    {
      EntityIssueAt(entities, from, r, k, NotAQuestion(from + k));
      EntityIssueAt(entities, from, r, k, MissingAnswer(from + k));
      EntityReported(entities[k], from + k);
    }
  }

  /**
   * How a list rule treats its field: nothing when it is absent, one
   * not-an-array issue when it is not a list, and otherwise the item check
   * (which the two item functions describe).
   */
  predicate ListRule(fields: seq<(string, Json)>, field: string, r: Option<seq<Issue>>)
  {
    (!HasKey(fields, field) ==> r == Some([])) &&
    (HasKey(fields, field) && !Get(fields, field).value.Arr? ==> r == Some([NotAnArray(field)])) &&
    (HasKey(fields, field) && Get(fields, field).value.Arr? ==>
       r == (if field == "itemListElement" then BreadcrumbItemIssues(Get(fields, field).value.items, 0)
             else FaqEntityIssues(Get(fields, field).value.items, 0)))
  }

  /** The rules specific to one type name. */
  function TypeIssues(fields: seq<(string, Json)>, t: Json): (r: Option<seq<Issue>>)
    ensures t != Str("BreadcrumbList") && t != Str("FAQPage") ==> r.Some?
    ensures t != Str("Article") && t != Str("BreadcrumbList") && t != Str("FAQPage") ==> r == Some([])
    ensures t == Str("Article") ==> r == Some(ArticleIssues(fields))
    ensures t == Str("BreadcrumbList") ==> ListRule(fields, "itemListElement", r)
    ensures t == Str("FAQPage") ==> ListRule(fields, "mainEntity", r)
  {
    if t == Str("Article") then Some(ArticleIssues(fields))
    else if t == Str("BreadcrumbList") then
      match Get(fields, "itemListElement")
        case None => Some([])
        case Some(Arr(items)) => BreadcrumbItemIssues(items, 0)
        case Some(_) => Some([NotAnArray("itemListElement")])
    else if t == Str("FAQPage") then
      match Get(fields, "mainEntity")
        case None => Some([])
        case Some(Arr(entities)) => FaqEntityIssues(entities, 0)
        case Some(_) => Some([NotAnArray("mainEntity")])
    else Some([])
  }

  /** The `@context` check. */
  function ContextIssues(fields: seq<(string, Json)>, t: Json): (r: seq<Issue>)
    ensures r == [] <==> Get(fields, "@context") == Some(Str(SchemaContext))
    ensures !HasKey(fields, "@context") ==> r == [MissingContext(t)]
  {
    match Get(fields, "@context")
      case None => [MissingContext(t)]
      case Some(c) => if c == Str(SchemaContext) then [] else [InvalidContext(c)]
  }

  /**
   * `validate_schema_structure` on an object. A type that is a list or an
   * object cannot be looked up in the requirement table and raises.
   */
  function ValidateSchema(table: seq<(string, seq<string>)>, fields: seq<(string, Json)>): (r: Option<seq<Issue>>)
    ensures !HasKey(fields, "@type") ==> r == Some([MissingType])
    ensures HasKey(fields, "@type") && (Get(fields, "@type").value.Arr? || Get(fields, "@type").value.Obj?) ==> r.None?
  {
    match Get(fields, "@type")
      case None => Some([MissingType])
      case Some(t) =>
        if t.Arr? || t.Obj? then None
        else
          var required := match t
            case Str(name) => (match Requirements(table, name)
              case Some(props) => MissingProperties(fields, props, t)
              case None => [])
            case _ => [];
          match TypeIssues(fields, t)
            case None => None
            case Some(specific) => Some(ContextIssues(fields, t) + required + specific)
  }

  /** The context issue, then the required-property issues, then the Article rules, for a known type other than the two list-checking ones. */
  lemma KnownTypeOrder(table: seq<(string, seq<string>)>, fields: seq<(string, Json)>, name: string, props: seq<string>)
    requires Get(fields, "@type") == Some(Str(name)) && Requirements(table, name) == Some(props)
    requires name != "BreadcrumbList" && name != "FAQPage"
    ensures ValidateSchema(table, fields) == Some(ContextIssues(fields, Str(name)) + MissingProperties(fields, props, Str(name)) +
      (if name == "Article" then ArticleIssues(fields) else []))
  {
  }

  /** A type outside the table and without type rules gets only the context check. */
  lemma UnknownTypeContextOnly(table: seq<(string, seq<string>)>, fields: seq<(string, Json)>, name: string)
    requires Get(fields, "@type") == Some(Str(name)) && Requirements(table, name).None?
    requires name != "Article" && name != "BreadcrumbList" && name != "FAQPage"
    ensures ValidateSchema(table, fields) == Some(ContextIssues(fields, Str(name)))
  {
    var t := Str(name);
    assert TypeIssues(fields, t) == Some([]);
    assert ContextIssues(fields, t) + [] + [] == ContextIssues(fields, t);
  }

  /** The three types with their own rules are all in the requirement table. */
  lemma RuleTypesAreKnown()
    ensures Requirements(SchemaRequirements, "Article") == Some(["headline", "author", "datePublished", "publisher"])
    ensures Requirements(SchemaRequirements, "FAQPage") == Some(["mainEntity"])
    ensures Requirements(SchemaRequirements, "BreadcrumbList") == Some(["itemListElement"])
    ensures Requirements(SchemaRequirements, "WebSite") == Some(["name", "url"])
  {
  }

  /** A WebSite block with the schema.org context, a name and a url has no issue. */
  lemma WebSiteValid(table: seq<(string, seq<string>)>, fields: seq<(string, Json)>)
    requires Requirements(table, "WebSite") == Some(["name", "url"])
    requires Get(fields, "@type") == Some(Str("WebSite")) && Get(fields, "@context") == Some(Str(SchemaContext))
    requires HasKey(fields, "name") && HasKey(fields, "url")
    ensures ValidateSchema(table, fields) == Some([])
  {
    var t := Str("WebSite");
    assert ["url"][1..] == [] && ["name", "url"][1..] == ["url"];
    assert MissingProperties(fields, ["url"], t) == [];
    assert MissingProperties(fields, ["name", "url"], t) == [];
    assert TypeIssues(fields, t) == Some([]);
    assert ContextIssues(fields, t) == [];
    KnownTypeOrder(table, fields, "WebSite", ["name", "url"]);
    assert "WebSite" != "Article" by { assert "WebSite"[0] != "Article"[0]; }
    assert ValidateSchema(table, fields) == Some(ContextIssues(fields, t) + MissingProperties(fields, ["name", "url"], t) + []);
    assert ContextIssues(fields, t) + MissingProperties(fields, ["name", "url"], t) + [] == [];
    assert ValidateSchema(table, fields) == Some([]);
  }

  // ------------------------------------------------------------ pages

  /** One reported issue: the page, the schema's `@type` (or "Unknown"), the issue. */
  datatype Report = Report(page: string, schemaType: Json, issue: Issue)

  function Reports(page: string, t: Json, issues: seq<Issue>): (r: seq<Report>)
    ensures |r| == |issues|
    ensures forall k :: 0 <= k < |r| ==> r[k] == Report(page, t, issues[k])
  {
    if issues == [] then [] else [Report(page, t, issues[0])] + Reports(page, t, issues[1..])
  }

  /**
   * `validate_page` on the parsed blocks of one page: every issue of every
   * block, in order, tagged with the block's type. A block that is not an
   * object makes `schema.get` raise.
   */
  function ValidatePage(table: seq<(string, seq<string>)>, page: string, schemas: seq<Json>): (r: Option<seq<Report>>)
    ensures schemas == [] ==> r == Some([])
    ensures r.Some? ==> forall k :: 0 <= k < |r.value| ==> r.value[k].page == page
    decreases |schemas|
  {
    if schemas == [] then Some([])
    else
      var s := schemas[0];
      if !s.Obj? then None
      else
        match ValidateSchema(table, s.fields)
          case None => None
          case Some(issues) =>
            var t := Get(s.fields, "@type").GetOr(Str("Unknown"));
            match ValidatePage(table, page, schemas[1..])
              case None => None
              case Some(rest) => Some(Reports(page, t, issues) + rest)
  }

  /** A block's issue count adds to the page's. */
  function IssueCount(table: seq<(string, seq<string>)>, schemas: seq<Json>): (r: Option<nat>)
    decreases |schemas|
  {
    if schemas == [] then Some(0)
    else if !schemas[0].Obj? then None
    else
      match (ValidateSchema(table, schemas[0].fields), IssueCount(table, schemas[1..]))
        case (Some(issues), Some(n)) => Some(|issues| + n)
        case _ => None
  }

  /** The page's reports number the sum of its blocks' issues. */
  lemma {:induction false} ValidatePageCount(table: seq<(string, seq<string>)>, page: string, schemas: seq<Json>)
    ensures ValidatePage(table, page, schemas).Some? <==> IssueCount(table, schemas).Some?
    ensures ValidatePage(table, page, schemas).Some? ==> |ValidatePage(table, page, schemas).value| == IssueCount(table, schemas).value
    decreases |schemas|
  {
    if schemas != [] && schemas[0].Obj? {
      ValidatePageCount(table, page, schemas[1..]);
    }
  }

  /** A block without `@type` is reported once, under the type "Unknown". */
  lemma UntypedBlock(table: seq<(string, seq<string>)>, page: string, fields: seq<(string, Json)>)
    requires !HasKey(fields, "@type")
    ensures ValidatePage(table, page, [Obj(fields)]) == Some([Report(page, Str("Unknown"), MissingType)])
  {
    assert [Obj(fields)][1..] == [];
    assert Reports(page, Str("Unknown"), [MissingType]) == [Report(page, Str("Unknown"), MissingType)];
  }

  /** What a page of the run turned out to be: absent, unreadable, or its parsed blocks. */
  datatype PageFile = Missing | Unreadable | Blocks(schemas: seq<Json>)

  /** The outcome of a run: pages validated, pages with issues, and every report. */
  datatype Summary = Summary(validated: nat, withIssues: nat, reports: seq<Report>)

  /** The run over the pages, `None` when one of them raises. */
  function Summarize(table: seq<(string, seq<string>)>, pages: seq<(string, PageFile)>): (r: Option<Summary>)
    ensures r.Some? ==> r.value.withIssues <= r.value.validated <= |pages|
    ensures r.Some? ==> (r.value.reports == [] <==> r.value.withIssues == 0)
  {
    if pages == [] then Some(Summary(0, 0, []))
    else
      var n := |pages| - 1;
      match Summarize(table, pages[..n])
        case None => None
        case Some(s) => Step(table, s, pages[n])
  }

  /** One page of the run: a missing page is skipped, an unreadable one counts as validated without issues. */
  function Step(table: seq<(string, seq<string>)>, s: Summary, page: (string, PageFile)): (r: Option<Summary>)
    ensures r.Some? ==> s.validated <= r.value.validated <= s.validated + 1
    ensures r.Some? ==> r.value.withIssues - s.withIssues == r.value.validated - s.validated || r.value.withIssues == s.withIssues
    ensures r.Some? ==> |s.reports| <= |r.value.reports| && (r.value.withIssues > s.withIssues <==> |r.value.reports| > |s.reports|)
    ensures r.Some? ==> s.withIssues <= r.value.withIssues
  {
    match page.1
      case Missing => Some(s)
      case Unreadable => Some(Summary(s.validated + 1, s.withIssues, s.reports))
      case Blocks(schemas) =>
        match ValidatePage(table, page.0, schemas)
          case None => None
          case Some(issues) =>
            if issues == [] then Some(Summary(s.validated + 1, s.withIssues, s.reports))
            else Some(Summary(s.validated + 1, s.withIssues + 1, s.reports + issues))
  }

  /** `validate_all_pages`' loop over the pages with its two counters; `ok` is false when a page raises. */
  method ValidateAllPages(table: seq<(string, seq<string>)>, pages: seq<(string, PageFile)>) returns (ok: bool, validated: nat, withIssues: nat, reports: seq<Report>)
    ensures ok <==> Summarize(table, pages).Some?
    ensures ok ==> Summarize(table, pages) == Some(Summary(validated, withIssues, reports))
  {
    validated, withIssues, reports := 0, 0, [];
    ok := true;
    for i := 0 to |pages|
      invariant Summarize(table, pages[..i]) == Some(Summary(validated, withIssues, reports))
    {
      SummarizeStep(table, pages, i);
      var file := pages[i].1;
      if file.Unreadable? {
        validated := validated + 1;
      } else if file.Blocks? {
        var issues := ValidatePage(table, pages[i].0, file.schemas);
        if issues.None? {
          ok := false;
          NoneStaysNone(table, pages, i + 1);
          return;
        }
        validated := validated + 1;
        if issues.value != [] {
          withIssues := withIssues + 1;
          reports := reports + issues.value;
        }
      }
    }
    assert pages[..|pages|] == pages;
  }

  lemma SummarizeStep(table: seq<(string, seq<string>)>, pages: seq<(string, PageFile)>, i: nat)
    requires i < |pages| && Summarize(table, pages[..i]).Some?
    ensures Summarize(table, pages[..i + 1]) == Step(table, Summarize(table, pages[..i]).value, pages[i])
  {
    assert pages[..i + 1][..i] == pages[..i];
  }

  /** Once a prefix of the run raises, the whole run does. */
  lemma {:induction false} NoneStaysNone(table: seq<(string, seq<string>)>, pages: seq<(string, PageFile)>, i: nat)
    requires i <= |pages| && Summarize(table, pages[..i]).None?
    ensures Summarize(table, pages).None?
    decreases |pages| - i
  {
    if i < |pages| {
      assert pages[..i + 1][..i] == pages[..i];
      NoneStaysNone(table, pages, i + 1);
    } else {
      assert pages[..i] == pages;
    }
  }

  /** `main`'s exit status: 0 exactly when the run found no issue. */
  function ExitCode(reports: seq<Report>): (r: int)
    ensures r == 0 <==> reports == []
    ensures r == 0 || r == 1
  {
    if reports == [] then 0 else 1
  }

  /** The exit status is 1 exactly when some validated page had an issue. */
  lemma ExitCodeByPages(table: seq<(string, seq<string>)>, pages: seq<(string, PageFile)>)
    requires Summarize(table, pages).Some?
    ensures ExitCode(Summarize(table, pages).value.reports) == 1 <==> Summarize(table, pages).value.withIssues > 0
  {
  }

  // ------------------------------------------------------------ selection

  /** `[lang_code] if lang_code else LANGUAGES`. */
  function LanguagesToRun(langCode: string, all: seq<string>): (r: seq<string>)
    ensures langCode != [] ==> r == [langCode]
    ensures langCode == [] ==> r == all
  {
    if langCode != [] then [langCode] else all
  }

  /** The walk's name filter: an `.html` name without "backup" in any case. */
  predicate WalkedPage(name: string)
  {
    EndsWith(name, ".html") && !Contains(Lower(name), "backup")
  }

  /** A name holding "backup" in any mix of letter cases is never walked, wherever the word sits. */
  lemma BackupSkipped(before: string, word: string, after: string)
    requires Lower(word) == "backup"
    ensures !WalkedPage(before + word + after)
  {
    LowerConcat(before + word, after);
    LowerConcat(before, word);
    ContainsMiddle(Lower(before), "backup", Lower(after));
  }
}

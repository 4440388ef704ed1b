/** The JSON:API serializer: a serializer class declares a type,
    attributes, relationships, meta and links; an instance renders one
    record, or a collection, as a JSON:API document whose `included` list
    holds every related record of a requested relationship once. */
module JsonApiSerializer {
  import opened Wrappers
  import opened Seqs
  import opened JsonApiValues
  import opened JsonApiParams
  import A = JsonApiAttribute
  import R = JsonApiRelationship

  /** What a serializer class declares. A map that was never assigned is
      None; the `allowed_fields` hook is optional. */
  datatype SerializerClass = SerializerClass(
    className: string,
    typeName: Option<string>,
    attributes: Option<seq<(string, A.Attribute)>>,
    relationships: Option<seq<(string, R.Relationship)>>,
    meta: Option<(Record, Context) -> Json>,
    links: Option<seq<(string, Record -> Json)>>,
    allowedFields: Option<(Record, Context) -> set<string>>)

  /** An instance: its class, its type, and the per-request options. */
  datatype Serializer = Serializer(
    cls: SerializerClass, typeName: string, ctx: Context,
    fields: map<string, seq<string>>, includeTree: IncludeTree)

  /** The constructor refuses a class without a type. */
  function NewSerializer(cls: SerializerClass, ctx: Context, fields: map<string, seq<string>>, includeTree: IncludeTree)
    : (r: Result<Serializer, JsonError>)
    ensures r.Ok? <==> cls.typeName.Some?
    ensures r.Err? ==> r.error == ArgumentError(cls.className + " does not have a type specified")
    ensures r.Ok? ==> r.value.cls == cls && r.value.typeName == cls.typeName.value
    ensures r.Ok? ==> r.value.fields == fields && r.value.includeTree == includeTree && r.value.ctx == ctx
  {
    if cls.typeName.None? then Err(ArgumentError(cls.className + " does not have a type specified"))
    else Ok(Serializer(cls, cls.typeName.value, ctx, fields, includeTree))
  }

  /** `fields[type].present?`: a non-empty fieldset was given for the type. */
  predicate SparseFieldset(s: Serializer) {
    s.typeName in s.fields && |s.fields[s.typeName]| > 0
  }

  /** A field survives filter_allowable_fields: it is in the type's
      fieldset when one is present, and in the `allowed_fields` answer when
      the class has that hook. */
  predicate Allowed(s: Serializer, record: Record, name: string) {
    (!SparseFieldset(s) || name in s.fields[s.typeName]) &&
    (s.cls.allowedFields.None? || name in s.cls.allowedFields.value(record, s.ctx))
  }

  /** filter_allowable_fields: the allowed entries, in declaration order. */
  function FilterAllowableFields<T(!new)>(s: Serializer, record: Record, fieldMap: seq<(string, T)>)
    : (r: seq<(string, T)>)
    ensures forall e :: e in r <==> e in fieldMap && Allowed(s, record, e.0)
    ensures multiset(r) <= multiset(fieldMap)
  {
    Filter(fieldMap, (e: (string, T)) => Allowed(s, record, e.0))
  }

  /** An empty fieldset is not `present?`, so it filters nothing: every
      declared field is rendered. */
  lemma EmptyFieldsetKeepsAll<T(!new)>(s: Serializer, record: Record, fieldMap: seq<(string, T)>)
    requires s.typeName in s.fields && s.fields[s.typeName] == [] && s.cls.allowedFields.None?
    ensures FilterAllowableFields(s, record, fieldMap) == fieldMap
  {
    FilterAll(fieldMap, (e: (string, T)) => Allowed(s, record, e.0));
  }

  /** A non-empty fieldset keeps exactly the declared fields it names. */
  lemma SparseFieldsetSelects<T(!new)>(s: Serializer, record: Record, fieldMap: seq<(string, T)>, name: string)
    requires SparseFieldset(s) && s.cls.allowedFields.None?
    ensures (exists e :: e in FilterAllowableFields(s, record, fieldMap) && e.0 == name) <==>
      (exists e :: e in fieldMap && e.0 == name) && name in s.fields[s.typeName]
  {
    if exists e :: e in fieldMap && e.0 == name {
      var e :| e in fieldMap && e.0 == name;
      if name in s.fields[s.typeName] {
        assert e in FilterAllowableFields(s, record, fieldMap);
      }
    }
  }

  /** An attribute is rendered when its condition is truthy. */
  predicate Shown(a: A.Attribute, record: Record, ctx: Context) {
    A.ShouldInclude(a, record, ctx) == Ok(true)
  }

  /** Rendering an attribute raises nothing: its condition evaluates, and so
      does its value when it is shown. */
  predicate AttributeOk(a: A.Attribute, record: Record, ctx: Context) {
    A.ShouldInclude(a, record, ctx).Ok? && (Shown(a, record, ctx) ==> A.ValueFor(a, record, ctx).Ok?)
  }

  /** The value an attribute renders to (nil where reading it raises). */
  function RenderedValue(a: A.Attribute, record: Record, ctx: Context): Json {
    match A.ValueFor(a, record, ctx)
    case Ok(v) => v
    case Err(_) => JNull
  }

  /** The each_with_object loop of serialize_attributes over the allowed
      attributes: the shown ones, each under its name with its value, in
      declaration order. */
  function AttributesOf(attrs: seq<(string, A.Attribute)>, record: Record, ctx: Context)
    : (r: Result<seq<(string, Json)>, JsonError>)
    ensures r.Ok? <==> forall i :: 0 <= i < |attrs| ==> AttributeOk(attrs[i].1, record, ctx)
    ensures r.Ok? ==>
      r.value == Map(Filter(attrs, (e: (string, A.Attribute)) => Shown(e.1, record, ctx)),
                     (e: (string, A.Attribute)) => (e.0, RenderedValue(e.1, record, ctx)))
    decreases |attrs|
  {
    if |attrs| == 0 then Ok([])
    else
      var init := attrs[..|attrs| - 1];
      var last := attrs[|attrs| - 1];
      assert attrs == init + [last];
      AttributesSnoc(init, last, record, ctx);
      var prefix :- AttributesOf(init, record, ctx);
      var shownNow :- A.ShouldInclude(last.1, record, ctx);
      if shownNow then
        var v :- A.ValueFor(last.1, record, ctx);
        Ok(prefix + [(last.0, v)])
      else Ok(prefix)
  }

  /** The rendered attributes of a sequence extended by one attribute. */
  lemma AttributesSnoc(init: seq<(string, A.Attribute)>, last: (string, A.Attribute), record: Record, ctx: Context)
    ensures var shown := (e: (string, A.Attribute)) => Shown(e.1, record, ctx);
      var render := (e: (string, A.Attribute)) => (e.0, RenderedValue(e.1, record, ctx));
      Map(Filter(init + [last], shown), render) ==
        Map(Filter(init, shown), render) + (if Shown(last.1, record, ctx) then [render(last)] else [])
  {
    var shown := (e: (string, A.Attribute)) => Shown(e.1, record, ctx);
    var render := (e: (string, A.Attribute)) => (e.0, RenderedValue(e.1, record, ctx));
    FilterSnoc(init, last, shown);
    MapSnoc(Filter(init, shown), last, render);
  }

  /** serialize_attributes. A class that never declared an attribute has no
      map, and the loop over nil raises. */
  function SerializeAttributes(s: Serializer, record: Record): (r: Result<seq<(string, Json)>, JsonError>)
    ensures s.cls.attributes.None? ==> r.Err?
    ensures s.cls.attributes.Some? ==> r == AttributesOf(FilterAllowableFields(s, record, s.cls.attributes.value), record, s.ctx)
  {
    match s.cls.attributes
    case None => Err(NoMethodError("undefined method 'each_with_object' for nil"))
    case Some(attrs) => AttributesOf(FilterAllowableFields(s, record, attrs), record, s.ctx)
  }

  /** Every related record of `rel` on `record` is in `inc` under its key. */
  ghost predicate IncludesRelated(rel: R.Relationship, record: Record, inc: R.Included) {
    R.FetchRelated(rel, record).Ok? &&
    R.EnumerableRelated(rel, R.FetchRelated(rel, record).value).Ok? &&
    forall o :: o in R.EnumerableRelated(rel, R.FetchRelated(rel, record).value).value ==>
      R.IncludeKey(rel, o) in R.IncludedKeys(inc)
  }

  /** `b` extends `a`: every entry of `a` is kept, in place. */
  ghost predicate Extends(a: R.Included, b: R.Included) {
    |a| <= |b| && b[..|a|] == a
  }

  lemma ExtendsTransitive(a: R.Included, b: R.Included, c: R.Included)
    requires Extends(a, b) && Extends(b, c)
    ensures Extends(a, c)
  {
    assert c[..|a|] == c[..|b|][..|a|];
  }

  /** Coverage survives extension. */
  lemma IncludesRelatedExtends(rel: R.Relationship, record: Record, a: R.Included, b: R.Included)
    requires IncludesRelated(rel, record, a) && Extends(a, b)
    ensures IncludesRelated(rel, record, b)
  {
    R.KeysOfPrefix(a, b);
  }

  /** One step of serialize_relationships_object: a relationship named at
      the top of the include tree adds its related records to `included`;
      any other gets nil and leaves `included` alone. */
  function RelationshipStep(s: Serializer, e: (string, R.Relationship), record: Record, inc: R.Included)
    : (r: Result<(Json, R.Included), JsonError>)
    ensures r.Ok? ==> Extends(inc, r.value.1)
    ensures r.Ok? && Child(s.includeTree, e.0).Some? ==>
      R.FetchRelated(e.1, record).Ok? && R.EnumerableRelated(e.1, R.FetchRelated(e.1, record).value).Ok? &&
      R.AddIncluded(e.1, inc, R.EnumerableRelated(e.1, R.FetchRelated(e.1, record).value).value) == Ok(r.value.1)
    ensures r.Ok? && Child(s.includeTree, e.0).None? ==> r.value.1 == inc
    ensures r.Ok? ==> r.value.0.JObj?
  {
    var target := if Child(s.includeTree, e.0).Some? then Some(inc) else None;
    var v :- R.ValueFor(e.1, record, target);
    if target.Some? then Ok((v.0, v.1.value)) else Ok((v.0, inc))
  }

  /** A step keeps included keys distinct and, for a requested
      relationship, adds every related record. */
  lemma StepIncluded(s: Serializer, e: (string, R.Relationship), record: Record, inc: R.Included)
    requires RelationshipStep(s, e, record, inc).Ok?
    ensures NoDuplicates(R.IncludedKeys(inc)) ==> NoDuplicates(R.IncludedKeys(RelationshipStep(s, e, record, inc).value.1))
    ensures Child(s.includeTree, e.0).Some? ==> IncludesRelated(e.1, record, RelationshipStep(s, e, record, inc).value.1)
  {
    if Child(s.includeTree, e.0).Some? {
      var objs := R.EnumerableRelated(e.1, R.FetchRelated(e.1, record).value).value;
      R.AddIncludedCovers(e.1, inc, objs);
      AddIncludedDistinct(e.1, inc, objs);
    }
  }

  lemma AddIncludedDistinct(rel: R.Relationship, inc: R.Included, objs: seq<Record>)
    ensures NoDuplicates(R.IncludedKeys(inc)) && R.AddIncluded(rel, inc, objs).Ok? ==>
      NoDuplicates(R.IncludedKeys(R.AddIncluded(rel, inc, objs).value))
  {
    if NoDuplicates(R.IncludedKeys(inc)) {
      R.AddIncludedKeys(rel, inc, objs);
    }
  }

  /** The loop of serialize_relationships_object: every allowed
      relationship is rendered, in order, and `included` is threaded
      through them. */
  function RelationshipsOf(s: Serializer, rels: seq<(string, R.Relationship)>, record: Record, inc: R.Included)
    : (r: Result<(seq<(string, Json)>, R.Included), JsonError>)
    ensures r.Ok? ==> |r.value.0| == |rels| && forall i :: 0 <= i < |rels| ==> r.value.0[i].0 == rels[i].0
    ensures r.Ok? ==> Extends(inc, r.value.1)
    ensures r.Ok? && s.includeTree.children == [] ==> r.value.1 == inc
    decreases |rels|
  {
    if |rels| == 0 then Ok(([], inc))
    else
      var init := rels[..|rels| - 1];
      var last := rels[|rels| - 1];
      var prefix :- RelationshipsOf(s, init, record, inc);
      var step :- RelationshipStep(s, last, record, prefix.1);
      var ms := prefix.0 + [(last.0, step.0)];
      NamesSnoc(rels, prefix.0, step.0);
      ExtendsTransitive(inc, prefix.1, step.1);
      Ok((ms, step.1))
  }

  /** The member names follow the relationships' names through one more step. */
  lemma NamesSnoc(rels: seq<(string, R.Relationship)>, names: seq<(string, Json)>, v: Json)
    requires |rels| > 0 && |names| == |rels| - 1
    requires forall i :: 0 <= i < |names| ==> names[i].0 == rels[..|rels| - 1][i].0
    ensures var ms := names + [(rels[|rels| - 1].0, v)];
      |ms| == |rels| && forall i :: 0 <= i < |rels| ==> ms[i].0 == rels[i].0
  {
    var ms := names + [(rels[|rels| - 1].0, v)];
    forall i | 0 <= i < |rels|
      ensures ms[i].0 == rels[i].0
    {
      if i < |names| {
        assert ms[i] == names[i];
        assert rels[..|rels| - 1][i] == rels[i];
      }
    }
  }

  /** Included keys stay distinct through the loop. */
  lemma {:induction false} RelationshipsDistinct(s: Serializer, rels: seq<(string, R.Relationship)>, record: Record, inc: R.Included)
    requires RelationshipsOf(s, rels, record, inc).Ok? && NoDuplicates(R.IncludedKeys(inc))
    ensures NoDuplicates(R.IncludedKeys(RelationshipsOf(s, rels, record, inc).value.1))
    decreases |rels|
  {
    if |rels| > 0 {
      RelationshipsSnoc(s, rels, record, inc);
      RelationshipsDistinct(s, rels[..|rels| - 1], record, inc);
      StepIncluded(s, rels[|rels| - 1], record, RelationshipsOf(s, rels[..|rels| - 1], record, inc).value.1);
    }
  }

  /** One more relationship: the loop's `included` is the last step's. */
  lemma RelationshipsSnoc(s: Serializer, rels: seq<(string, R.Relationship)>, record: Record, inc: R.Included)
    requires |rels| > 0 && RelationshipsOf(s, rels, record, inc).Ok?
    ensures var init := RelationshipsOf(s, rels[..|rels| - 1], record, inc);
      && init.Ok?
      && RelationshipStep(s, rels[|rels| - 1], record, init.value.1).Ok?
      && RelationshipsOf(s, rels, record, inc).value.1 == RelationshipStep(s, rels[|rels| - 1], record, init.value.1).value.1
  {
  }

  /** After the loop, `included` holds every related record of every
      relationship named at the top of the include tree. */
  lemma RelationshipsCover(s: Serializer, rels: seq<(string, R.Relationship)>, record: Record, inc: R.Included)
    requires RelationshipsOf(s, rels, record, inc).Ok?
    ensures forall i :: 0 <= i < |rels| && Child(s.includeTree, rels[i].0).Some? ==>
      IncludesRelated(rels[i].1, record, RelationshipsOf(s, rels, record, inc).value.1)
  {
    forall i | 0 <= i < |rels| && Child(s.includeTree, rels[i].0).Some?
      ensures IncludesRelated(rels[i].1, record, RelationshipsOf(s, rels, record, inc).value.1)
    {
      RelationshipCoverAt(s, rels, record, inc, i);
    }
  }

  lemma {:induction false} RelationshipCoverAt(s: Serializer, rels: seq<(string, R.Relationship)>, record: Record, inc: R.Included, i: nat)
    requires RelationshipsOf(s, rels, record, inc).Ok?
    requires i < |rels| && Child(s.includeTree, rels[i].0).Some?
    ensures IncludesRelated(rels[i].1, record, RelationshipsOf(s, rels, record, inc).value.1)
    decreases |rels|
  {
    if i == |rels| - 1 {
      RelationshipCoverLast(s, rels, record, inc);
    } else {
      var init := rels[..|rels| - 1];
      RelationshipsSnoc(s, rels, record, inc);
      var mid := RelationshipsOf(s, init, record, inc).value.1;
      var out := RelationshipStep(s, rels[|rels| - 1], record, mid).value.1;
      assert rels[i] == init[i];
      RelationshipCoverAt(s, init, record, inc, i);
      IncludesRelatedExtends(rels[i].1, record, mid, out);
    }
  }

  /** The last relationship of the loop, when requested, is covered by the
      step that handles it. */
  lemma RelationshipCoverLast(s: Serializer, rels: seq<(string, R.Relationship)>, record: Record, inc: R.Included)
    requires RelationshipsOf(s, rels, record, inc).Ok?
    requires |rels| > 0 && Child(s.includeTree, rels[|rels| - 1].0).Some?
    ensures IncludesRelated(rels[|rels| - 1].1, record, RelationshipsOf(s, rels, record, inc).value.1)
  {
    RelationshipsSnoc(s, rels, record, inc);
    var mid := RelationshipsOf(s, rels[..|rels| - 1], record, inc).value.1;
    StepIncluded(s, rels[|rels| - 1], record, mid);
  }

  /** `_relationships_map.present?` and `_links_map.present?`. */
  predicate HasRelationships(c: SerializerClass) {
    c.relationships.Some? && |c.relationships.value| > 0
  }

  predicate HasLinks(c: SerializerClass) {
    c.links.Some? && |c.links.value| > 0
  }

  /** The resource object: type, id (as a string) and attributes, then
      relationships, meta and links when the class declares them. */
  function ResourceObject(typeName: string, id: Option<int>, attributes: seq<(string, Json)>,
                          relationships: Option<Json>, meta: Option<Json>, links: Option<Json>): (j: Json)
    ensures j.JObj? && |j.members| >= 3
    ensures j.members[0] == ("type", JStr(typeName))
    ensures j.members[1] == ("id", JStr(IdToS(id)))
    ensures j.members[2] == ("attributes", JObj(attributes))
    ensures Member(j, "relationships") == relationships
    ensures Member(j, "meta") == meta && Member(j, "links") == links
  {
    var head := [("type", JStr(typeName)), ("id", JStr(IdToS(id))), ("attributes", JObj(attributes))];
    var r := Opt("relationships", relationships);
    var m := Opt("meta", meta);
    var l := Opt("links", links);
    assert MemberOf(head, "relationships") == None && MemberOf(head, "meta") == None && MemberOf(head, "links") == None by {
      assert head[1..][1..][1..] == [];
    }
    MemberOfAppend(head, r + (m + l), "relationships");
    MemberOfAppend(r, m + l, "relationships");
    MemberOfAppend(m, l, "relationships");
    MemberOfAppend(head, r + (m + l), "meta");
    MemberOfAppend(r, m + l, "meta");
    MemberOfAppend(m, l, "meta");
    MemberOfAppend(head, r + (m + l), "links");
    MemberOfAppend(r, m + l, "links");
    MemberOfAppend(m, l, "links");
    JObj(head + (r + (m + l)))
  }

  /** The `relationships` member and the `included` list after it: present
      only when the class declares relationships. */
  function RelationshipsPart(s: Serializer, record: Record, inc: R.Included)
    : (r: Result<(Option<Json>, R.Included), JsonError>)
    ensures r.Ok? ==> (r.value.0.Some? <==> HasRelationships(s.cls))
    ensures r.Ok? ==> Extends(inc, r.value.1)
    ensures r.Ok? && s.includeTree.children == [] ==> r.value.1 == inc
    ensures !HasRelationships(s.cls) ==> r == Ok((None, inc))
    ensures HasRelationships(s.cls) ==>
      var rr := RelationshipsOf(s, FilterAllowableFields(s, record, s.cls.relationships.value), record, inc);
      (r.Ok? <==> rr.Ok?) && (r.Ok? ==> r.value == (Some(JObj(rr.value.0)), rr.value.1))
  {
    if HasRelationships(s.cls) then
      var rr :- RelationshipsOf(s, FilterAllowableFields(s, record, s.cls.relationships.value), record, inc);
      Ok((Some(JObj(rr.0)), rr.1))
    else Ok((None, inc))
  }

  /** serialize_data_object for one record, threading `included`. */
  function SerializeDataObject(s: Serializer, record: Record, inc: R.Included)
    : (r: Result<(Json, R.Included), JsonError>)
    ensures r.Ok? <==> SerializeAttributes(s, record).Ok? && RelationshipsPart(s, record, inc).Ok?
    ensures r.Ok? ==> var j := r.value.0;
      && j.JObj? && |j.members| >= 3
      && j.members[0] == ("type", JStr(s.typeName))
      && j.members[1] == ("id", JStr(IdToS(record.id)))
      && j.members[2] == ("attributes", JObj(SerializeAttributes(s, record).value))
      && (Member(j, "relationships").Some? <==> HasRelationships(s.cls))
      && (Member(j, "meta").Some? <==> s.cls.meta.Some?)
      && (Member(j, "links").Some? <==> HasLinks(s.cls))
    ensures r.Ok? ==> r.value.1 == RelationshipsPart(s, record, inc).value.1
  {
    var attrs :- SerializeAttributes(s, record);
    var rels :- RelationshipsPart(s, record, inc);
    var meta := if s.cls.meta.Some? then Some(s.cls.meta.value(record, s.ctx)) else None;
    var links := if HasLinks(s.cls) then Some(JObj(Map(s.cls.links.value, (l: (string, Record -> Json)) => (l.0, l.1(record))))) else None;
    Ok((ResourceObject(s.typeName, record.id, attrs, rels.0, meta, links), rels.1))
  }

  /** Serializing one record keeps included keys distinct and adds every
      related record of each requested relationship. */
  lemma DataObjectIncluded(s: Serializer, record: Record, inc: R.Included)
    requires SerializeDataObject(s, record, inc).Ok?
    ensures var out := SerializeDataObject(s, record, inc).value.1;
      && Extends(inc, out)
      && (NoDuplicates(R.IncludedKeys(inc)) ==> NoDuplicates(R.IncludedKeys(out)))
      && (s.includeTree.children == [] ==> out == inc)
      && CoversRecord(s, record, out)
  {
    var out := SerializeDataObject(s, record, inc).value.1;
    assert out == RelationshipsPart(s, record, inc).value.1;
    if HasRelationships(s.cls) {
      var rels := FilterAllowableFields(s, record, s.cls.relationships.value);
      assert out == RelationshipsOf(s, rels, record, inc).value.1;
      RelationshipsCover(s, rels, record, inc);
      if NoDuplicates(R.IncludedKeys(inc)) {
        RelationshipsDistinct(s, rels, record, inc);
      }
      forall e | e in rels && Child(s.includeTree, e.0).Some?
        ensures IncludesRelated(e.1, record, RelationshipsOf(s, rels, record, inc).value.1)
      {
        var i :| 0 <= i < |rels| && rels[i] == e;
      }
    }
  }

  /** `j` is a resource object of the serializer's type for `record`. */
  predicate Identifies(s: Serializer, record: Record, j: Json) {
    j.JObj? && |j.members| >= 2 &&
    j.members[0] == ("type", JStr(s.typeName)) && j.members[1] == ("id", JStr(IdToS(record.id)))
  }

  /** The `object.map` of a collection, threading `included` from one
      record to the next. */
  function DataObjects(s: Serializer, records: seq<Record>, inc: R.Included)
    : (r: Result<(seq<Json>, R.Included), JsonError>)
    ensures r.Ok? ==> |r.value.0| == |records|
    ensures r.Ok? ==> Extends(inc, r.value.1)
    ensures r.Ok? && s.includeTree.children == [] ==> r.value.1 == inc
    decreases |records|
  {
    if |records| == 0 then Ok(([], inc))
    else
      var init := records[..|records| - 1];
      var prefix :- DataObjects(s, init, inc);
      var last :- SerializeDataObject(s, records[|records| - 1], prefix.1);
      ExtendsTransitive(inc, prefix.1, last.1);
      var items := prefix.0 + [last.0];
      Ok((items, last.1))
  }

  /** A collection renders one resource object per record, in order. */
  lemma {:induction false} DataObjectsIdentify(s: Serializer, records: seq<Record>, inc: R.Included)
    requires DataObjects(s, records, inc).Ok?
    ensures forall i :: 0 <= i < |records| ==> Identifies(s, records[i], DataObjects(s, records, inc).value.0[i])
    decreases |records|
  {
    if |records| > 0 {
      var init := records[..|records| - 1];
      DataObjectsSnoc(s, records, inc);
      DataObjectsIdentify(s, init, inc);
      var prefix := DataObjects(s, init, inc).value;
      var last := SerializeDataObject(s, records[|records| - 1], prefix.1).value;
      assert DataObjects(s, records, inc).value.0 == prefix.0 + [last.0];
      IdentifySnoc(s, records, prefix.0, last.0);
    }
  }

  lemma IdentifySnoc(s: Serializer, records: seq<Record>, items: seq<Json>, j: Json)
    requires |records| > 0 && |items| == |records| - 1
    requires forall i :: 0 <= i < |items| ==> Identifies(s, records[..|records| - 1][i], items[i])
    requires Identifies(s, records[|records| - 1], j)
    ensures forall i :: 0 <= i < |records| ==> Identifies(s, records[i], (items + [j])[i])
  {
    forall i | 0 <= i < |records|
      ensures Identifies(s, records[i], (items + [j])[i])
    {
      if i < |items| {
        assert records[..|records| - 1][i] == records[i];
      }
    }
  }

  /** Every record of a requested relationship is under its key. */
  ghost predicate CoversRecord(s: Serializer, record: Record, inc: R.Included) {
    HasRelationships(s.cls) ==>
      forall e :: (e in FilterAllowableFields(s, record, s.cls.relationships.value) &&
        Child(s.includeTree, e.0).Some?) ==> IncludesRelated(e.1, record, inc)
  }

  lemma CoversRecordExtends(s: Serializer, record: Record, a: R.Included, b: R.Included)
    requires CoversRecord(s, record, a) && Extends(a, b)
    ensures CoversRecord(s, record, b)
  {
    if HasRelationships(s.cls) {
      forall e | e in FilterAllowableFields(s, record, s.cls.relationships.value) && Child(s.includeTree, e.0).Some?
        ensures IncludesRelated(e.1, record, b)
      {
        IncludesRelatedExtends(e.1, record, a, b);
      }
    }
  }

  /** One more record: the collection's `included` is that record's. */
  lemma DataObjectsSnoc(s: Serializer, records: seq<Record>, inc: R.Included)
    requires |records| > 0 && DataObjects(s, records, inc).Ok?
    ensures var init := DataObjects(s, records[..|records| - 1], inc);
      && init.Ok?
      && SerializeDataObject(s, records[|records| - 1], init.value.1).Ok?
      && DataObjects(s, records, inc).value.1 == SerializeDataObject(s, records[|records| - 1], init.value.1).value.1
  {
  }

  /** Serializing a collection keeps included keys distinct. */
  lemma {:induction false} DataObjectsDistinct(s: Serializer, records: seq<Record>, inc: R.Included)
    requires DataObjects(s, records, inc).Ok? && NoDuplicates(R.IncludedKeys(inc))
    ensures NoDuplicates(R.IncludedKeys(DataObjects(s, records, inc).value.1))
    decreases |records|
  {
    if |records| > 0 {
      DataObjectsSnoc(s, records, inc);
      var init := records[..|records| - 1];
      DataObjectsDistinct(s, init, inc);
      DataObjectIncluded(s, records[|records| - 1], DataObjects(s, init, inc).value.1);
    }
  }

  /** Serializing a collection covers the requested relationships of every
      record in it. */
  lemma {:induction false} DataObjectsCoverAt(s: Serializer, records: seq<Record>, inc: R.Included, k: nat)
    requires DataObjects(s, records, inc).Ok? && k < |records|
    ensures CoversRecord(s, records[k], DataObjects(s, records, inc).value.1)
    decreases |records|
  {
    DataObjectsSnoc(s, records, inc);
    var init := records[..|records| - 1];
    var mid := DataObjects(s, init, inc).value.1;
    var out := SerializeDataObject(s, records[|records| - 1], mid).value.1;
    DataObjectIncluded(s, records[|records| - 1], mid);
    if k < |init| {
      assert records[k] == init[k];
      DataObjectsCoverAt(s, init, inc, k);
      CoversRecordExtends(s, init[k], mid, out);
      assert CoversRecord(s, records[k], out);
    } else {
      assert k == |records| - 1;
      assert CoversRecord(s, records[k], out);
    }
    assert DataObjects(s, records, inc).value.1 == out;
  }

  /** The primary data and the final `included` list: one resource object,
      or an array of them for a collection. A collection passed as a single
      object, or the reverse, raises. */
  function PrimaryData(s: Serializer, isCollection: bool, subject: Related, inc: R.Included)
    : (r: Result<(Json, R.Included), JsonError>)
    requires subject != RNil
    ensures r.Ok? <==>
      (isCollection && subject.RMany? && DataObjects(s, subject.many, inc).Ok?) ||
      (!isCollection && subject.ROne? && SerializeDataObject(s, subject.one, inc).Ok?)
    ensures r.Ok? && isCollection ==> r.value.0.JArr? && |r.value.0.items| == |subject.many|
    ensures r.Ok? && isCollection ==> r.value == (JArr(DataObjects(s, subject.many, inc).value.0), DataObjects(s, subject.many, inc).value.1)
    ensures r.Ok? && !isCollection ==> r.value == SerializeDataObject(s, subject.one, inc).value
    ensures r.Ok? ==> Extends(inc, r.value.1)
    ensures r.Ok? && s.includeTree.children == [] ==> r.value.1 == inc
  {
    match subject
    case RMany(records) =>
      if isCollection then
        var d :- DataObjects(s, records, inc);
        Ok((JArr(d.0), d.1))
      else Err(NoMethodError("undefined method 'id'"))
    case ROne(record) =>
      if isCollection then Err(NoMethodError("undefined method 'map'"))
      else SerializeDataObject(s, record, inc)
  }

  /** The `included` member: the collected records when there are any,
      otherwise an empty list when inclusion was requested, otherwise
      nothing. */
  function IncludedMember(s: Serializer, inc: R.Included): (r: Option<Json>)
    ensures r.Some? <==> |inc| > 0 || |s.includeTree.children| > 0
    ensures r.Some? ==> r.value.JArr? && |r.value.items| == |inc|
    ensures r.Some? ==> forall i :: 0 <= i < |inc| ==> r.value.items[i] == inc[i].1
  {
    if |inc| > 0 then Some(JArr(Map(inc, (e: (string, Json)) => e.1)))
    else if |s.includeTree.children| > 0 then Some(JArr([]))
    else None
  }

  /** The top-level members of a document, in order: data, then included,
      meta and links when present. */
  function TopLevel(data: Json, included: Option<Json>, meta: Option<Json>, links: Option<Json>)
    : (ms: seq<(string, Json)>)
    ensures |ms| >= 1 && ms[0] == ("data", data)
    ensures MemberOf(ms, "included") == included
    ensures MemberOf(ms, "meta") == meta
    ensures MemberOf(ms, "links") == links
  {
    var head := [("data", data)];
    var i := Opt("included", included);
    var m := Opt("meta", meta);
    var l := Opt("links", links);
    MemberOfAppend(head, i + (m + l), "included");
    MemberOfAppend(i, m + l, "included");
    MemberOfAppend(m, l, "included");
    MemberOfAppend(head, i + (m + l), "meta");
    MemberOfAppend(i, m + l, "meta");
    MemberOfAppend(m, l, "meta");
    MemberOfAppend(head, i + (m + l), "links");
    MemberOfAppend(i, m + l, "links");
    MemberOfAppend(m, l, "links");
    head + (i + (m + l))
  }

  /** A document-level option counts only when it is given and truthy. */
  function IfTruthy(v: Option<Json>): (r: Option<Json>)
    ensures r.Some? <==> v.Some? && Truthy(v.value)
    ensures r.Some? ==> r == v
  {
    if v.Some? && Truthy(v.value) then v else None
  }

  /** serialize: a nil object gives only `data` (an empty array for a
      collection, null otherwise); otherwise data, included, meta and links
      in that order, `included` only when present and meta and links only
      when truthy. */
  function Serialize(s: Serializer, isCollection: bool, subject: Related, inc: R.Included,
                     links: Option<Json>, meta: Option<Json>): (r: Result<Json, JsonError>)
    ensures subject == RNil ==> r.Ok? && r.value.JObj? && |r.value.members| == 1
    ensures subject == RNil ==> Member(r.value, "data") == Some(if isCollection then JArr([]) else JNull)
    ensures subject != RNil ==> (r.Ok? <==> PrimaryData(s, isCollection, subject, inc).Ok?)
    ensures subject != RNil && r.Ok? ==>
      var d := PrimaryData(s, isCollection, subject, inc).value;
      && r.value.JObj? && |r.value.members| >= 1 && r.value.members[0] == ("data", d.0)
      && Member(r.value, "included") == IncludedMember(s, d.1)
      && (Member(r.value, "meta").Some? <==> meta.Some? && Truthy(meta.value))
      && (Member(r.value, "links").Some? <==> links.Some? && Truthy(links.value))
      && (Member(r.value, "meta").Some? ==> Member(r.value, "meta") == meta)
      && (Member(r.value, "links").Some? ==> Member(r.value, "links") == links)
  {
    if subject == RNil then Ok(JObj([("data", if isCollection then JArr([]) else JNull)]))
    else
      var d :- PrimaryData(s, isCollection, subject, inc);
      Ok(JObj(TopLevel(d.0, IncludedMember(s, d.1), IfTruthy(meta), IfTruthy(links))))
  }

  /** Document-level `meta: false` and `links: nil` render no member, while
      any truthy value is rendered as given. */
  lemma FalsyTopLevelOmitted(s: Serializer, isCollection: bool, subject: Related, inc: R.Included, j: Json)
    requires subject != RNil && PrimaryData(s, isCollection, subject, inc).Ok?
    ensures var r := Serialize(s, isCollection, subject, inc, Some(JNull), Some(JBool(false)));
      r.Ok? && Member(r.value, "meta").None? && Member(r.value, "links").None?
    ensures var r := Serialize(s, isCollection, subject, inc, Some(j), Some(j));
      r.Ok? && (Truthy(j) <==> Member(r.value, "meta") == Some(j)) && (Truthy(j) <==> Member(r.value, "links") == Some(j))
  {
  }

  /** Without an include request and without records handed in, a
      document has no `included` member. */
  lemma NoIncludeNoIncluded(s: Serializer, isCollection: bool, subject: Related, links: Option<Json>, meta: Option<Json>)
    requires s.includeTree.children == []
    requires Serialize(s, isCollection, subject, [], links, meta).Ok?
    ensures Member(Serialize(s, isCollection, subject, [], links, meta).value, "included") == None
  {
  }

  /** An include request always yields an `included` member, even when no
      related record was found. */
  lemma IncludeRequestedGivesIncluded(s: Serializer, isCollection: bool, subject: Related, links: Option<Json>, meta: Option<Json>)
    requires |s.includeTree.children| > 0 && subject != RNil
    requires Serialize(s, isCollection, subject, [], links, meta).Ok?
    ensures Member(Serialize(s, isCollection, subject, [], links, meta).value, "included").Some?
  {
  }

  /** The compound document lists each included record once, and every
      related record of each requested relationship of every serialized
      record is among them. */
  lemma CompoundDocument(s: Serializer, isCollection: bool, subject: Related)
    requires subject != RNil && PrimaryData(s, isCollection, subject, []).Ok?
    ensures NoDuplicates(R.IncludedKeys(PrimaryData(s, isCollection, subject, []).value.1))
    ensures subject.ROne? ==> CoversRecord(s, subject.one, PrimaryData(s, isCollection, subject, []).value.1)
    ensures subject.RMany? ==> forall k :: 0 <= k < |subject.many| ==>
      CoversRecord(s, subject.many[k], PrimaryData(s, isCollection, subject, []).value.1)
  {
    assert R.IncludedKeys([]) == [];
    if isCollection {
      DataObjectsDistinct(s, subject.many, []);
      forall k | 0 <= k < |subject.many|
        ensures CoversRecord(s, subject.many[k], DataObjects(s, subject.many, []).value.1)
      {
        DataObjectsCoverAt(s, subject.many, [], k);
      }
    } else {
      DataObjectIncluded(s, subject.one, []);
    }
  }
}

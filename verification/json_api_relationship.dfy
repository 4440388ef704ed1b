/** A serializer relationship: constructor validation, the resource
    identifiers it renders, and the records it adds to the compound
    document's `included` list, each once. */
module JsonApiRelationship {
  import opened Wrappers
  import opened Seqs
  import opened JsonApiValues

  datatype RelType = HasOne | HasMany | BelongsTo

  /** The related serializer class, as far as a relationship uses it: its
      name, its type, and what serializing one related record as a data
      object gives, which may itself raise. */
  datatype SerializerRef = SerializerRef(className: string, typeName: Option<string>, dataObject: Record -> Result<Json, JsonError>)

  /** The `:data` option: absent (read the association), `false` (no data),
      or a callable computing the related value. */
  datatype DataOption = DataDefault | DataFalse | DataFn(f: Record -> Related)

  /** One value of the `:links` option: a callable of the record and its
      related value, a symbol naming a reader of the record, or a literal. */
  datatype LinkValue = LinkCall(f: (Record, Related) -> Json) | LinkSymbol(sym: string) | LinkLiteral(j: Json)

  /** The `:meta` option: a callable of the record and its related value,
      or a literal. */
  datatype MetaValue = MetaCall(f: (Record, Related) -> Json) | MetaLiteral(j: Json)

  datatype RelOptions = RelOptions(
    serializer: Option<SerializerRef>, data: DataOption,
    links: Option<seq<(string, LinkValue)>>, meta: Option<MetaValue>)

  datatype Relationship = Relationship(name: string, relType: RelType, serializer: SerializerRef, options: RelOptions)

  /** The symbol names of the three valid relationship types. */
  function RelTypeOfName(t: string): (r: Option<RelType>)
    ensures r.Some? <==> t in {"has_one", "has_many", "belongs_to"}
  {
    if t == "has_one" then Some(HasOne)
    else if t == "has_many" then Some(HasMany)
    else if t == "belongs_to" then Some(BelongsTo)
    else None
  }

  /** The constructor: an invalid type raises first, then a missing
      serializer raises. */
  function NewRelationship(name: string, typeName: string, options: RelOptions): (r: Result<Relationship, JsonError>)
    ensures r.Ok? <==> typeName in {"has_one", "has_many", "belongs_to"} && options.serializer.Some?
    ensures typeName !in {"has_one", "has_many", "belongs_to"} ==> r == Err(ArgumentError("Invalid type"))
    ensures typeName in {"has_one", "has_many", "belongs_to"} && options.serializer.None? ==>
      r == Err(ArgumentError("Must specify serializer"))
    ensures r.Ok? ==> r.value.name == name && r.value.serializer == options.serializer.value
  {
    match RelTypeOfName(typeName)
    case None => Err(ArgumentError("Invalid type"))
    case Some(t) =>
      if options.serializer.None? then Err(ArgumentError("Must specify serializer"))
      else Ok(Relationship(name, t, options.serializer.value, options))
  }

  /** belongs_to and has_one relate one record; has_many relates many. */
  predicate IsOne(rel: Relationship) {
    rel.relType == BelongsTo || rel.relType == HasOne
  }

  /** fetch_related: `data: false` gives nil, a callable is called, and
      otherwise the record's association reader is used. */
  function FetchRelated(rel: Relationship, record: Record): (r: Result<Related, JsonError>)
    ensures rel.options.data == DataFalse ==> r == Ok(RNil)
    ensures rel.options.data == DataDefault ==> (r.Ok? <==> rel.name in record.related)
  {
    match rel.options.data
    case DataFalse => Ok(RNil)
    case DataFn(f) => Ok(f(record))
    case DataDefault =>
      if rel.name in record.related then Ok(record.related[rel.name])
      else Err(NoMethodError("undefined method '" + rel.name + "'"))
  }

  /** The type symbol as text; nil.to_s is empty. */
  function TypeToS(t: Option<string>): string {
    if t.Some? then t.value else ""
  }

  /** record_identifier: the record's id as it is (an integer, not a string)
      and the related serializer's type. */
  function Identifier(rel: Relationship, obj: Record): (j: Json)
    ensures Member(j, "id") == Some(if obj.id.Some? then JInt(obj.id.value) else JNull)
    ensures Member(j, "type") == Some(if rel.serializer.typeName.Some? then JStr(rel.serializer.typeName.value) else JNull)
  {
    var ms := [("id", if obj.id.Some? then JInt(obj.id.value) else JNull),
               ("type", if rel.serializer.typeName.Some? then JStr(rel.serializer.typeName.value) else JNull)];
    assert ms[1..] == [ms[1]];
    JObj(ms)
  }

  /** serialize_data: nothing for a nil related value; one identifier for a
      to-one relationship; the identifiers in related order for to-many.
      A value of the wrong shape has no `id` (or no `map`) and raises. */
  function SerializeData(rel: Relationship, related: Related): (r: Result<Option<Json>, JsonError>)
    ensures related == RNil ==> r == Ok(None)
    ensures IsOne(rel) && related.ROne? ==> r == Ok(Some(Identifier(rel, related.one)))
    ensures !IsOne(rel) && related.RMany? ==>
      r.Ok? && r.value.Some? && r.value.value.JArr? &&
      |r.value.value.items| == |related.many| &&
      forall i :: 0 <= i < |related.many| ==> r.value.value.items[i] == Identifier(rel, related.many[i])
  {
    match related
    case RNil => Ok(None)
    case ROne(obj) =>
      if IsOne(rel) then Ok(Some(Identifier(rel, obj)))
      else Err(NoMethodError("undefined method 'map'"))
    case RMany(objs) =>
      if IsOne(rel) then Err(NoMethodError("undefined method 'id'"))
      else Ok(Some(JArr(Map(objs, (o: Record) => Identifier(rel, o)))))
  }

  /** The compound document's included records, keyed "type-id", in
      insertion order. */
  type Included = seq<(string, Json)>

  function IncludedKeys(inc: Included): seq<string> {
    Map(inc, (e: (string, Json)) => e.0)
  }

  /** The key under which a related record is included. */
  function IncludeKey(rel: Relationship, obj: Record): string {
    TypeToS(rel.serializer.typeName) + "-" + IdToS(obj.id)
  }

  /** The constructor's complaint about a related class without a type. */
  function TypelessError(ser: SerializerRef): JsonError {
    ArgumentError(ser.className + " does not have a type specified")
  }

  /** Constructing the related serializer for one record and asking it for
      its data object: a class without a type raises in the constructor,
      before anything is serialized. */
  function RelatedDataObject(ser: SerializerRef, obj: Record): Result<Json, JsonError> {
    if ser.typeName.None? then Err(TypelessError(ser)) else ser.dataObject(obj)
  }

  /** The loop of value_for over the related records: a record whose key is
      already present is skipped; otherwise its data object is appended, and
      the first record that cannot be serialized raises. A related class
      without a type raises as soon as one record has to be added. */
  function AddIncluded(rel: Relationship, inc: Included, objs: seq<Record>): (r: Result<Included, JsonError>)
    ensures r.Ok? ==> |inc| <= |r.value| && r.value[..|inc|] == inc
    ensures rel.serializer.typeName.None? ==>
      (r.Ok? <==> forall o :: o in objs ==> IncludeKey(rel, o) in IncludedKeys(inc))
    ensures rel.serializer.typeName.None? && r.Ok? ==> r.value == inc
    ensures rel.serializer.typeName.None? && r.Err? ==> r.error == TypelessError(rel.serializer)
    decreases |objs|
  {
    if |objs| == 0 then Ok(inc)
    else
      var init := objs[..|objs| - 1];
      var obj := objs[|objs| - 1];
      assert forall o :: o in objs <==> o in init || o == obj;
      var before :- AddIncluded(rel, inc, init);
      var key := IncludeKey(rel, obj);
      if key in IncludedKeys(before) then Ok(before)
      else
        var j :- RelatedDataObject(rel.serializer, obj);
        var r := before + [(key, j)];
        assert r[..|inc|] == before[..|inc|];
        Ok(r)
  }

  /** The `k`th related record is one the loop serializes: its key is
      neither in `inc` nor the key of an earlier related record. */
  predicate AddsAt(rel: Relationship, inc: Included, objs: seq<Record>, k: nat)
    requires k < |objs|
  {
    IncludeKey(rel, objs[k]) !in IncludedKeys(inc) &&
    forall j :: 0 <= j < k ==> IncludeKey(rel, objs[j]) != IncludeKey(rel, objs[k])
  }

  /** Every related record the loop has to add can be serialized. */
  predicate AllAddedSerialize(rel: Relationship, inc: Included, objs: seq<Record>) {
    forall k :: 0 <= k < |objs| && AddsAt(rel, inc, objs, k) ==> RelatedDataObject(rel.serializer, objs[k]).Ok?
  }

  /** The loop succeeds iff every record it has to add serializes. */
  lemma {:induction false} AddIncludedOk(rel: Relationship, inc: Included, objs: seq<Record>)
    ensures AddIncluded(rel, inc, objs).Ok? <==> AllAddedSerialize(rel, inc, objs)
    decreases |objs|
  {
    if |objs| > 0 {
      var init := objs[..|objs| - 1];
      AddIncludedOk(rel, inc, init);
      AllAddedSerializeSnoc(rel, inc, objs);
      if AddIncluded(rel, inc, init).Ok? {
        AddIncludedLastAdds(rel, inc, objs);
      }
    }
  }

  /** When the loop raises, it raises the error of the first record it has
      to add that cannot be serialized. */
  lemma {:induction false} AddIncludedError(rel: Relationship, inc: Included, objs: seq<Record>)
    requires AddIncluded(rel, inc, objs).Err?
    ensures exists k :: (0 <= k < |objs| && AddsAt(rel, inc, objs, k)
      && RelatedDataObject(rel.serializer, objs[k]) == Err(AddIncluded(rel, inc, objs).error)
      && AllAddedSerialize(rel, inc, objs[..k]))
    decreases |objs|
  {
    var n := |objs|;
    var init := objs[..n - 1];
    if AddIncluded(rel, inc, init).Ok? {
      AddIncludedLastAdds(rel, inc, objs);
      AddIncludedOk(rel, inc, init);
      assert objs[..n - 1] == init;
    } else {
      AddIncludedError(rel, inc, init);
      var k :| 0 <= k < n - 1 && AddsAt(rel, inc, init, k)
        && RelatedDataObject(rel.serializer, init[k]) == Err(AddIncluded(rel, inc, init).error)
        && AllAddedSerialize(rel, inc, init[..k]);
      AddsAtInit(rel, inc, objs, k);
      assert objs[..k] == init[..k];
    }
  }

  /** Adding a record at the end does not change which earlier records are
      added. */
  lemma AddsAtInit(rel: Relationship, inc: Included, objs: seq<Record>, k: nat)
    requires k < |objs| - 1
    ensures objs[k] == objs[..|objs| - 1][k]
    ensures AddsAt(rel, inc, objs, k) <==> AddsAt(rel, inc, objs[..|objs| - 1], k)
  {
    var init := objs[..|objs| - 1];
    assert forall j :: 0 <= j <= k ==> objs[j] == init[j];
  }

  lemma AllAddedSerializeSnoc(rel: Relationship, inc: Included, objs: seq<Record>)
    requires |objs| > 0
    ensures AllAddedSerialize(rel, inc, objs) <==>
      AllAddedSerialize(rel, inc, objs[..|objs| - 1]) &&
      (AddsAt(rel, inc, objs, |objs| - 1) ==> RelatedDataObject(rel.serializer, objs[|objs| - 1]).Ok?)
  {
    forall k | 0 <= k < |objs| - 1
      ensures objs[k] == objs[..|objs| - 1][k]
      ensures AddsAt(rel, inc, objs, k) <==> AddsAt(rel, inc, objs[..|objs| - 1], k)
    {
      AddsAtInit(rel, inc, objs, k);
    }
  }

  /** Once the earlier records are in, the last one is added exactly when
      it adds. */
  lemma AddIncludedLastAdds(rel: Relationship, inc: Included, objs: seq<Record>)
    requires |objs| > 0 && AddIncluded(rel, inc, objs[..|objs| - 1]).Ok?
    ensures var init := objs[..|objs| - 1];
      IncludeKey(rel, objs[|objs| - 1]) in IncludedKeys(AddIncluded(rel, inc, init).value) <==>
      !AddsAt(rel, inc, objs, |objs| - 1)
  {
    var n := |objs|;
    var init := objs[..n - 1];
    var key := IncludeKey(rel, objs[n - 1]);
    AddIncludedHasKey(rel, inc, init, key);
    if exists j :: 0 <= j < n - 1 && IncludeKey(rel, init[j]) == key {
      var j :| 0 <= j < n - 1 && IncludeKey(rel, init[j]) == key;
      assert objs[j] == init[j];
    }
    if exists j :: 0 <= j < n - 1 && IncludeKey(rel, objs[j]) == key {
      var j :| 0 <= j < n - 1 && IncludeKey(rel, objs[j]) == key;
      assert objs[j] == init[j];
    }
  }

  /** The keys of the filled list are those already present and those of
      the related records. */
  lemma AddIncludedHasKey(rel: Relationship, inc: Included, objs: seq<Record>, key: string)
    requires AddIncluded(rel, inc, objs).Ok?
    ensures key in IncludedKeys(AddIncluded(rel, inc, objs).value) <==>
      key in IncludedKeys(inc) || exists j :: 0 <= j < |objs| && IncludeKey(rel, objs[j]) == key
  {
    var out := AddIncluded(rel, inc, objs).value;
    AddIncludedCovers(rel, inc, objs);
    KeysOfPrefix(inc, out);
    if exists j :: 0 <= j < |objs| && IncludeKey(rel, objs[j]) == key {
      var j :| 0 <= j < |objs| && IncludeKey(rel, objs[j]) == key;
      assert objs[j] in objs;
    }
    if key in IncludedKeys(out) {
      var i :| 0 <= i < |out| && IncludedKeys(out)[i] == key;
      if i < |inc| {
        assert out[i] == inc[i];
        assert IncludedKeys(inc)[i] == key;
      } else {
        AddIncludedValues(rel, inc, objs, i);
      }
    }
  }

  /** Included keys stay distinct, existing entries are kept as they are, and
      the new keys are exactly the related records' keys not already
      present, in related order, each once. */
  lemma {:induction false} AddIncludedKeys(rel: Relationship, inc: Included, objs: seq<Record>)
    requires NoDuplicates(IncludedKeys(inc))
    ensures AddIncluded(rel, inc, objs).Ok? ==> (IncludedKeys(AddIncluded(rel, inc, objs).value) ==
      IncludedKeys(inc) + NewIn(IncludedKeys(inc), Map(objs, (o: Record) => IncludeKey(rel, o))))
    ensures AddIncluded(rel, inc, objs).Ok? ==> NoDuplicates(IncludedKeys(AddIncluded(rel, inc, objs).value))
    decreases |objs|
  {
    if |objs| > 0 && AddIncluded(rel, inc, objs).Ok? {
      AddIncludedKeys(rel, inc, objs[..|objs| - 1]);
      AddIncludedKeysStep(rel, inc, objs);
    }
  }

  lemma AddIncludedKeysStep(rel: Relationship, inc: Included, objs: seq<Record>)
    requires |objs| > 0 && NoDuplicates(IncludedKeys(inc))
    requires AddIncluded(rel, inc, objs).Ok? && AddIncluded(rel, inc, objs[..|objs| - 1]).Ok?
    requires var before := AddIncluded(rel, inc, objs[..|objs| - 1]).value;
      && IncludedKeys(before) ==
         IncludedKeys(inc) + NewIn(IncludedKeys(inc), Map(objs[..|objs| - 1], (o: Record) => IncludeKey(rel, o)))
      && NoDuplicates(IncludedKeys(before))
    ensures IncludedKeys(AddIncluded(rel, inc, objs).value) ==
      IncludedKeys(inc) + NewIn(IncludedKeys(inc), Map(objs, (o: Record) => IncludeKey(rel, o)))
    ensures NoDuplicates(IncludedKeys(AddIncluded(rel, inc, objs).value))
  {
    var keyOf := (o: Record) => IncludeKey(rel, o);
    var init := objs[..|objs| - 1];
    var obj := objs[|objs| - 1];
    var before := AddIncluded(rel, inc, init).value;
    var k0 := IncludedKeys(inc);
    var ks := Map(objs, keyOf);
    var ks' := Map(init, keyOf);
    assert ks[..|ks| - 1] == ks';
    var key := keyOf(obj);
    assert ks[|ks| - 1] == key;
    var t := if key in k0 + ks' then [] else [key];
    assert NewIn(k0, ks) == NewIn(k0, ks') + t;
    assert key in IncludedKeys(before) <==> key in k0 + ks';
    if key in IncludedKeys(before) {
      assert NewIn(k0, ks') + t == NewIn(k0, ks');
    } else {
      var j := RelatedDataObject(rel.serializer, obj).value;
      assert AddIncluded(rel, inc, objs).value == before + [(key, j)];
      IncludedKeysSnoc(before, (key, j));
      AppendAssoc(k0, NewIn(k0, ks'), [key]);
      NoDuplicatesSnoc(IncludedKeys(before), key);
    }
  }

  /** Appending an entry appends its key. */
  lemma IncludedKeysSnoc(inc: Included, e: (string, Json))
    ensures IncludedKeys(inc + [e]) == IncludedKeys(inc) + [e.0]
  {
    assert forall i :: 0 <= i < |inc| ==> (inc + [e])[i] == inc[i];
  }

  /** Every related record ends up in `included` under its key. */
  lemma {:induction false} AddIncludedCovers(rel: Relationship, inc: Included, objs: seq<Record>)
    ensures AddIncluded(rel, inc, objs).Ok? ==>
      forall o :: o in objs ==> IncludeKey(rel, o) in IncludedKeys(AddIncluded(rel, inc, objs).value)
    decreases |objs|
  {
    if |objs| > 0 && AddIncluded(rel, inc, objs).Ok? {
      var init := objs[..|objs| - 1];
      var last := objs[|objs| - 1];
      AddIncludedCovers(rel, inc, init);
      var before := AddIncluded(rel, inc, init).value;
      var after := AddIncluded(rel, inc, objs).value;
      assert |before| <= |after| && after[..|before|] == before;
      KeysOfPrefix(before, after);
      if IncludeKey(rel, last) !in IncludedKeys(before) {
        assert IncludedKeys(after)[|after| - 1] == IncludeKey(rel, last);
      }
      forall o | o in objs ensures IncludeKey(rel, o) in IncludedKeys(after) {
        if o != last {
          assert o in init;
        }
      }
    }
  }

  /** Keys present in a prefix of `included` stay present. */
  lemma KeysOfPrefix(a: Included, b: Included)
    requires |a| <= |b| && b[..|a|] == a
    ensures forall k :: k in IncludedKeys(a) ==> k in IncludedKeys(b)
  {
    forall k | k in IncludedKeys(a) ensures k in IncludedKeys(b) {
      var i :| 0 <= i < |a| && IncludedKeys(a)[i] == k;
      assert b[i] == a[i];
      assert IncludedKeys(b)[i] == k;
    }
  }

  /** A record appended to `included` is what the related serializer made
      of a related record, under that record's key. */
  lemma AddIncludedValues(rel: Relationship, inc: Included, objs: seq<Record>, i: nat)
    requires AddIncluded(rel, inc, objs).Ok? && |inc| <= i < |AddIncluded(rel, inc, objs).value|
    ensures exists k :: (0 <= k < |objs| &&
      AddIncluded(rel, inc, objs).value[i].0 == IncludeKey(rel, objs[k]) &&
      RelatedDataObject(rel.serializer, objs[k]) == Ok(AddIncluded(rel, inc, objs).value[i].1))
    decreases |objs|
  {
    if |objs| > 0 {
      var init := objs[..|objs| - 1];
      var before := AddIncluded(rel, inc, init).value;
      if i < |before| {
        AddIncludedValues(rel, inc, init, i);
        var k :| 0 <= k < |init| && before[i].0 == IncludeKey(rel, init[k]) &&
          RelatedDataObject(rel.serializer, init[k]) == Ok(before[i].1);
        assert objs[k] == init[k];
      } else {
        var last := objs[|objs| - 1];
        assert AddIncluded(rel, inc, objs).value[i] ==
          (IncludeKey(rel, last), RelatedDataObject(rel.serializer, last).value);
      }
    }
  }

  /** The related records value_for walks when it fills `included`: the one
      related record of a to-one relationship, the collection of a to-many
      one. A nil or wrongly shaped value raises on `id` or `each`. */
  function EnumerableRelated(rel: Relationship, related: Related): (r: Result<seq<Record>, JsonError>)
    ensures r.Ok? <==> (IsOne(rel) && related.ROne?) || (!IsOne(rel) && related.RMany?)
    ensures r.Ok? && IsOne(rel) ==> r.value == [related.one]
    ensures r.Ok? && !IsOne(rel) ==> r.value == related.many
  {
    if IsOne(rel) then
      match related
      case ROne(obj) => Ok([obj])
      case _ => Err(NoMethodError("undefined method 'id'"))
    else
      match related
      case RMany(objs) => Ok(objs)
      case _ => Err(NoMethodError("undefined method 'each'"))
  }

  /** The relationship object: links, meta and data in that order, each
      left out when nil, whether it is missing or its value is nil. */
  function Assemble(links: Option<Json>, meta: Option<Json>, data: Option<Json>): (j: Json)
    ensures j.JObj?
    ensures Member(j, "links").Some? <==> links.Some? && !links.value.JNull?
    ensures Member(j, "meta").Some? <==> meta.Some? && !meta.value.JNull?
    ensures Member(j, "data").Some? <==> data.Some? && !data.value.JNull?
    ensures Member(j, "links").Some? ==> Member(j, "links") == links
    ensures Member(j, "meta").Some? ==> Member(j, "meta") == meta
    ensures Member(j, "data").Some? ==> Member(j, "data") == data
  {
    var l := Opt("links", NonNil(links));
    var m := Opt("meta", NonNil(meta));
    var d := Opt("data", NonNil(data));
    MemberOfAppend(l, m + d, "links");
    MemberOfAppend(m, d, "links");
    MemberOfAppend(l, m + d, "meta");
    MemberOfAppend(m, d, "meta");
    MemberOfAppend(l, m + d, "data");
    MemberOfAppend(m, d, "data");
    JObj(l + (m + d))
  }

  /** A present value that is nil counts as missing. */
  function NonNil(v: Option<Json>): (r: Option<Json>)
    ensures r.Some? <==> v.Some? && !v.value.JNull?
    ensures r.Some? ==> r == v
  {
    if v.Some? && v.value.JNull? then None else v
  }

  /** serialize_links: each link value is called, sent to the record, or
      kept, under its own name and in its own order. */
  function SerializeLinks(links: seq<(string, LinkValue)>, record: Record, related: Related)
    : (r: Result<seq<(string, Json)>, JsonError>)
    ensures r.Ok? <==> forall i :: 0 <= i < |links| && links[i].1.LinkSymbol? ==> links[i].1.sym in record.values
    ensures r.Ok? ==> |r.value| == |links|
    ensures r.Ok? ==> forall i :: 0 <= i < |links| ==> r.value[i] == (links[i].0, LinkJson(links[i].1, record, related))
  {
    if |links| == 0 then Ok([])
    else
      var v :- if links[0].1.LinkSymbol? then Send(record, links[0].1.sym) else Ok(LinkJson(links[0].1, record, related));
      var rest :- SerializeLinks(links[1..], record, related);
      assert forall i :: 1 <= i < |links| ==> links[i] == links[1..][i - 1];
      Ok([(links[0].0, v)] + rest)
  }

  /** The value one link renders to, when it renders. */
  function LinkJson(l: LinkValue, record: Record, related: Related): Json {
    match l
    case LinkCall(f) => f(record, related)
    case LinkSymbol(sym) => if sym in record.values then record.values[sym] else JNull
    case LinkLiteral(j) => j
  }

  /** serialize_meta: no option, or a literal option that is nil or
      false, gives nil; a callable is called and its value kept, whatever
      it is; any other literal is kept. */
  function SerializeMeta(meta: Option<MetaValue>, record: Record, related: Related): (r: Option<Json>)
    ensures meta.None? ==> r.None?
    ensures meta.Some? && meta.value.MetaLiteral? ==> (r.Some? <==> Truthy(meta.value.j))
    ensures meta.Some? && meta.value.MetaCall? ==> r == Some(meta.value.f(record, related))
    ensures r.Some? && meta.value.MetaLiteral? ==> r.value == meta.value.j
  {
    match meta
    case None => None
    case Some(MetaLiteral(j)) => if Truthy(j) then Some(j) else None
    case Some(MetaCall(f)) => Some(f(record, related))
  }

  /** Whether a relationship object carries a `meta` member: the option is
      set and truthy, and what it gives is not nil. */
  predicate MetaShown(meta: Option<MetaValue>, record: Record, related: Related) {
    match meta
    case None => false
    case Some(MetaLiteral(j)) => Truthy(j)
    case Some(MetaCall(f)) => !f(record, related).JNull?
  }

  /** value_for: when `included` is being collected the related records are
      added to it first, and what that raises is raised; the result holds links, meta and data, in that
      order, each only when not nil. */
  function ValueFor(rel: Relationship, record: Record, included: Option<Included>)
    : (r: Result<(Json, Option<Included>), JsonError>)
    ensures r.Ok? ==> (r.value.1.Some? <==> included.Some?)
    ensures r.Ok? ==> FetchRelated(rel, record).Ok?
    ensures r.Ok? && included.Some? ==> EnumerableRelated(rel, FetchRelated(rel, record).value).Ok?
    ensures r.Ok? && included.Some? ==>
      var added := AddIncluded(rel, included.value, EnumerableRelated(rel, FetchRelated(rel, record).value).value);
      added.Ok? && r.value.1 == Some(added.value)
    ensures included.Some? && FetchRelated(rel, record).Ok? && EnumerableRelated(rel, FetchRelated(rel, record).value).Ok? ==>
      var added := AddIncluded(rel, included.value, EnumerableRelated(rel, FetchRelated(rel, record).value).value);
      added.Err? ==> r == Err(added.error)
    ensures r.Ok? ==> r.value.0.JObj?
    ensures r.Ok? ==> (Member(r.value.0, "data").Some? <==> FetchRelated(rel, record).value != RNil)
    ensures r.Ok? ==> (Member(r.value.0, "links").Some? <==> rel.options.links.Some?)
    ensures r.Ok? ==> (Member(r.value.0, "meta").Some? <==> MetaShown(rel.options.meta, record, FetchRelated(rel, record).value))
    ensures FetchRelated(rel, record).Err? ==> r.Err?
  {
    var related :- FetchRelated(rel, record);
    var inc :- if included.Some? then
        var objs :- EnumerableRelated(rel, related);
        var added :- AddIncluded(rel, included.value, objs);
        Ok(Some(added))
      else Ok(None);
    var links :- if rel.options.links.Some? then
        var ms :- SerializeLinks(rel.options.links.value, record, related);
        Ok(Some(JObj(ms)))
      else Ok(None);
    var meta := SerializeMeta(rel.options.meta, record, related);
    var data :- SerializeData(rel, related);
    Ok((Assemble(links, meta, data), inc))
  }

  /** A to-one relationship whose related value is nil raises while filling
      `included`, but renders no data when it is not being included. */
  lemma NilToOneRaisesOnlyWhenIncluded(rel: Relationship, record: Record, inc: Included)
    requires IsOne(rel) && FetchRelated(rel, record) == Ok(RNil)
    ensures ValueFor(rel, record, Some(inc)).Err?
    ensures ValueFor(rel, record, None).Ok? <==>
      rel.options.links.None? || SerializeLinks(rel.options.links.value, record, RNil).Ok?
    ensures ValueFor(rel, record, None).Ok? ==> Member(ValueFor(rel, record, None).value.0, "data").None?
  {
  }

  /** A related class without a type raises the constructor's
      ArgumentError as soon as one related record has to be added to
      `included`; when every key is already present nothing is constructed. */
  lemma TypelessIncludeRaises(rel: Relationship, record: Record, inc: Included)
    requires rel.serializer.typeName.None?
    requires FetchRelated(rel, record).Ok? && EnumerableRelated(rel, FetchRelated(rel, record).value).Ok?
    ensures var objs := EnumerableRelated(rel, FetchRelated(rel, record).value).value;
      (exists o :: o in objs && IncludeKey(rel, o) !in IncludedKeys(inc)) ==>
        ValueFor(rel, record, Some(inc)) == Err(TypelessError(rel.serializer))
    ensures var objs := EnumerableRelated(rel, FetchRelated(rel, record).value).value;
      (forall o :: o in objs ==> IncludeKey(rel, o) in IncludedKeys(inc)) && ValueFor(rel, record, Some(inc)).Ok? ==>
        ValueFor(rel, record, Some(inc)).value.1 == Some(inc)
  {
  }

  /** A literal `meta: false` (or nil) renders no meta member, while a
      callable that answers false renders `"meta": false` and one that
      answers nil renders none. */
  lemma FalseMetaLiteralOmitted(rel: Relationship, record: Record, f: (Record, Related) -> Json)
    requires rel.options.meta == Some(MetaLiteral(JBool(false))) || rel.options.meta == Some(MetaLiteral(JNull))
    ensures ValueFor(rel, record, None).Ok? ==> Member(ValueFor(rel, record, None).value.0, "meta").None?
    ensures FetchRelated(rel, record).Ok? ==>
      var withCall := rel.(options := rel.options.(meta := Some(MetaCall(f))));
      ValueFor(withCall, record, None).Ok? ==>
        (Member(ValueFor(withCall, record, None).value.0, "meta").Some? <==> !f(record, FetchRelated(rel, record).value).JNull?)
  {
    var withCall := rel.(options := rel.options.(meta := Some(MetaCall(f))));
    assert FetchRelated(withCall, record) == FetchRelated(rel, record);
  }
}

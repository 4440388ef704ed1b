/** The host-metric serializer: a JSON:API serializer of type
    `host_metrics` whose attributes are the row's readings as floats, with
    disk sizes converted from 1k blocks and memory sizes from mebibytes to
    bytes. */
module HostMetricSerializer {
  import opened Wrappers
  import opened Seqs
  import opened JsonApiValues
  import opened JsonApiParams
  import A = JsonApiAttribute
  import S = JsonApiSerializer

  /** How a stored reading is scaled on output. */
  datatype Scale = AsIs | KibiBlocks | Mebibytes

  /** The multiplier of a scale. */
  function Factor(sc: Scale): (f: real)
    ensures f > 0.0
  {
    match sc
    case AsIs => 1.0
    case KibiBlocks => 1024.0
    case Mebibytes => 1048576.0
  }

  /** The rendered attributes, in declaration order, each with its scale. */
  const Columns: seq<(string, Scale)> := [
    ("time", AsIs),
    ("pct_free_system_mem", AsIs),
    ("system_pct_cpu", AsIs),
    ("postgres_pct_cpu", AsIs),
    ("postgres_pct_mem", AsIs),
    ("ruby_pct_cpu", AsIs),
    ("ruby_pct_mem", AsIs),
    ("nginx_pct_cpu", AsIs),
    ("nginx_pct_mem", AsIs),
    ("elasticsearch_pct_cpu", AsIs),
    ("elasticsearch_pct_mem", AsIs),
    ("redis_pct_cpu", AsIs),
    ("redis_pct_mem", AsIs),
    ("total_hdd", KibiBlocks),
    ("free_hdd", KibiBlocks),
    ("total_system_mem", Mebibytes),
    ("free_system_mem", Mebibytes)
  ]

  /** The resource type. */
  const TypeName: string := "host_metrics"

  /** A host_metrics row: its non-null timestamp in milliseconds, and its
      nullable numeric readings by column name. */
  datatype MetricReadings = MetricReadings(timeMs: int, readings: map<string, Option<real>>)

  /** A row has every column the serializer reads. */
  predicate HasColumns(m: MetricReadings) {
    forall i :: 1 <= i < |Columns| ==> Columns[i].0 in m.readings
  }

  /** `to_f` on a numeric value; nil.to_f is 0.0. */
  function ToF(j: Json): (x: real)
    ensures j.JNull? ==> x == 0.0
    ensures j.JNum? ==> x == j.n
    ensures j.JInt? ==> x == j.i as real
  {
    match j
    case JNum(n) => n
    case JInt(i) => i as real
    case _ => 0.0
  }

  /** The reading of a column as the record reader returns it: Time#to_f
      for `time`, the stored number or nil otherwise. */
  function ReaderValue(m: MetricReadings, name: string): Json
    requires name == "time" || name in m.readings
  {
    if name == "time" then JNum(m.timeMs as real / 1000.0)
    else match m.readings[name]
      case Some(x) => JNum(x)
      case None => JNull
  }

  /** The row as the serializer sees it: one reader per column. */
  function ToRecord(m: MetricReadings): (r: Record)
    requires HasColumns(m)
    ensures forall i :: 0 <= i < |Columns| ==> Columns[i].0 in r.values
    ensures r.related == map[]
  {
    Record(None, map name | name in m.readings.Keys + {"time"} :: ReaderValue(m, name), map[])
  }

  /** What the block of a column computes: the reader's value as a float,
      scaled. */
  function Value(rec: Record, c: (string, Scale)): real {
    ToF(if c.0 in rec.values then rec.values[c.0] else JNull) * Factor(c.1)
  }

  /** The attribute declaration of one column: a block and no condition. */
  function Declare(c: (string, Scale)): (string, A.Attribute) {
    (c.0, A.Attribute(c.0, A.IfNil, Some((r: Record, ctx: Context) => JNum(Value(r, c)))))
  }

  /** The serializer class. */
  const HostMetricClass: S.SerializerClass :=
    S.SerializerClass("HostMetricSerializer", Some(TypeName), Some(Map(Columns, Declare)), None, None, None, None)

  /** The value rendered for a column of a row. */
  function Rendered(m: MetricReadings, c: (string, Scale)): (v: real)
    requires c in Columns && HasColumns(m)
    ensures c.0 == "time" ==> v * 1000.0 == m.timeMs as real
    ensures c.0 != "time" && m.readings[c.0].None? ==> v == 0.0
    ensures c.0 != "time" && m.readings[c.0].Some? ==> v == m.readings[c.0].value * Factor(c.1)
  {
    Value(ToRecord(m), c)
  }

  /** The attributes member of a serialized row. */
  function Attributes(m: MetricReadings): (r: seq<(string, Json)>)
    requires HasColumns(m)
    ensures |r| == |Columns|
    ensures forall i :: 0 <= i < |Columns| ==> r[i] == (Columns[i].0, JNum(Rendered(m, Columns[i])))
  {
    Render(ToRecord(m), Columns)
  }

  /** Each column under its name with its block's value. */
  function Render(rec: Record, cols: seq<(string, Scale)>): (r: seq<(string, Json)>)
    ensures |r| == |cols|
    ensures forall i :: 0 <= i < |cols| ==> r[i] == (cols[i].0, JNum(Value(rec, cols[i])))
  {
    Map(cols, (c: (string, Scale)) => (c.0, JNum(Value(rec, c))))
  }

  /** The class constructs: it declares its type. */
  lemma ConstructsWithType(ctx: Context, fields: map<string, seq<string>>, tree: IncludeTree)
    ensures S.NewSerializer(HostMetricClass, ctx, fields, tree).Ok?
    ensures S.NewSerializer(HostMetricClass, ctx, fields, tree).value.typeName == "host_metrics"
  {
  }

  /** Serializing a row through the class, without a sparse fieldset,
      renders exactly the scaled readings, in declaration order. */
  lemma SerializesReadings(s: S.Serializer, m: MetricReadings)
    requires s.cls == HostMetricClass && !S.SparseFieldset(s) && HasColumns(m)
    ensures S.SerializeAttributes(s, ToRecord(m)) == Ok(Attributes(m))
  {
    RendersAll(s, ToRecord(m), Columns);
  }

  /** A class declaring one scaled block per column renders every column's
      block value, in declaration order. */
  lemma RendersAll(s: S.Serializer, rec: Record, cols: seq<(string, Scale)>)
    requires s.cls.attributes == Some(Map(cols, Declare)) && s.cls.allowedFields.None? && !S.SparseFieldset(s)
    ensures S.SerializeAttributes(s, rec) == Ok(Render(rec, cols))
  {
    var attrs := Map(cols, Declare);
    var render := (e: (string, A.Attribute)) => (e.0, S.RenderedValue(e.1, rec, s.ctx));
    KeepsAll(s, rec, attrs);
    AllShown(attrs, cols, rec, s.ctx);
    var out := Map(attrs, render);
    assert S.AttributesOf(attrs, rec, s.ctx) == Ok(out);
    assert forall i :: 0 <= i < |cols| ==> attrs[i] == Declare(cols[i]);
    assert out == Render(rec, cols);
  }

  /** Without a sparse fieldset or an `allowed_fields` hook nothing is
      filtered out. */
  lemma KeepsAll(s: S.Serializer, rec: Record, attrs: seq<(string, A.Attribute)>)
    requires !S.SparseFieldset(s) && s.cls.allowedFields.None?
    ensures S.FilterAllowableFields(s, rec, attrs) == attrs
  {
    FilterAll(attrs, (e: (string, A.Attribute)) => S.Allowed(s, rec, e.0));
  }

  /** Every declared attribute is shown and renders without raising. */
  lemma AllShown(attrs: seq<(string, A.Attribute)>, cols: seq<(string, Scale)>, rec: Record, ctx: Context)
    requires attrs == Map(cols, Declare)
    ensures forall i :: 0 <= i < |attrs| ==> S.AttributeOk(attrs[i].1, rec, ctx)
    ensures S.AttributesOf(attrs, rec, ctx).Ok?
    ensures Filter(attrs, (e: (string, A.Attribute)) => S.Shown(e.1, rec, ctx)) == attrs
  {
    FilterAll(attrs, (e: (string, A.Attribute)) => S.Shown(e.1, rec, ctx));
  }

  /** Disk sizes come out in bytes: 1024 times the stored block count. */
  lemma DiskInBytes(m: MetricReadings, blocks: real)
    requires HasColumns(m) && "total_hdd" in m.readings && m.readings["total_hdd"] == Some(blocks)
    ensures Attributes(m)[13] == ("total_hdd", JNum(blocks * 1024.0))
  {
  }

  /** Memory sizes come out in bytes: 1048576 times the stored mebibytes. */
  lemma MemoryInBytes(m: MetricReadings, mib: real)
    requires HasColumns(m) && "free_system_mem" in m.readings && m.readings["free_system_mem"] == Some(mib)
    ensures Attributes(m)[16] == ("free_system_mem", JNum(mib * 1048576.0))
  {
  }

  /** Every stored reading is recovered from its rendered value by dividing
      by its scale; a missing reading renders as zero. */
  lemma ReadingsRecoverable(m: MetricReadings, i: nat)
    requires HasColumns(m) && 1 <= i < |Columns|
    ensures m.readings[Columns[i].0].Some? ==>
      Rendered(m, Columns[i]) / Factor(Columns[i].1) == m.readings[Columns[i].0].value
    ensures m.readings[Columns[i].0].None? ==> Rendered(m, Columns[i]) == 0.0
  {
  }
}

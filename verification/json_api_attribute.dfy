/** A serializer attribute: how its value is read and whether its `:if`
    option lets it into the output. */
module JsonApiAttribute {
  import opened Wrappers
  import opened JsonApiValues

  /** The kinds of value the `:if` option can hold. `IfBlank` is any other
      blank value (false, an empty or all-whitespace string, an empty
      collection); `IfPresent` is any other present non-Proc, non-Symbol
      value (true, a number, a non-blank string). */
  datatype IfOption =
    | IfNil
    | IfBlank
    | IfProc(f: (Record, Context) -> Json)
    | IfSymbol(name: string)
    | IfPresent

  /** An attribute declaration: its name, its `:if` option and its block. */
  datatype Attribute = Attribute(name: string, ifOption: IfOption, block: Option<(Record, Context) -> Json>)

  /** Object#blank? on the option. */
  predicate IsBlankOption(o: IfOption) {
    o.IfNil? || o.IfBlank?
  }

  /** value_for: the block's result when there is a block, otherwise the
      record's reader of the same name. */
  function ValueFor(a: Attribute, record: Record, ctx: Context): (v: Result<Json, JsonError>)
    ensures a.block.Some? ==> v == Ok(a.block.value(record, ctx))
    ensures a.block.None? ==> (v.Ok? <==> a.name in record.values)
    ensures a.block.None? && v.Ok? ==> v.value == record.values[a.name]
  {
    match a.block
    case Some(blk) => Ok(blk(record, ctx))
    case None => Send(record, a.name)
  }

  /** should_include? as written: a blank option always includes; a Proc
      includes iff its result is truthy; the `when :symbol` branch matches
      only the literal symbol `:symbol`; every other option raises. */
  function ShouldIncludeAsWritten(a: Attribute, record: Record, ctx: Context): (r: Result<bool, JsonError>)
    ensures IsBlankOption(a.ifOption) ==> r == Ok(true)
    ensures a.ifOption.IfProc? ==> r == Ok(Truthy(a.ifOption.f(record, ctx)))
    ensures a.ifOption.IfSymbol? && a.ifOption.name != "symbol" ==> r.Err? && r.error.ArgumentError?
    ensures a.ifOption == IfSymbol("symbol") ==>
      (r.Ok? <==> "symbol" in record.values) && (r.Ok? ==> r.value == Truthy(record.values["symbol"]))
    ensures a.ifOption.IfPresent? ==> r.Err? && r.error.ArgumentError?
  {
    match a.ifOption
    case IfNil => Ok(true)
    case IfBlank => Ok(true)
    case IfProc(f) => Ok(Truthy(f(record, ctx)))
    case IfSymbol(s) =>
      if s == "symbol" then
        var v :- Send(record, s);
        Ok(Truthy(v))
      else Err(ArgumentError("Unknown :if option type on attribute " + a.name))
    case IfPresent => Err(ArgumentError("Unknown :if option type on attribute " + a.name))
  }

  /** should_include? as evidently intended (`when Symbol`): a symbol names
      a predicate on the record, and its truthiness decides. */
  function ShouldInclude(a: Attribute, record: Record, ctx: Context): (r: Result<bool, JsonError>)
    ensures IsBlankOption(a.ifOption) ==> r == Ok(true)
    ensures a.ifOption.IfProc? ==> r == Ok(Truthy(a.ifOption.f(record, ctx)))
    ensures a.ifOption.IfSymbol? ==>
      (r.Ok? <==> a.ifOption.name in record.values) &&
      (r.Ok? ==> r.value == Truthy(record.values[a.ifOption.name]))
    ensures a.ifOption.IfPresent? ==> r.Err? && r.error.ArgumentError?
  {
    match a.ifOption
    case IfNil => Ok(true)
    case IfBlank => Ok(true)
    case IfProc(f) => Ok(Truthy(f(record, ctx)))
    case IfSymbol(s) =>
      var v :- Send(record, s);
      Ok(Truthy(v))
    case IfPresent => Err(ArgumentError("Unknown :if option type on attribute " + a.name))
  }

  /** The discrepancy: a symbol condition naming an existing true predicate
      raises as written, but includes the attribute as intended. */
  lemma SymbolConditionRaises()
    ensures var rec := Record(Some(1), map["published" := JBool(true)], map[]);
      var a := Attribute("title", IfSymbol("published"), None);
      ShouldIncludeAsWritten(a, rec, Context(map[])).Err? &&
      ShouldInclude(a, rec, Context(map[])) == Ok(true)
  {
  }

  /** The two readings agree on every option except a symbol other than
      `:symbol`. */
  lemma ReadingsAgreeElsewhere(a: Attribute, record: Record, ctx: Context)
    requires !(a.ifOption.IfSymbol? && a.ifOption.name != "symbol")
    ensures ShouldIncludeAsWritten(a, record, ctx) == ShouldInclude(a, record, ctx)
  {
  }
}

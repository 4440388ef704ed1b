/** The values the JSON:API serializers read and produce: JSON documents
    with insertion-ordered objects, and the records being serialized. */
module JsonApiValues {
  import opened Wrappers
  import opened Strings

  /** A JSON value. Objects keep their members in insertion order, as Ruby
      hashes do. */
  datatype Json =
    | JNull
    | JBool(b: bool)
    | JInt(i: int)
    | JNum(n: real)
    | JStr(s: string)
    | JArr(items: seq<Json>)
    | JObj(members: seq<(string, Json)>)

  /** Ruby truthiness: everything except nil and false. */
  predicate Truthy(j: Json) {
    !(j.JNull? || j == JBool(false))
  }

  /** The errors the serializers raise. */
  datatype JsonError = ArgumentError(message: string) | NoMethodError(message: string)

  /** What a record's association reader returns: nil, one record, or a
      collection of records. */
  datatype Related = RNil | ROne(one: Record) | RMany(many: seq<Record>)

  /** A model instance: its id (nil when the table has no id column), its
      attribute readers and its association readers. */
  datatype Record = Record(id: Option<int>, values: map<string, Json>, related: map<string, Related>)

  /** The per-request context handed to attribute blocks and conditions. */
  datatype Context = Context(values: map<string, Json>)

  /** record.send(name) for an attribute reader; an unknown name raises. */
  function Send(r: Record, name: string): (v: Result<Json, JsonError>)
    ensures v.Ok? <==> name in r.values
    ensures v.Ok? ==> v.value == r.values[name]
  {
    if name in r.values then Ok(r.values[name]) else Err(NoMethodError("undefined method '" + name + "'"))
  }

  /** Integer#to_s on an id, and nil.to_s (the empty string) when there is
      none. */
  function IdToS(id: Option<int>): string {
    if id.Some? then IntToString(id.value) else ""
  }

  /** The value of `key` in an object, if the object has it. */
  function Member(j: Json, key: string): (r: Option<Json>)
    ensures r.Some? ==> j.JObj? && exists i :: 0 <= i < |j.members| && j.members[i] == (key, r.value)
    ensures r.None? ==> !j.JObj? || forall i :: 0 <= i < |j.members| ==> j.members[i].0 != key
  {
    if !j.JObj? then None else MemberOf(j.members, key)
  }

  function MemberOf(ms: seq<(string, Json)>, key: string): (r: Option<Json>)
    ensures r.Some? ==> exists i :: 0 <= i < |ms| && ms[i] == (key, r.value)
    ensures r.None? ==> forall i :: 0 <= i < |ms| ==> ms[i].0 != key
  {
    if |ms| == 0 then None
    else if ms[0].0 == key then Some(ms[0].1)
    else MemberOf(ms[1..], key)
  }

  /** Looking a name up in two concatenated member lists finds it in the
      first list when it is there. */
  lemma MemberOfAppend(a: seq<(string, Json)>, b: seq<(string, Json)>, key: string)
    ensures MemberOf(a + b, key) == if MemberOf(a, key).Some? then MemberOf(a, key) else MemberOf(b, key)
  {
    if |a| > 0 {
      assert (a + b)[1..] == a[1..] + b;
      MemberOfAppend(a[1..], b, key);
    } else {
      assert a + b == b;
    }
  }

  /** A member that is present only when its value is not nil. */
  function Opt(key: string, v: Option<Json>): (ms: seq<(string, Json)>)
    ensures MemberOf(ms, key) == v
    ensures forall k :: k != key ==> MemberOf(ms, k) == None
    ensures |ms| <= 1
  {
    if v.Some? then [(key, v.value)] else []
  }

  /** The member names of an object, in order. */
  function KeysOf(ms: seq<(string, Json)>): (ks: seq<string>)
    ensures |ks| == |ms|
    ensures forall i :: 0 <= i < |ms| ==> ks[i] == ms[i].0
  {
    seq(|ms|, i requires 0 <= i < |ms| => ms[i].0)
  }
}

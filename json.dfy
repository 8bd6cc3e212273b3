/**
 * Decoded JSON values as the client receives them from its transport.
 * Parsing itself is not modelled; a response is already a Value.
 */
module Json {
  import opened Wrappers

  /** A decoded JSON value. Numbers are integers; floating point is not modelled. */
  datatype Value =
    | Null
    | Bool(b: bool)
    | Number(n: int)
    | Str(s: string)
    | Arr(items: seq<Value>)
    | Obj(fields: map<string, Value>)

  /** A decoded JSON object, such as the envelope of a private response. */
  type Object = map<string, Value>

  /** Hash#[] on a decoded object: the value under `key`, or nil. */
  function Field(o: Object, key: string): (r: Option<Value>)
    ensures r.Some? <==> key in o
    ensures r.Some? ==> r.value == o[key]
  {
    if key in o then Some(o[key]) else None
  }

  /**
   * Field access on a Hashie::Mash: the value under `key`, where an absent
   * key and a JSON null both read as nil (None).
   */
  function MashField(o: Object, key: string): (r: Option<Value>)
    ensures r.Some? <==> key in o && o[key] != Null
    ensures r.Some? ==> r.value == o[key]
  {
    if key in o && o[key] != Null then Some(o[key]) else None
  }

  /**
   * Ruby's `empty?` on a decoded value: defined for strings, arrays and
   * hashes; None where the value has no such method (nil, numbers,
   * booleans), so that calling it raises NoMethodError.
   */
  function EmptyTest(v: Value): (r: Option<bool>)
    ensures r.Some? <==> (v.Str? || v.Arr? || v.Obj?)
    ensures r == Some(true) <==> v in {Str(""), Arr([]), Obj(map[])}
  {
    match v
    case Str(s) => Some(|s| == 0)
    case Arr(items) => Some(|items| == 0)
    case Obj(fields) =>
      assert |fields| == 0 ==> fields == map[];
      Some(|fields| == 0)
    case _ => None
  }
}

/** JSON values, and the text codec as the catalogs use it. */
module Json {
  import opened Arrow

  /** The values of section 3 of RFC 8259; the catalogs only use integral numbers. */
  datatype Json =
    | JNull
    | JBool(b: bool)
    | JNumber(n: int)
    | JString(s: string)
    | JArray(items: seq<Json>)
    | JObject(members: map<string, Json>)
  {
    /** `Value::get`: a member of an object, nothing for any other value. */
    function Get(key: string): (r: Option<Json>)
      ensures r.Some? <==> JObject? && key in members
      ensures r.Some? ==> r.value == members[key]
    {
      if JObject? && key in members then Some(members[key]) else None
    }
  }

  /** `and_then(Value::as_bool).unwrap_or(default)`. */
  function BoolOr(v: Option<Json>, default: bool): bool {
    if v.Some? && v.value.JBool? then v.value.b else default
  }

  /** A JSON text encoder and decoder; a decoder may refuse a text. */
  datatype TextCodec = TextCodec(encode: Json -> string, decode: string -> Option<Json>) {
    /** The decoder undoes the encoder on this value. */
    predicate Faithful(v: Json) {
      decode(encode(v)) == Some(v)
    }
  }
}

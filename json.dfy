/** The loose JavaScript objects that the admin forms and the request bodies carry.
    A missing property is a key absent from the object's map. */
module Json {
  import opened Wrappers

  datatype Json =
    | JNull
    | JBool(b: bool)
    | JNum(n: real)
    | JStr(s: string)
    | JArr(items: seq<Json>)
    | JObj(fields: map<string, Json>)
    | JFile(handle: nat)  // a browser File object chosen in an upload input

  /** JavaScript truthiness of a present value (NaN is not modelled). */
  predicate Truthy(j: Json) {
    match j
    case JNull => false
    case JBool(b) => b
    case JNum(n) => n != 0.0
    case JStr(s) => s != ""
    case _ => true
  }

  /** `o[key]`: the property, or `None` for `undefined`. Reading a property of anything
      but an object gives `undefined` here. */
  function Get(o: Json, key: string): (r: Option<Json>)
    ensures r.Some? <==> o.JObj? && key in o.fields
  {
    if o.JObj? && key in o.fields then Some(o.fields[key]) else None
  }

  /** The own properties `{...o}` copies: an object's fields; `undefined`, `null`,
      numbers and booleans give `{}`. Strings and arrays would spread their index keys;
      here they also give `{}`. The admin forms only ever spread objects they built
      themselves; only a hand-made request to `updateProduct` could send a string or an
      array as a variant. */
  function Spread(o: Option<Json>): (m: map<string, Json>)
    ensures o.Some? && o.value.JObj? ==> m == o.value.fields
    ensures !(o.Some? && o.value.JObj?) ==> m == map[]
  {
    if o.Some? && o.value.JObj? then o.value.fields else map[]
  }

  /** A list of strings as a JavaScript array. */
  function StringList(xs: seq<string>): (r: seq<Json>)
    ensures |r| == |xs| && forall i :: 0 <= i < |xs| ==> r[i] == JStr(xs[i])
  {
    seq(|xs|, i requires 0 <= i < |xs| => JStr(xs[i]))
  }
}

/** JSON values as the request bodies and the persisted document carry them.
    Numbers are integers here: the only number the model inspects is an
    item id, which the server always sets from a millisecond timestamp. */
module Json {

  datatype Value =
    | Null
    | Bool(b: bool)
    | Num(n: int)
    | Str(s: string)
    | Arr(elems: seq<Value>)
    | Obj(fields: map<string, Value>)

  /** A JSON object: the shape of a parsed request body and of a stored item. */
  type Object = map<string, Value>

  /** The object spread `{...base, key: v}`: every property of `base`, with
      `key` set to `v` whether or not `base` already had it (the later key wins). */
  function SpreadWith(base: Object, key: string, v: Value): (r: Object)
    ensures r.Keys == base.Keys + {key}
    ensures r[key] == v
    ensures forall k :: k in base && k != key ==> r[k] == base[k]
  {
    base[key := v]
  }
}

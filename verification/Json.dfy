/**
 JSON values as a parser hands them over. A number with an integral value is an `Int`. Object
 keys have a type of their own: plain text, or the names that a schema knows and any other.
 */
module Json {
  datatype Value<K(==)> =
    | Null
    | Bool(b: bool)
    | Int(i: int)
    | Float(r: real)
    | Str(s: string)
    | Arr(items: seq<Value<K>>)
    | Obj(fields: map<K, Value<K>>)
}

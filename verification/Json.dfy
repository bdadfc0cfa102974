/** Decoded JSON values, section 3 of RFC 8259. */
module Json {
  datatype Json =
    | Null
    | Bool(truth: bool)
    | Num(number: real)
    | Str(text: string)
    | Arr(items: seq<Json>)
    | Obj(fields: map<string, Json>)
}

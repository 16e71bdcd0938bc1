/** JSON values, with objects as maps: the order of keys is not part of a value. */
module JsonValues {
  datatype Json =
    | Null
    | Bool(truth: bool)
    | Number(value: real)
    | Str(text: string)
    | List(items: seq<Json>)
    | Obj(fields: map<string, Json>)
}

/** JSON values, the common form the source serialises config blocks to. */
module Json {
  import opened Prelude

  datatype Json =
    | Null
    | Bool(b: bool)
    | Number(n: int)
    | Str(s: string)
    | Array(items: seq<Json>)
    | Object(fields: map<string, Json>)

  /** The string under `key`, if `j` is an object that has one there. */
  function TextField(j: Json, key: string): Option<string> {
    if j.Object? && key in j.fields && j.fields[key].Str? then Some(j.fields[key].s) else None
  }

  /** The object has text `v` under `key`. */
  predicate HasText(j: Json, key: string, v: string) {
    j.Object? && key in j.fields && j.fields[key] == Str(v)
  }

  lemma TextExactly(j: Json, key: string, v: string)
    ensures TextField(j, key) == Some(v) <==> HasText(j, key, v)
  {
  }
}

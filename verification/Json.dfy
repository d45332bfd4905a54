/** JSON values and the PostgreSQL jsonb operations the queue uses. */
module Json {
  import opened Basics

  datatype Json =
    | Null
    | Bool(b: bool)
    | Number(n: int)
    | Str(s: string)
    | Arr(items: seq<Json>)
    | Obj(fields: map<string, Json>)

  /** `value -> key` */
  function Get(value: Json, key: string): Option<Json> {
    if value.Obj? && key in value.fields then Some(value.fields[key]) else None
  }

  function Text(value: Option<Json>): Option<string> {
    if value.Some? && value.value.Str? then Some(value.value.s) else None
  }

  function AsArray(value: Json): seq<Json> {
    if value.Arr? then value.items else [value]
  }

  /** `a || b`: objects merge, the right side winning; anything else is joined as arrays. */
  function Concat(a: Json, b: Json): Json {
    if a.Obj? && b.Obj? then Obj(a.fields + b.fields) else Arr(AsArray(a) + AsArray(b))
  }
}

/** Untyped JSON values, as the gateway receives them. */
module Json {
  /** `Undefined` is the value of a missing field; `Frac` stands for any number that is no integer. */
  datatype Json =
    | Undefined
    | Null
    | Bool(b: bool)
    | Num(n: int)
    | Frac(id: int)
    | Str(s: string)
    | Arr(items: seq<Json>)
    | Obj(fields: map<string, Json>)

  function Field(o: map<string, Json>, name: string): Json {
    if name in o then o[name] else Undefined
  }

  const MAX_SAFE: int := 0x1F_FFFF_FFFF_FFFF

  /** `Number.isSafeInteger`. */
  predicate IsSafeInt(v: Json) {
    v.Num? && -MAX_SAFE <= v.n <= MAX_SAFE
  }
}

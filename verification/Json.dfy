/** JSON values as the backend sees them, with Python's truthiness. */
module Json {
  datatype Json =
    | Null
    | Bool(b: bool)
    | Num(n: int)
    | Str(s: string)
    | List(xs: seq<Json>)
    | Obj(m: map<string, Json>)

  predicate Truthy(j: Json) {
    match j
    case Null => false
    case Bool(b) => b
    case Num(n) => n != 0
    case Str(s) => s != ""
    case List(xs) => xs != []
    case Obj(m) => m != map[]
  }

  /** The values Python takes for false. */
  lemma FalsyExactly(j: Json)
    ensures Truthy(j) <==> j !in [Null, Bool(false), Num(0), Str(""), List([]), Obj(map[])]
  {
  }

  /** Python's `a or b`. */
  function Or(a: Json, b: Json): Json {
    if Truthy(a) then a else b
  }
}

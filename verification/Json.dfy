/** JSON values as Python holds them after loading a document: object members are
    unordered and equality is structural. */
module Json {

  datatype Json =
    | Null
    | Bool(flag: bool)
    | Num(number: real)
    | Str(text: string)
    | Arr(items: seq<Json>)
    | Obj(members: map<string, Json>)

  predicate IsContainer(v: Json) {
    v.Arr? || v.Obj?
  }

  /** Python's truth value of a loaded JSON value. */
  predicate Truthy(v: Json) {
    match v
    case Null => false
    case Bool(b) => b
    case Num(n) => n != 0.0
    case Str(s) => s != ""
    case Arr(xs) => xs != []
    case Obj(m) => m != map[]
  }

  /** Six values are not true. */
  lemma FalsyValues(v: Json)
    ensures !Truthy(v) <==> v in [Null, Bool(false), Num(0.0), Str(""), Arr([]), Obj(map[])]
  {
  }

  const REF := "$ref"

  /** True iff a member called "$ref" occurs anywhere inside the value. */
  predicate HasRef(v: Json) {
    match v
    case Obj(m) => REF in m || exists k | k in m :: HasRef(m[k])
    case Arr(xs) => exists i | 0 <= i < |xs| :: HasRef(xs[i])
    case _ => false
  }

  lemma ScalarHasNoRef(v: Json)
    requires !IsContainer(v)
    ensures !HasRef(v)
  {
  }
}

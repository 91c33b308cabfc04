/** JavaScript values as the request handler sees them: the decoded request
    body, the fields read out of it, and the values it binds into SQL
    statements and reads back from table columns. */
module Values {

  datatype Option<+T> = None | Some(value: T)

  /** A decoded JSON value. Numbers are integers; SQL NULL is `JNull`. */
  datatype Json =
    | JNull
    | JBool(b: bool)
    | JNum(n: int)
    | JStr(s: string)
    | JArr(items: seq<Json>)
    | JObj(fields: map<string, Json>)

  /** The outcome of reading one property of the body: the read throws
      (the body is `null`), the property is `undefined`, or it holds a value. */
  datatype Prop = Throws | Undefined | Defined(v: Json)

  /** JavaScript truthiness on the modelled value domain:
      `null`, `undefined`, `false`, `0` and `''` are falsy, everything else
      (including `[]` and `{}`) is truthy. */
  predicate Truthy(p: Prop) {
    match p
    case Throws => false
    case Undefined => false
    case Defined(v) =>
      match v
      case JNull => false
      case JBool(b) => b
      case JNum(n) => n != 0
      case JStr(s) => s != ""
      case JArr(_) => true
      case JObj(_) => true
  }

  /** `body.key`, or the key's part in `const { key } = body`: reading a
      property of `null` throws a TypeError; any other non-object has none
      of the keys the handler reads. */
  function Field(body: Json, key: string): (p: Prop)
    ensures p == Throws <==> body == JNull
    ensures body.JObj? && key in body.fields ==> p == Defined(body.fields[key])
    ensures p.Defined? ==> body.JObj? && key in body.fields
  {
    match body
    case JNull => Throws
    case JObj(m) => if key in m then Defined(m[key]) else Undefined
    case _ => Undefined
  }

  /** `x || null`: the value itself when truthy, SQL NULL otherwise. */
  function OrNull(p: Prop): (v: Json)
    ensures Truthy(p) ==> p == Defined(v)
    ensures !Truthy(p) ==> v == JNull
  {
    if Truthy(p) then p.v else JNull
  }

  /** `x ?? null`: the value itself unless it is `null` or `undefined`. */
  function NullishOrNull(p: Prop): (v: Json)
    requires p != Throws
    ensures p == Undefined ==> v == JNull
    ensures p.Defined? ==> v == p.v
  {
    if p.Defined? then p.v else JNull
  }

  /** `x || fallback` applied to a column value. */
  function OrElse(v: Json, fallback: Json): (r: Json)
    ensures Truthy(Defined(v)) ==> r == v
    ensures !Truthy(Defined(v)) ==> r == fallback
  {
    if Truthy(Defined(v)) then v else fallback
  }

  /** SQL `COALESCE(?, column)`: the bound value unless it is NULL. */
  function Coalesce(bound: Json, current: Json): (r: Json)
    ensures bound != JNull ==> r == bound
    ensures bound == JNull ==> r == current
  {
    if bound == JNull then current else bound
  }

  /** The meaning of `column = COALESCE(x || null, column)`: a truthy
      supplied value replaces the column, anything else leaves it. */
  predicate TruthyOverwrite(p: Prop, before: Json, after: Json) {
    if Truthy(p) then after == p.v else after == before
  }

  /** The meaning of `column = COALESCE(x ?? null, column)`: a supplied
      non-null value replaces the column, `undefined` and `null` leave it. */
  predicate NullishOverwrite(p: Prop, before: Json, after: Json) {
    if p.Defined? && p.v != JNull then after == p.v else after == before
  }

  /** `column = COALESCE(x || null, column)`: the column takes the supplied
      value exactly when it is truthy, so `''`, `0` and `false` keep the
      old value. */
  lemma CoalesceOrNull(p: Prop, current: Json)
    ensures Truthy(p) ==> Coalesce(OrNull(p), current) == p.v
    ensures !Truthy(p) ==> Coalesce(OrNull(p), current) == current
  {
  }

  /** `column = COALESCE(x ?? null, column)`: any supplied non-null value,
      `''` and `0` included, overwrites; only `undefined` and `null` keep
      the old value. */
  lemma CoalesceNullish(p: Prop, current: Json)
    requires p != Throws
    ensures p.Defined? && p.v != JNull ==> Coalesce(NullishOrNull(p), current) == p.v
    ensures (p == Undefined || p == Defined(JNull)) ==> Coalesce(NullishOrNull(p), current) == current
  {
  }

  /** The two partial-update idioms differ exactly on the defined, non-null,
      falsy values: `''`, `0` and `false`. */
  lemma PartialUpdateIdiomsDiffer(p: Prop, current: Json)
    requires p != Throws
    ensures Coalesce(OrNull(p), current) != Coalesce(NullishOrNull(p), current)
        <==> p.Defined? && p.v != JNull && !Truthy(p) && p.v != current
  {
  }
}

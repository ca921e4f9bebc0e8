/** What the schedule service keeps in `localStorage`: a JSON document per key,
    as `JSON.parse` returns it and `JSON.stringify` writes it. */
module Storage {
  import opened Base

  /** A parsed JSON value (numbers are taken to be integers). */
  datatype Json =
    | JNull
    | JBool(b: bool)
    | JNum(n: int)
    | JStr(s: string)
    | JArr(items: seq<Json>)
    | JObj(fields: map<string, Json>)

  /** The outcome of reading one key: `getItem` found nothing (or the empty
      string), `JSON.parse` threw, or it produced a value. */
  datatype Stored = Absent | Unparsable | Parsed(value: Json)

  /** What a type guard does with one element: accept it, reject it, or throw
      (reading a property of `null`, whose `typeof` is 'object'). */
  datatype Verdict = Pass | Fail | Throw

  /** `obj[key]`; None is `undefined`. */
  function Get(fields: map<string, Json>, key: string): (r: Option<Json>)
    ensures r.Some? <==> key in fields
  {
    if key in fields then Some(fields[key]) else None
  }

  /** `typeof v === 'string'`. */
  predicate IsString(v: Option<Json>)
  {
    v.Some? && v.value.JStr?
  }

  /** JavaScript truthiness (`undefined` is falsy). */
  predicate Truthy(v: Option<Json>)
  {
    match v
    case None => false
    case Some(JNull) => false
    case Some(JBool(b)) => b
    case Some(JNum(n)) => n != 0
    case Some(JStr(s)) => s != ""
    case Some(JArr(_)) => true
    case Some(JObj(_)) => true
  }

  /** The text of a string field, "" otherwise. */
  function StringOr(v: Option<Json>): string
  {
    if v.Some? && v.value.JStr? then v.value.s else ""
  }
}

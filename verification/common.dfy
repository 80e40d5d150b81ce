/** Shared vocabulary of the WellnessSpace model: optional values, results
    carrying either a value or a thrown error, the JSON values that appear in
    response envelopes, and the values a request body may hold. */
module Common {

  datatype Option<+T> = None | Some(value: T)

  /** The outcome of a request handler: a value, or the object it throws
      (which the error middleware turns into an HTTP reply). */
  datatype Result<+T, +E> = Ok(value: T) | Err(error: E)

  /** The JSON values that appear in envelopes (`errors`, `data`). */
  datatype Json = JNull | JBool(b: bool) | JNum(n: int) | JStr(s: string) | JArr(items: seq<Json>)

  /** A value of a parsed request body: the client only ever sends strings
      and lists of strings. */
  datatype Value = Str(s: string) | StrList(items: seq<string>)

  /** A user id (an ObjectId, opaque here). */
  type UserId = string

  /** A parsed JSON request body; a key that JavaScript left `undefined` is
      dropped by JSON serialisation and is simply absent here. */
  type Body = map<string, Value>

  /** JavaScript truthiness of a body value: the empty string is falsy, every
      array (even an empty one) is truthy. */
  predicate Truthy(v: Value)
  {
    match v
    case Str(s) => s != ""
    case StrList(_) => true
  }

  /** `body.key` is truthy: present and truthy (an absent key reads `undefined`). */
  predicate FieldTruthy(body: Body, key: string)
  {
    key in body && Truthy(body[key])
  }
}

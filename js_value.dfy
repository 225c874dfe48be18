/** The JavaScript values the client receives: decoded JSON payloads, thrown values and call outcomes. */
module JsValue {

  /** A value produced by JSON.parse. Objects are maps, so a repeated key keeps its last value, as JSON.parse does. */
  datatype Json =
    | JNull
    | JBool(b: bool)
    | JNumber(literal: string)
    | JString(s: string)
    | JArray(items: seq<Json>)
    | JObject(fields: map<string, Json>)

  /** Whether an object's property is present and neither null nor undefined (the test `??` makes). */
  predicate HasValue(fields: map<string, Json>, key: string) {
    key in fields && fields[key] != JNull
  }

  /** What a `throw` carries: an Error instance with its message, or some other value. */
  datatype Thrown = ErrorObject(message: string) | NonError

  /** How a call ended: it returned a value, or it threw. */
  datatype Completion<+T> = Normal(value: T) | Abrupt(thrown: Thrown)
}

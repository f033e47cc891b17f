/**
 * Responses as the controllers and middleware build them: a JSON body with an
 * HTTP status, or an error that the framework's exception handler renders
 * (an `abort(403)` or a failed request validation), whose body is not modelled.
 */
module Http {
  import opened Wrappers

  /** A JSON value as PHP's json_encode writes an array: objects keep key order. */
  datatype Json =
    | JString(s: string)
    | JInt(n: int)
    | JList(items: seq<Json>)
    | JObject(fields: seq<(string, Json)>)
      /** The localised text for a translation key; the text itself is not modelled. */
    | JTranslated(key: string)

  datatype Response =
    | JsonResponse(status: nat, body: Json)
    | Aborted(status: nat)

  function StatusOf(r: Response): nat
  {
    match r
    case JsonResponse(status, _) => status
    case Aborted(status) => status
  }

  /** The value stored under `key` in a list of object fields (first occurrence). */
  function Lookup(fields: seq<(string, Json)>, key: string): Option<Json>
  {
    if |fields| == 0 then None
    else if fields[0].0 == key then Some(fields[0].1)
    else Lookup(fields[1..], key)
  }

  /** The member `key` of a response's JSON object body, if there is one. */
  function Member(r: Response, key: string): Option<Json>
  {
    if r.JsonResponse? && r.body.JObject? then Lookup(r.body.fields, key) else None
  }

  /** `response()->json(['message' => text], status)` */
  function MessageResponse(status: nat, text: string): Response
  {
    JsonResponse(status, JObject([("message", JString(text))]))
  }

  /**
   * What a middleware decides: hand the request on to the next handler, or
   * answer it itself without calling that handler.
   */
  datatype Gate = Continue | Reject(response: Response)

  /** The response a gate produces when the next handler would answer `next`. */
  function Run(g: Gate, next: Response): Response
  {
    match g
    case Continue => next
    case Reject(r) => r
  }
}

/** Values shared by every handler: optional request fields, document ids,
    the reply a handler sends, and JavaScript's truthiness of the values a
    request body carries. */
module Common {

  /** A request-body field: `None` is a field the body does not have. */
  datatype Option<+T> = None | Some(value: T)

  /** Identifier of a stored document (the store's `_id`). */
  type Id = nat

  /** What a handler answers: the HTTP status, the `message` field of the
      JSON body when the body has one, and the JSON payload when it has one. */
  datatype Response<T> = Response(status: nat, message: Option<string>, payload: Option<T>)

  /** A reply whose JSON body is `{ message }` only. */
  function Message<T>(status: nat, message: string): Response<T>
  {
    Response(status, Some(message), None)
  }

  /** A reply whose JSON body is the payload itself. */
  function Json<T>(status: nat, payload: T): Response<T>
  {
    Response(status, None, Some(payload))
  }

  /** The body of every reply to an exception caught by a handler. */
  const ServerError := "Server error"

  /** A string field is truthy when it is present and not empty. */
  predicate TruthyString(v: Option<string>)
  {
    v.Some? && v.value != ""
  }

  /** A numeric field is truthy when it is present and not zero. */
  predicate TruthyNumber(v: Option<int>)
  {
    v.Some? && v.value != 0
  }

  /** `v || fallback` for a fallback that is a plain string. */
  function OrString(v: Option<string>, fallback: string): string
  {
    if TruthyString(v) then v.value else fallback
  }

  /** `v || fallback` for a fallback that may itself be missing. */
  function OrOptString(v: Option<string>, fallback: Option<string>): Option<string>
  {
    if TruthyString(v) then v else fallback
  }

  /** `v || fallback` for numbers. */
  function OrNumber(v: Option<int>, fallback: Option<int>): Option<int>
  {
    if TruthyNumber(v) then v else fallback
  }
}

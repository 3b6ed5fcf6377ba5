/** What a route handler hands back to FastAPI: a JSON body, or an `HTTPException`. */
module Http {
  import opened Common
  import opened Values

  datatype Outcome<T> = Ok(value: T) | HttpError(status: int, detail: string)

  /** The FastAPI answer to an exception the handler does not catch. */
  const InternalError: Outcome<Value> := HttpError(500, "Internal Server Error")

  /** The body `{"message": text}`. */
  function Message(text: string): (r: Value)
    ensures r.Dict? && Lookup(r.entries, "message") == Some(Str(text))
  {
    Dict([("message", Str(text))])
  }
}

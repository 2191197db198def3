/** The outcome of an awaited `fetch(...)` followed by `res.json()`, as seen by a
    `try`/`catch` in the components. The network and the server are not
    modelled: a reply is an input. */
module Http {

  /** A value caught by `catch (err)`: an `Error` object carries a message,
      anything else does not. */
  datatype Thrown = ErrorObject(message: string) | NonError

  /** `err instanceof Error ? err.message : fallback`, as every `catch` block
      of the forms computes its user-visible message. */
  function CaughtMessage(t: Thrown, fallback: string): (r: string)
    ensures t.ErrorObject? ==> r == t.message
    ensures t.NonError? ==> r == fallback
  {
    match t
    case ErrorObject(m) => m
    case NonError => fallback
  }

  /** Either the request (or the parsing of its JSON body) threw, or the server
      replied with a status flag and a parsed body. */
  datatype Reply<B> = Threw(thrown: Thrown) | Replied(ok: bool, body: B)
}

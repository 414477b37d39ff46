/** Shared result shapes: an optional value, an HTTP-style response, and a
    handler reply that pairs the store after the call with the response sent. */
module Common {

  /** A value that may be missing (`null` / `undefined` in the source). */
  datatype Option<+T> = None | Some(value: T) {

    /** The value, or `default` when missing (the source's `x || default` on objects). */
    function GetOr(default: T): T {
      match this
      case Some(v) => v
      case None => default
    }
  }

  /** What a route handler sends back: a status code with a body, or a status
      code with the `{ message }` error object. */
  datatype Response<+T> =
    | Ok(status: int, body: T)
    | Error(status: int, message: string)

  /** A handler run against a store: the store it leaves behind and the response. */
  datatype Reply<S, +T> = Reply(store: S, response: Response<T>)

  /** JavaScript truthiness of a string: only the empty string is falsy. */
  predicate Truthy(s: string) {
    s != ""
  }

  /** `a || b` on strings. */
  function OrElse(a: string, b: string): (r: string)
    ensures Truthy(a) ==> r == a
    ensures !Truthy(a) ==> r == b
  {
    if a != "" then a else b
  }

  /** A failed request as the pages see it: the server's `{ message }` when
      the response carried one, and the client-side error text. */
  datatype FetchError = FetchError(serverMessage: Option<string>, message: string)

  /** `error.response && error.response.data.message ? that message : error.message`. */
  function ErrorText(e: FetchError): (r: string)
    ensures e.serverMessage.Some? && Truthy(e.serverMessage.value) ==> r == e.serverMessage.value
    ensures e.serverMessage.None? || !Truthy(e.serverMessage.value) ==> r == e.message
  {
    if e.serverMessage.Some? && Truthy(e.serverMessage.value) then e.serverMessage.value else e.message
  }
}

/** Option and Result, the two failure-carrying shapes the model needs. */
module Wrappers {
  datatype Option<+T> = None | Some(value: T)

  datatype Result<+T, +E> = Ok(value: T) | Err(error: E)
}

/** Document identifiers (Mongo ObjectIds) are opaque: only equality and freshness matter. */
module Ids {
  type Id = nat
}

/** What an Express handler sends back: a status code and either a message or a JSON payload. */
module Http {
  const OK := 200
  const CREATED := 201
  const BAD_REQUEST := 400
  const UNAUTHORIZED := 401
  const FORBIDDEN := 403
  const NOT_FOUND := 404
  const SERVER_ERROR := 500

  /** A `{ message }` object, a validator's list of issues, or a JSON document. */
  datatype Body<+T> = Message(text: string) | Issues(messages: seq<string>) | Payload(value: T)

  datatype Reply<+T> = Reply(status: nat, body: Body<T>)

  function Fail<T>(status: nat, text: string): Reply<T> { Reply(status, Message(text)) }
}

/** What a route handler sends back: a status code with a JSON result, or a status code with `{ error }`. */
module Http {

  datatype Reply<T> = Ok(status: int, value: T) | Err(status: int, message: string)

  /** The message of every `catch` branch that answers 500. */
  const ServerError: string := "Server error"
}

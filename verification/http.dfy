/** What a route handler sends back: an HTTP status and either the JSON value it returns or the
    message it reports in `{ error }`. */
module Http {
  import opened Wrappers

  datatype Reply<T> = Reply(status: int, body: Result<T>)
}

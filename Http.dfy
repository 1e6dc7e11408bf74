/** What a handler sends back: a status code and a JSON payload, or nothing
    at all. */
module Http {
  import opened Optional
  import opened Datastore

  const OK := 200
  const BAD_REQUEST := 400
  const NOT_FOUND := 404
  const SERVER_ERROR := 500

  /** The JSON bodies the handlers send. `Row(None)` is `res.json(null)`. */
  datatype Payload<R> =
    | Message(text: string)
    | Rows(rows: map<int, R>)
    | Row(row: Option<Record<R>>)
    | MessageAndRow(text: string, row: Option<Record<R>>)

  /** `NoReply` is a handler that never calls `res`. */
  datatype Reply<R> = Reply(status: int, payload: Payload<R>) | NoReply
}

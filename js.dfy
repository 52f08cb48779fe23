/** Values that cross the boundary of every handler: optional JSON request
    fields, the errors thrown by collaborators, and the HTTP response that a
    handler assigns to `context.res`. */
module Js {

  datatype Option<+T> = None | Some(value: T)

  /** An error object thrown by the face service, the database or the runtime:
      its `code` (empty when the thrower sets none) and its `message`. */
  datatype Error = Error(code: string, message: string)

  /** What an awaited call into a collaborator did: it gave back a value, or it threw. */
  datatype Outcome<+T> = Returned(value: T) | Threw(error: Error)

  /** The `{ status, body }` object a handler assigns to `context.res`. */
  datatype Response<+B> = Response(status: int, body: B)

  /** JavaScript truthiness of an optional JSON string field:
      a missing field, `null` and `""` are all falsy. */
  predicate Truthy(field: Option<string>) {
    field.Some? && field.value != ""
  }

  /** JavaScript truthiness of an optional numeric id: missing, `null` and `0` are falsy. */
  predicate TruthyId(field: Option<int>) {
    field.Some? && field.value != 0
  }

  /** JavaScript truthiness of an optional boolean flag. */
  predicate TruthyFlag(field: Option<bool>) {
    field == Some(true)
  }
}

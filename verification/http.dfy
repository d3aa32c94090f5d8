/** What a handler writes back: a status code and either a JSON payload or a
    JSON object whose `error` field holds a message. */
module Http {

  const StatusOK := 200
  const StatusCreated := 201
  const StatusBadRequest := 400
  const StatusUnauthorized := 401
  const StatusNotFound := 404
  const StatusConflict := 409
  const StatusInternalServerError := 500

  datatype Response<+T> =
    | Success(status: nat, payload: T)
    | Failure(status: nat, error: string)

  /** Stand-in for the text of a request-binding error (malformed JSON or a
      failed `binding` tag); the validator's exact wording is not modelled. */
  const BindingError := "invalid request body"
}

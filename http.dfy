/** What a gin handler or middleware writes back: a status code and a body. */
module Http {
  const StatusOK: int := 200
  const StatusCreated: int := 201
  const StatusNoContent: int := 204
  const StatusBadRequest: int := 400
  const StatusUnauthorized: int := 401
  const StatusNotFound: int := 404
  const StatusInternalServerError: int := 500

  /** A JSON value of the handler's own type, an `{"error": ...}` object, or no body. */
  datatype Body<+T> = Json(value: T) | ErrorJson(error: string) | NoBody

  datatype Reply<+T> = Reply(status: int, body: Body<T>)

  /** `c.JSON(status, ErrorResponse{Error: message})`. */
  function Fail<T>(status: int, message: string): Reply<T> {
    Reply(status, ErrorJson(message))
  }
}

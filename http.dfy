/** The part of net/http a handler's outcome is made of: a status and a body. */
module Http {
  import opened Model

  const StatusOK := 200
  const StatusCreated := 201
  const StatusBadRequest := 400
  const StatusUnauthorized := 401
  const StatusNotFound := 404
  const StatusInternalServerError := 500

  /** A plain-text body written by http.Error, or a value written by json.Encoder. */
  datatype Body = Text(text: string) | JsonBody(value: Json)

  datatype Response = Response(status: int, body: Body)

  /** http.Error: the message followed by a newline, as a plain-text body. */
  function HttpError(message: string, status: int): (r: Response)
    ensures r.status == status && r.body.Text?
    ensures r.body.text == message + "\n"
  {
    Response(status, Text(message + "\n"))
  }
}

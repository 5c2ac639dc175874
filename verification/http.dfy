/** The HTTP status codes the service writes and their reason phrases,
    as registered in RFC 9110 (sections 15.3.1, 15.5.1, 15.5.5 and 15.6.1). */
module Http {

  const StatusOK := 200
  const StatusBadRequest := 400
  const StatusNotFound := 404
  const StatusInternalServerError := 500

  /** `http.StatusText`: the reason phrase of a code, or "" for a code it does not know. */
  function StatusText(code: int): string {
    if code == StatusOK then "OK"
    else if code == StatusBadRequest then "Bad Request"
    else if code == StatusNotFound then "Not Found"
    else if code == StatusInternalServerError then "Internal Server Error"
    else ""
  }
}

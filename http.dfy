/**
 * The HTTP error an endpoint raises (FastAPI's HTTPException): a status
 * code and a detail message.
 */
module Http {
  datatype HttpError = HttpError(status: int, detail: string)

  const SessionNotFound: HttpError := HttpError(404, "Session not found")
}

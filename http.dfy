/** The HTTP error an endpoint raises (FastAPI's `HTTPException`). */
module Http {

  /** A status code and the `detail` text sent to the client. */
  datatype HttpError = HttpError(status: nat, detail: string)
}

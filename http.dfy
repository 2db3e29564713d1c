/** FastAPI's `HTTPException`: a status code and the detail message sent to the caller. */
module Http {
  datatype HttpError = HttpError(status: int, detail: string)
}

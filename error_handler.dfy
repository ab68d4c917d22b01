/** errorhandlers/errorHandler.js: the mapping from a thrown error to the
    status code and the `{ msg }` body of the response. Writing the response
    itself is I/O and is not part of this model. */
module ErrorHandler {
  import opened Wrappers
  import opened Errors

  const DefaultMessage := "Something went wrong try again later"
  const ValidationMessage := "Mongoose validation error."
  const CastMessage := "Nothing found for your request in the database."

  /** The response body carries `msg` and nothing else. */
  datatype Body = Body(msg: string)
  datatype Response = Response(status: int, body: Body)

  /** `err.statusCode || INTERNAL_SERVER_ERROR`: undefined and 0 are falsy. */
  function StatusOrDefault(code: Option<int>): int {
    if code.Some? && code.value != 0 then code.value else INTERNAL_SERVER_ERROR
  }

  /** `err.message || '...'`: undefined and the empty string are falsy. */
  function MessageOrDefault(message: Option<string>): string {
    if message.Some? && message.value != "" then message.value else DefaultMessage
  }

  /** The local `customError` is built from the error and then overwritten by
      the two name tests, in source order. */
  function HandleError(err: Error): (r: Response)
    ensures r.status != 0 && r.body.msg != ""
    ensures err.name == ValidationError ==> r == Response(BAD_REQUEST, Body(ValidationMessage))
    ensures err.name == CastError ==> r == Response(NOT_FOUND, Body(CastMessage))
    ensures err.name == GeneralError && err.statusCode.None? ==> r.status == INTERNAL_SERVER_ERROR
    ensures err.name == GeneralError && err.message.None? ==> r.body.msg == DefaultMessage
  {
    var status := StatusOrDefault(err.statusCode);
    var msg := MessageOrDefault(err.message);
    var (status, msg) := if err.name == ValidationError then (BAD_REQUEST, ValidationMessage) else (status, msg);
    var (status, msg) := if err.name == CastError then (NOT_FOUND, CastMessage) else (status, msg);
    Response(status, Body(msg))
  }

  /** Any error other than the two Mongoose kinds keeps its own status code and
      message whenever both are present and truthy; so every `CustomError` the
      core raises reaches the client as raised. */
  lemma CustomErrorsPassThrough(message: string, code: int)
    requires message != "" && code != 0
    ensures HandleError(Custom(message, code)) == Response(code, Body(message))
  {
  }

  /** A `ValidationError` is reported as 400 whatever status code it carries. */
  lemma ValidationIgnoresOwnStatus(err: Error, code: int)
    requires err.name == ValidationError
    ensures HandleError(err) == HandleError(err.(statusCode := Some(code)))
  {
  }

  /** The status is either the error's own truthy status code or one of the
      three the handler supplies. */
  lemma StatusIsOwnOrFixed(err: Error)
    ensures var s := HandleError(err).status;
      s in {BAD_REQUEST, NOT_FOUND, INTERNAL_SERVER_ERROR} || (err.statusCode == Some(s) && s != 0)
  {
  }
}

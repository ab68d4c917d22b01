/** The errors the core throws: a `CustomError(message, statusCode)` as raised
    by every guard, and the two Mongoose error kinds the error handler singles
    out. Status codes are those of the http-status-codes package. */
module Errors {
  import opened Wrappers

  const BAD_REQUEST := 400
  const UNAUTHORIZED := 401
  const NOT_FOUND := 404
  const INTERNAL_SERVER_ERROR := 500

  /** The `name` of a thrown error, as far as the error handler looks at it. */
  datatype ErrorName = ValidationError | CastError | GeneralError

  /** A thrown error; `statusCode` and `message` may be absent (undefined). */
  datatype Error = Error(name: ErrorName, statusCode: Option<int>, message: Option<string>)

  /** `new CustomError(message, statusCode)`. */
  function Custom(message: string, statusCode: int): Error {
    Error(GeneralError, Some(statusCode), Some(message))
  }

  /** What `findById` throws when handed text that is not an ObjectId. */
  const CastFailure := Error(CastError, None, Some("Cast to ObjectId failed"))

  /** `catch (e) { throw new CustomError(e.message, e.statusCode) }`, the
      re-wrapping done by every static of models/User.js. */
  function Rewrap(e: Error): (r: Error)
    ensures r.name == GeneralError && r.statusCode == e.statusCode && r.message == e.message
    ensures e.name == GeneralError ==> r == e
  {
    Error(GeneralError, e.statusCode, e.message)
  }

  type Res<T> = Result<T, Error>
}

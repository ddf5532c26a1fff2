/**
 * The application-wide error middleware: a chain of checks, tried in order,
 * that turns an error reaching Express into a status code and a JSON message.
 */
module ErrorHandler {
  import opened Wrappers

  /** What the middleware inspects of an error object: whether it is a
      `multer.MulterError`, its `code` (absent on most errors), its `name` and
      its `message`. */
  datatype Failure = Failure(isMulterError: bool, code: Option<string>, name: string, message: string)

  /** The response: a status code, the `message` field, and the `error` field
      that only development mode adds. */
  datatype ErrorReply = ErrorReply(status: int, message: string, error: Option<string>)

  const FileTooLargeMessage := "File too large. Maximum size is 5MB."
  const TooManyFilesMessage := "Too many files uploaded."
  /** The message the upload filter's error carries. */
  const ImageOnlyMessage := "Only image files are allowed"
  const InvalidTokenMessage := "Invalid token"
  const TokenExpiredMessage := "Token expired"
  const InternalErrorMessage := "Internal server error"

  predicate IsFileTooLarge(err: Failure) {
    err.isMulterError && err.code == Some("LIMIT_FILE_SIZE")
  }

  predicate IsTooManyFiles(err: Failure) {
    err.isMulterError && err.code == Some("LIMIT_FILE_COUNT")
  }

  /** One of the five checks of the chain applies to `err`. */
  predicate IsRecognised(err: Failure) {
    || IsFileTooLarge(err) || IsTooManyFiles(err)
    || err.message == ImageOnlyMessage
    || err.name == "JsonWebTokenError" || err.name == "TokenExpiredError"
  }

  /** `errorHandler`; `nodeEnv` is `process.env.NODE_ENV`. */
  function HandleError(err: Failure, nodeEnv: Option<string>): (r: ErrorReply)
    ensures r.status == 400 || r.status == 401 || r.status == 500
    ensures r.status == 500 <==> !IsRecognised(err)
    ensures r.error.Some? <==> r.status == 500 && nodeEnv == Some("development")
    ensures r.error.Some? ==> r.error.value == err.message
  {
    if err.isMulterError && err.code == Some("LIMIT_FILE_SIZE") then
      ErrorReply(400, FileTooLargeMessage, None)
    else if err.isMulterError && err.code == Some("LIMIT_FILE_COUNT") then
      ErrorReply(400, TooManyFilesMessage, None)
    else if err.message == ImageOnlyMessage then
      ErrorReply(400, err.message, None)
    else if err.name == "JsonWebTokenError" then
      ErrorReply(401, InvalidTokenMessage, None)
    else if err.name == "TokenExpiredError" then
      ErrorReply(401, TokenExpiredMessage, None)
    else
      ErrorReply(500, InternalErrorMessage, if nodeEnv == Some("development") then Some(err.message) else None)
  }

  /** The two multer limits give 400 with their fixed messages, whatever the
      error's name and message say. */
  lemma MulterLimitsAre400(err: Failure, nodeEnv: Option<string>)
    ensures IsFileTooLarge(err) ==> HandleError(err, nodeEnv) == ErrorReply(400, FileTooLargeMessage, None)
    ensures IsTooManyFiles(err) ==> HandleError(err, nodeEnv) == ErrorReply(400, TooManyFilesMessage, None)
  {
  }

  /** A non-limit error with the upload filter's message gives 400 echoing it,
      even when its name is one of the token errors. */
  lemma ImageOnlyIs400(err: Failure, nodeEnv: Option<string>)
    requires !IsFileTooLarge(err) && !IsTooManyFiles(err) && err.message == ImageOnlyMessage
    ensures HandleError(err, nodeEnv) == ErrorReply(400, ImageOnlyMessage, None)
  {
  }

  /** The two token errors give 401, told apart by their messages. */
  lemma TokenErrorsAre401(err: Failure, nodeEnv: Option<string>)
    requires !IsFileTooLarge(err) && !IsTooManyFiles(err) && err.message != ImageOnlyMessage
    ensures err.name == "JsonWebTokenError" ==> HandleError(err, nodeEnv) == ErrorReply(401, InvalidTokenMessage, None)
    ensures err.name == "TokenExpiredError" ==> HandleError(err, nodeEnv) == ErrorReply(401, TokenExpiredMessage, None)
  {
  }

  /** A multer error with any other code is not answered by the multer checks:
      it is classified exactly as the same error without multer's class. */
  lemma OtherMulterCodesFallThrough(err: Failure, nodeEnv: Option<string>)
    requires err.isMulterError && err.code != Some("LIMIT_FILE_SIZE") && err.code != Some("LIMIT_FILE_COUNT")
    ensures HandleError(err, nodeEnv) == HandleError(err.(isMulterError := false), nodeEnv)
  {
  }

  /** Everything else is a 500 whose detail is shown only in development mode. */
  lemma FallbackIs500(err: Failure, nodeEnv: Option<string>)
    requires !IsRecognised(err)
    ensures HandleError(err, nodeEnv).status == 500
    ensures HandleError(err, nodeEnv).message == InternalErrorMessage
    ensures HandleError(err, nodeEnv).error == if nodeEnv == Some("development") then Some(err.message) else None
  {
  }
}

/**
 * The server's Express error handler: every error that reaches it becomes an
 * `ApiError`, is logged at a level chosen by its status, and is answered with
 * a JSON body whose code is the status sent.
 */
module ServerErrors {
  import opened Wrappers

  /**
   * A value reaching the error handler: an `ApiError` with its HTTP status,
   * or any other `Error`. `stack` is the `stack` property, when set.
   */
  datatype ServerError =
    | ApiError(statusCode: int, message: string, stack: Option<string>)
    | OtherError(message: string, stack: Option<string>)

  datatype Level = LogError | LogWarn

  /** One call of the logger: level, label and the logged fields. */
  datatype LogEntry = LogEntry(level: Level, title: string, error: string, stack: Option<string>,
                               path: string, verb: string)

  /** The JSON body `{ code, message, stack? }`; an absent `stack` is left out by `res.json`. */
  datatype Body = Body(code: int, message: string, stack: Option<string>)

  /** What the handler does: the status it sends, the body, the log entry. */
  datatype Reply = Reply(status: int, body: Body, log: LogEntry)

  const InternalServerError := "Internal Server Error"
  const Development := "development"

  /**
   * A non-`ApiError` becomes a 500 `ApiError` that hides its message and
   * keeps its stack; an `ApiError` is used as it is.
   */
  function AsApiError(err: ServerError): (r: ServerError)
    ensures r.ApiError?
    ensures err.ApiError? ==> r == err
    ensures err.OtherError? ==> r.statusCode == 500 && r.message == InternalServerError
    ensures r.stack == err.stack
  {
    match err
    case ApiError(_, _, _) => err
    case OtherError(_, stack) => ApiError(500, InternalServerError, stack)
  }

  /** `errorHandler(err, req, res, next)` in environment `env` for a request to `path` with HTTP method `verb`. */
  function HandleError(err: ServerError, env: string, path: string, verb: string): (r: Reply)
    ensures r.status == r.body.code
    ensures err.ApiError? ==> r.status == err.statusCode && r.body.message == err.message
    ensures err.OtherError? ==> r.status == 500 && r.body.message == InternalServerError
    ensures r.body.stack == if env == Development then err.stack else None
    ensures r.log.level == LogError <==> r.status >= 500
    ensures r.log.error == r.body.message && r.log.path == path && r.log.verb == verb
    ensures r.log.stack == if r.status >= 500 then err.stack else None
  {
    var e := AsApiError(err);
    var body := Body(e.statusCode, e.message, if env == Development then e.stack else None);
    var log :=
      if e.statusCode >= 500 then LogEntry(LogError, "Server Error:", e.message, e.stack, path, verb)
      else LogEntry(LogWarn, "Client Error:", e.message, None, path, verb);
    Reply(e.statusCode, body, log)
  }

  /** Handling is unchanged by first converting the error: conversion is idempotent. */
  lemma ConversionIsIdempotent(err: ServerError, env: string, path: string, verb: string)
    ensures AsApiError(AsApiError(err)) == AsApiError(err)
    ensures HandleError(AsApiError(err), env, path, verb) == HandleError(err, env, path, verb)
  {
  }

  /**
   * Outside development, the body sent for an unexpected error says nothing
   * about it: any two such errors get the same status and body.
   */
  lemma UnexpectedErrorsAreIndistinguishable(m1: string, s1: Option<string>, m2: string, s2: Option<string>,
                                             env: string, path: string, verb: string)
    requires env != Development
    ensures var a := HandleError(OtherError(m1, s1), env, path, verb);
            var b := HandleError(OtherError(m2, s2), env, path, verb);
            a.status == b.status == 500 && a.body == b.body == Body(500, InternalServerError, None)
  {
  }

  /** A client error (status below 500) is passed through and logged as a warning without its stack. */
  lemma ClientErrorPassesThrough(code: int, message: string, stack: Option<string>, env: string,
                                 path: string, verb: string)
    requires code < 500
    ensures var r := HandleError(ApiError(code, message, stack), env, path, verb);
            && r.status == code
            && r.body == Body(code, message, if env == Development then stack else None)
            && r.log == LogEntry(LogWarn, "Client Error:", message, None, path, verb)
  {
  }
}

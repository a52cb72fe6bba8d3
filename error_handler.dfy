/** The Express error handler: the status it sets and the JSON body it sends. */
module ErrorHandler {
  import opened Optional

  /** The fields of the thrown error the handler reads; `statusCode` 0 stands for a
      missing or falsy `err.statusCode`, "" for a missing message or stack. */
  datatype HttpError = HttpError(statusCode: int, message: string, stack: string, details: Option<string>)

  datatype ErrorBody = ErrorBody(message: string, stack: Option<string>, details: Option<string>)

  const DefaultMessage := "An unexpected error occurred."

  /** `err.statusCode || res.statusCode === 200 ? 500 : res.statusCode`, which parses as
      `(err.statusCode || res.statusCode === 200) ? 500 : res.statusCode`. */
  function StatusAsWritten(errStatus: int, resStatus: int): (s: int)
    ensures errStatus != 0 ==> s == 500
    ensures resStatus == 200 ==> s == 500
    ensures errStatus == 0 && resStatus != 200 ==> s == resStatus
  {
    if errStatus != 0 || resStatus == 200 then 500 else resStatus
  }

  /** The handler as written never passes on an error's own status code: a 404 error
      thrown on an untouched response is answered with 500. */
  lemma OwnStatusIgnored()
    ensures StatusAsWritten(404, 200) == 500
    ensures exists e :: e != 0 && e != 500 && StatusAsWritten(e, 200) != e
  {
    assert StatusAsWritten(404, 200) != 404;
  }

  /** The evident intent, `err.statusCode || (res.statusCode === 200 ? 500 : res.statusCode)`:
      an error's own status wins, an untouched 200 becomes 500, any other status set
      earlier stays. */
  function Status(errStatus: int, resStatus: int): (s: int)
    ensures errStatus != 0 ==> s == errStatus
    ensures errStatus == 0 && resStatus == 200 ==> s == 500
    ensures errStatus == 0 && resStatus != 200 ==> s == resStatus
  {
    if errStatus != 0 then errStatus else if resStatus == 200 then 500 else resStatus
  }

  /** The two readings agree exactly when the error carries no status of its own or
      carries 500 itself. */
  lemma StatusReadingsAgree(errStatus: int, resStatus: int)
    ensures StatusAsWritten(errStatus, resStatus) == Status(errStatus, resStatus)
            <==> errStatus == 0 || errStatus == 500
  {
  }

  /** The JSON body: the message or a fixed fallback, the stack only in development,
      `details` when truthy and null otherwise. */
  function Body(err: HttpError, development: bool): (b: ErrorBody)
    ensures b.message != ""
    ensures err.message != "" ==> b.message == err.message
    ensures b.stack.Some? <==> development
    ensures b.stack.Some? ==> b.stack.value == err.stack
    ensures b.details.Some? <==> err.details.Some? && err.details.value != ""
    ensures b.details.Some? ==> b.details == err.details
  {
    ErrorBody(if err.message != "" then err.message else DefaultMessage,
              if development then Some(err.stack) else None,
              if err.details.Some? && err.details.value != "" then err.details else None)
  }
}

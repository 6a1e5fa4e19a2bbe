/**
 * The submission channel's verdict. The request itself (a script element, a uniquely named
 * global callback, a 30-second timer) is transport; the model receives which of the three
 * completions happened first and classifies it as `submitSurvey`'s promise settles.
 */
module Submission {
  import opened Wrappers

  /** The value the collector passes to the callback. */
  datatype CallbackValue =
    | Falsy                                                      // undefined, null, ...
    | ResultObject(status: Option<string>, message: Option<string>)

  /** The first of the three completions of one request. */
  datatype TransportEvent =
    | CallbackInvoked(result: CallbackValue)   // the returned script called the callback
    | ScriptLoadError                          // the script element's `onerror`
    | TimerExpired                             // the 30-second timeout

  /** How the submission settled. */
  datatype SubmitResult =
    | Succeeded
    | Rejected(message: Option<string>)
    | NetworkError
    | TimedOut

  /** The rejection message used when the callback received no result. */
  const NO_RESULT_MESSAGE: string := "제출 실패"

  /**
   * Success exactly when the callback received a result whose `status` is "success"; any
   * other callback value is a rejection carrying `result.message`.
   */
  function Classify(ev: TransportEvent): (r: SubmitResult)
    ensures r.Succeeded? <==>
      ev.CallbackInvoked? && ev.result.ResultObject? && ev.result.status == Some("success")
    ensures r.Rejected? <==> ev.CallbackInvoked? && !r.Succeeded?
    ensures r.Rejected? && ev.result.ResultObject? ==> r.message == ev.result.message
    ensures r.Rejected? && ev.result.Falsy? ==> r.message == Some(NO_RESULT_MESSAGE)
    ensures r.NetworkError? <==> ev.ScriptLoadError?
    ensures r.TimedOut? <==> ev.TimerExpired?
  {
    match ev
    case CallbackInvoked(result) =>
      if result.ResultObject? && result.status == Some("success") then Succeeded
      else Rejected(if result.ResultObject? then result.message else Some(NO_RESULT_MESSAGE))
    case ScriptLoadError => NetworkError
    case TimerExpired => TimedOut
  }
}

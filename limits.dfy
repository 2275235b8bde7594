/** The request-size middleware and the rate-limit response of app.py. The limiter that
    decides when a client is over its rate is not part of this model; only the response
    it triggers is. */
module Limits {
  import opened Wrappers
  import Text
  import Uploads

  // ---------------------------------------------------------------------------
  // RequestSizeLimitMiddleware.dispatch (app.py:91-100)

  /** What the middleware does with a request: hand it on, answer it itself, or fail
      because `int` refused the header (an unhandled error, answered with a 500). */
  datatype Verdict = PassOn | Reject(status: int, detail: string) | Crash

  function SizeLimit(httpMethod: string, contentLength: Option<string>): Verdict {
    if httpMethod != "POST" || contentLength.None? || contentLength.value == [] then PassOn
    else
      var n := Text.ParseInt(contentLength.value);
      if n.None? then Crash
      else if n.value > Uploads.MAX_FILE_SIZE then Reject(413, "Request too large")
      else PassOn
  }

  /** A POST announcing more than the maximum upload size is refused with 413 and any
      other announced size passes; other methods always pass. */
  lemma SizeLimitDecides(httpMethod: string, length: int)
    ensures SizeLimit(httpMethod, Some(Text.IntToDecimal(length))) ==
      if httpMethod == "POST" && length > Uploads.MAX_FILE_SIZE then Reject(413, "Request too large") else PassOn
    ensures SizeLimit(httpMethod, None) == PassOn
  {
    Text.ParseIntRoundTrip(length);
  }

  /** The middleware answers a request itself only when it is a POST with a nonempty
      Content-Length header. */
  lemma SizeLimitOnlyStopsPosts(httpMethod: string, contentLength: Option<string>)
    ensures SizeLimit(httpMethod, contentLength) != PassOn ==>
      httpMethod == "POST" && contentLength.Some? && contentLength.value != []
  {
  }

  // ---------------------------------------------------------------------------
  // rate_limit_handler (app.py:111-128)

  const RETRY_PREFIX: string := "Too many requests. Please try again in "
  const RETRY_SUFFIX: string := " seconds."
  const RETRY_LATER: string := "Too many requests. Please try again later."

  /** The detail of the 429: the wait in seconds when the exception carries a nonzero
      `retry_after`, a generic text otherwise. */
  function RateLimitMessage(retryAfter: Option<int>): string {
    if retryAfter.Some? && retryAfter.value != 0 then RETRY_PREFIX + Text.IntToDecimal(retryAfter.value) + RETRY_SUFFIX
    else RETRY_LATER
  }

  /** A client's reading of the detail: the announced wait, if there is one. */
  function RetryAfterOf(message: string): Option<int> {
    if |message| >= |RETRY_PREFIX| + |RETRY_SUFFIX|
       && message[..|RETRY_PREFIX|] == RETRY_PREFIX
       && message[|message| - |RETRY_SUFFIX|..] == RETRY_SUFFIX
    then Text.ParseInt(message[|RETRY_PREFIX|..|message| - |RETRY_SUFFIX|])
    else None
  }

  /** The wait can be read back from the message exactly when one was announced. */
  lemma {:induction false} RateLimitMessageRoundTrip(retryAfter: Option<int>)
    ensures RetryAfterOf(RateLimitMessage(retryAfter)) ==
      if retryAfter.Some? && retryAfter.value != 0 then retryAfter else None
  {
    var m := RateLimitMessage(retryAfter);
    if retryAfter.Some? && retryAfter.value != 0 {
      var digits := Text.IntToDecimal(retryAfter.value);
      assert m[..|RETRY_PREFIX|] == RETRY_PREFIX;
      assert m[|m| - |RETRY_SUFFIX|..] == RETRY_SUFFIX;
      assert m[|RETRY_PREFIX|..|m| - |RETRY_SUFFIX|] == digits;
      Text.ParseIntRoundTrip(retryAfter.value);
    } else {
      assert |m| < |RETRY_PREFIX| + |RETRY_SUFFIX|;
    }
  }
}

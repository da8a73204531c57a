/**
 * How `handleSubmit` reads the outcome of its POSTs to the webhook: the first
 * attempt with its nested `try`/`catch` blocks, the single retry, and the choice
 * between success (with which reference id to show), the development fallback
 * and the final error message.
 */
module ResponseHandling {
  import opened JsText

  /** What `JSON.parse` returned, reduced to what the page looks at. */
  datatype Json =
    | JArray(length: nat)
      /** A non-array object: the truthiness of its `success` and its `referenceId` ("" when absent or falsy). */
    | JObject(success: bool, referenceId: string)
    | JNull
      /** A number, a string or a boolean. */
    | JScalar

  /**
   * The body of a response: `Unreadable` when reading it rejects, else its text
   * and what `JSON.parse` makes of that text (`None` when it throws).
   */
  datatype Body = Unreadable | Readable(text: string, json: Option<Json>)

  /**
   * One POST: `fetch` rejected (by the 30-second abort, or otherwise with an error
   * message), or a response arrived with a status, a status text and a body.
   */
  datatype Attempt =
    | Rejected(aborted: bool, reason: string)
    | Responded(status: nat, statusText: string, body: Body)

  /** What an attempt, or the whole submission, comes to: an id to show or a message. */
  datatype Outcome = Succeeded(shownId: string) | Failed(message: string)

  const TimeoutMessage := "Request timed out. The server took too long to respond."
  const UnreachableMessage := "Unable to connect to the server. Please check your internet connection."
  const UnprocessableMessage := "Could not process server response. Please try again later."
  const NoDetailsText := "No error details available"

  /** `response.ok` */
  predicate IsOk(status: nat) {
    200 <= status <= 299
  }

  /** An attempt `handleSubmit` can read a body from: a 2xx response whose text was read. */
  predicate IsReadableOk(a: Attempt) {
    a.Responded? && IsOk(a.status) && a.body.Readable?
  }

  /** The error the `.catch` on the first `fetch` throws. */
  function RejectionMessage(aborted: bool, reason: string): string {
    if aborted then TimeoutMessage
    else "Network error: " + (if reason != "" then reason else UnreachableMessage)
  }

  /** The error thrown for a response that is not ok. */
  function ServerErrorMessage(status: nat, statusText: string, body: Body): string {
    var errorText := if body.Readable? then body.text else NoDetailsText;
    "Server error (" + Decimal(status) + "): " +
      (if errorText != "" then errorText else if statusText != "" then statusText else "Unknown error")
  }

  /**
   * The inner `try` after a body was read: the id its success branch shows, or
   * `None` where it throws (parse failure, an unexpected value, or a record whose
   * `success` is falsy; an empty array is taken as such a record).
   */
  function InterpretJson(json: Option<Json>, generated: string): (r: Option<string>)
    ensures r.Some? && r.value != generated ==>
      json == Some(JObject(true, r.value)) && r.value != ""
  {
    match json
    case None => None
    case Some(JArray(n)) => if n > 0 then Some(generated) else None
    case Some(JObject(success, rid)) => if success then Some(if rid != "" then rid else generated) else None
    case Some(JNull) => None
    case Some(JScalar) => None
  }

  /**
   * The first attempt. A rejection, a status outside 2xx or an unreadable body
   * fail with their message; any readable 2xx body succeeds, since the `catch`
   * around the parsing tests the status again and `response.ok` already held.
   */
  function FirstAttempt(a: Attempt, generated: string): (o: Outcome)
    ensures o.Succeeded? <==> IsReadableOk(a)
    ensures a.Rejected? && a.aborted ==> o == Failed(TimeoutMessage)
    ensures a.Rejected? && !a.aborted && a.reason != "" ==> o == Failed("Network error: " + a.reason)
    ensures a.Rejected? && !a.aborted && a.reason == "" ==> o == Failed("Network error: " + UnreachableMessage)
    ensures a.Responded? && !IsOk(a.status) ==> o == Failed(ServerErrorMessage(a.status, a.statusText, a.body))
    ensures a.Responded? && IsOk(a.status) && a.body.Unreadable? ==> o == Failed(UnprocessableMessage)
    ensures o.Succeeded? && o.shownId != generated ==>
      a.body.json == Some(JObject(true, o.shownId)) && o.shownId != ""
    ensures IsReadableOk(a) && a.body.json.Some? && a.body.json.value.JObject? &&
            a.body.json.value.success && a.body.json.value.referenceId != "" ==>
      o == Succeeded(a.body.json.value.referenceId)
  {
    match a
    case Rejected(aborted, reason) => Failed(RejectionMessage(aborted, reason))
    case Responded(status, statusText, body) =>
      if !IsOk(status) then Failed(ServerErrorMessage(status, statusText, body))
      else
        match body
        case Unreadable => Failed(UnprocessableMessage)
        case Readable(_, json) =>
          match InterpretJson(json, generated)
          case Some(id) => Succeeded(id)
          case None =>
            // the catch re-tests the status; its other branch throws and is rewritten to the same message
            if 200 <= status < 300 then Succeeded(generated) else Failed(UnprocessableMessage)
  }

  /**
   * The single retry (no timeout): it succeeds on any 2xx response whose body
   * `response.json()` parses to something other than `null` (reading
   * `referenceId` of `null` throws), showing a non-empty `referenceId` of an
   * object, else the generated id.
   */
  function RetryAttempt(a: Attempt, generated: string): (r: Option<string>)
    ensures r.Some? <==> IsReadableOk(a) && a.body.json.Some? && a.body.json.value != JNull
    ensures r.Some? && r.value != generated ==>
      a.body.json.value.JObject? && a.body.json.value.referenceId == r.value
    ensures IsReadableOk(a) && a.body.json.Some? && a.body.json.value.JObject? && a.body.json.value.referenceId != "" ==>
      r == Some(a.body.json.value.referenceId)
    ensures r.Some? && !(a.body.json.value.JObject? && a.body.json.value.referenceId != "") ==> r == Some(generated)
  {
    match a
    case Rejected(_, _) => None
    case Responded(status, _, body) =>
      if !IsOk(status) then None
      else
        match body
        case Unreadable => None
        case Readable(_, None) => None
        case Readable(_, Some(JNull)) => None
        case Readable(_, Some(JObject(_, rid))) => Some(if rid != "" then rid else generated)
        case Readable(_, Some(JArray(_))) => Some(generated)
        case Readable(_, Some(JScalar)) => Some(generated)
  }

  /**
   * The outcome of one submission: the first attempt; if it failed, one retry;
   * if that failed too, the development fallback with the generated id; else the
   * first attempt's message.
   */
  function Decide(first: Attempt, retry: Attempt, development: bool, generated: string): (o: Outcome)
    ensures o.Failed? <==>
      FirstAttempt(first, generated).Failed? && RetryAttempt(retry, generated).None? && !development
    ensures o.Failed? ==> o == FirstAttempt(first, generated)
    ensures FirstAttempt(first, generated).Succeeded? ==> o == FirstAttempt(first, generated)
    ensures FirstAttempt(first, generated).Failed? && RetryAttempt(retry, generated).Some? ==>
      o == Succeeded(RetryAttempt(retry, generated).value)
    ensures FirstAttempt(first, generated).Failed? && RetryAttempt(retry, generated).None? && development ==>
      o == Succeeded(generated)
  {
    match FirstAttempt(first, generated)
    case Succeeded(id) => Succeeded(id)
    case Failed(message) =>
      match RetryAttempt(retry, generated)
      case Some(id) => Succeeded(id)
      case None => if development then Succeeded(generated) else Failed(message)
  }

  /**
   * The id shown is the generated one unless the server supplied it: a
   * successful first response that is a non-array object with truthy `success`
   * and that `referenceId`, or a retried response that is an object with it.
   */
  lemma ShownIdOrigin(first: Attempt, retry: Attempt, development: bool, generated: string, shown: string)
    requires Decide(first, retry, development, generated) == Succeeded(shown)
    requires shown != generated
    ensures shown != ""
    ensures || (IsReadableOk(first) && first.body.json == Some(JObject(true, shown)))
            || (!IsReadableOk(first) && IsReadableOk(retry) && retry.body.json.Some? &&
                retry.body.json.value.JObject? && retry.body.json.value.referenceId == shown)
  {
  }

  /** A 2xx response carrying a JSON array shows the generated id, whatever the array holds. */
  lemma ArrayResponseShowsGeneratedId(status: nat, statusText: string, text: string, length: nat, retry: Attempt,
                                      development: bool, generated: string)
    requires IsOk(status)
    ensures Decide(Responded(status, statusText, Readable(text, Some(JArray(length)))), retry, development, generated)
         == Succeeded(generated)
  {
  }

  /** A 2xx object saying `success: false` still ends in success, with the generated id. */
  lemma RejectedRecordStillSucceeds(status: nat, statusText: string, text: string, rid: string, retry: Attempt, development: bool, generated: string)
    requires IsOk(status)
    ensures Decide(Responded(status, statusText, Readable(text, Some(JObject(false, rid)))), retry, development, generated)
         == Succeeded(generated)
  {
  }

  /**
   * A status outside 2xx, a failed retry and no fallback end in a message that
   * quotes the status and the body text, or the status text when the body is empty.
   */
  lemma ServerErrorReported(status: nat, statusText: string, body: Body, retry: Attempt, generated: string)
    requires !IsOk(status) && RetryAttempt(retry, generated).None?
    ensures body.Readable? && body.text != "" ==>
      Decide(Responded(status, statusText, body), retry, false, generated)
        == Failed("Server error (" + Decimal(status) + "): " + body.text)
    ensures body.Readable? && body.text == "" && statusText != "" ==>
      Decide(Responded(status, statusText, body), retry, false, generated)
        == Failed("Server error (" + Decimal(status) + "): " + statusText)
  {
  }
}

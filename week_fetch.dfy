/**
 * One call to the week generator as both week caches make it: the request
 * body, what the call can come back with, and how the `try`/`catch` turns
 * that into the week or an error message.
 */
module WeekFetch {
  import opened Wrappers
  import opened JsonValue

  /** The POST body: goal, time commitment, week number and total weeks; "" stands for a missing string. */
  datatype WeekRequest = WeekRequest(userGoal: string, timeCommitment: string, week: int, totalWeeks: int)

  /**
   * What the call came back with: a non-2xx response and the `error` field
   * of its body ("" when missing or empty), a 2xx response and its
   * `weekData` field, or a rejection (the network, or a body that is not
   * JSON) and its message.
   */
  datatype WeekReply =
    | Rejected(error: string)
    | Answered(weekData: Option<Json>)
    | Thrown(message: string)

  /** The week, or the message the `catch` stores. */
  datatype WeekOutcome = Loaded(week: Json) | Error(message: string)

  const FailedToGenerate := "Failed to generate week."
  const NoWeekData := "No week data found."
  const UnableToLoad := "Unable to load content for this week."

  /**
   * A non-2xx response throws its `error` or "Failed to generate week."; a
   * missing or falsy `weekData` throws "No week data found."; the `catch`
   * keeps a thrown message and falls back to "Unable to load content for
   * this week." for an empty one.
   */
  function Outcome(reply: WeekReply): (r: WeekOutcome)
    ensures r.Loaded? <==> reply.Answered? && OptTruthy(reply.weekData)
    ensures r.Loaded? ==> Truthy(r.week) && r.week == reply.weekData.value
    ensures r.Error? ==> r.message != ""
    ensures reply.Rejected? ==> r == Error(if reply.error != "" then reply.error else FailedToGenerate)
    ensures reply.Answered? && !OptTruthy(reply.weekData) ==> r == Error(NoWeekData)
    ensures reply.Thrown? ==> r == Error(if reply.message != "" then reply.message else UnableToLoad)
  {
    match reply
    case Rejected(error) => Error(if error != "" then error else FailedToGenerate)
    case Answered(weekData) => if OptTruthy(weekData) then Loaded(weekData.value) else Error(NoWeekData)
    case Thrown(message) => Error(if message != "" then message else UnableToLoad)
  }
}

/**
 * The weekly-data hook: a week comes from the memo map if there, else from
 * the plan row's stored `weeklyDetails` if the user and plan are known,
 * else from the generator; a generated week is merged into the stored plan
 * and memoised. The plan row is the one field `storedPlan` (`None` when the
 * row does not exist).
 */
module WeeklyData {
  import opened Wrappers
  import opened JsonValue
  import opened Text
  import opened WeekFetch

  /** How a call to the plan table went: an answer without error, an answer with an error, or a rejection. */
  datatype TableCall = Succeeded | ErrorReturned | Threw

  /** The stored week: `plan?.weeklyDetails?.[weekNumber]`, keyed by the number's decimal text. */
  function StoredWeek(plan: Json, weekNumber: int): (r: Option<Json>)
    ensures r.Some? <==>
      && plan.JObject? && "weeklyDetails" in plan.fields
      && plan.fields["weeklyDetails"].JObject? && IntToString(weekNumber) in plan.fields["weeklyDetails"].fields
    ensures r.Some? ==> r.value == plan.fields["weeklyDetails"].fields[IntToString(weekNumber)]
  {
    OptMember(Member(plan, "weeklyDetails"), IntToString(weekNumber))
  }

  /** `{...plan, weeklyDetails: {...plan.weeklyDetails, [weekNumber]: weekData}}`. */
  function MergeWeek(plan: Json, weekNumber: int, weekData: Json): (r: Json)
    ensures r.JObject?
  {
    var details := Spread(Member(plan, "weeklyDetails").GetOr(JNull));
    JObject(Spread(plan)["weeklyDetails" := JObject(details[IntToString(weekNumber) := weekData])])
  }

  /** The merged week is the one read back for that week number. */
  lemma MergedWeekIsStored(plan: Json, weekNumber: int, weekData: Json)
    ensures StoredWeek(MergeWeek(plan, weekNumber, weekData), weekNumber) == Some(weekData)
  {
  }

  /** A stored plan whose `weeklyDetails` is an object or absent, as the hook writes it. */
  predicate WellShaped(plan: Json) {
    plan.JObject? && (Member(plan, "weeklyDetails").Some? ==> Member(plan, "weeklyDetails").value.JObject?)
  }

  /** Merging a week keeps every other stored week as it was. */
  lemma MergeKeepsOtherWeeks(plan: Json, weekNumber: int, weekData: Json, other: int)
    requires other != weekNumber
    ensures StoredWeek(MergeWeek(plan, weekNumber, weekData), other) == StoredWeek(plan, other)
  {
    if IntToString(other) == IntToString(weekNumber) {
      IntToStringInjective(other, weekNumber);
    }
  }

  /** Merging a week keeps every other field of the plan as it was, and keeps the plan well shaped. */
  lemma MergeKeepsOtherFields(plan: Json, weekNumber: int, weekData: Json, key: string)
    requires plan.JObject? && key != "weeklyDetails"
    ensures Member(MergeWeek(plan, weekNumber, weekData), key) == Member(plan, key)
    ensures WellShaped(MergeWeek(plan, weekNumber, weekData))
  {
  }

  class WeeklyDataHook {
    /** The memo: weeks already loaded in this session, by week number. */
    var weeklyData: map<int, Json>
    var loading: bool
    var error: Option<string>
    /** The `plan` column of the plan row; `None` when the row does not exist. */
    var storedPlan: Option<Json>
    /** The signed-in user and the plan id; "" when missing. */
    const userId: string
    const planId: string

    predicate Valid()
      reads this
    {
      (forall w :: w in weeklyData ==> Truthy(weeklyData[w])) && !loading
    }

    constructor(user: string, plan: string, stored: Option<Json>)
      ensures Valid() && weeklyData == map[] && error.None? && storedPlan == stored
      ensures userId == user && planId == plan
    {
      weeklyData := map[];
      loading := false;
      error := None;
      storedPlan := stored;
      userId := user;
      planId := plan;
    }

    /** The stored plan is read and written only with both a user and a plan id. */
    predicate Linked()
      reads this
    {
      userId != "" && planId != ""
    }

    /** The week the stored-data lookup finds: only with a linked plan, an answer without error and a truthy week. */
    function StoredHit(lookup: TableCall, weekNumber: int): (r: Option<Json>)
      reads this
      ensures r.Some? ==> Truthy(r.value) && Linked() && lookup == Succeeded && storedPlan.Some?
      ensures r.Some? ==> r == StoredWeek(storedPlan.value, weekNumber)
      ensures Linked() && lookup == Succeeded && storedPlan.Some? && OptTruthy(StoredWeek(storedPlan.value, weekNumber)) ==>
        r == StoredWeek(storedPlan.value, weekNumber)
    {
      if Linked() && lookup == Succeeded && storedPlan.Some? && OptTruthy(StoredWeek(storedPlan.value, weekNumber))
      then StoredWeek(storedPlan.value, weekNumber)
      else None
    }

    /**
     * The plan row after a generated week is stored: read it, merge the week,
     * write it back. A failed read finds no row; reading `weeklyDetails` of
     * a null plan throws; a failed write changes nothing; every throw is
     * swallowed.
     */
    function StoredAfter(read: TableCall, write: TableCall, weekNumber: int, weekData: Json): (r: Option<Json>)
      reads this
      ensures r != storedPlan ==> storedPlan.Some? && r == Some(MergeWeek(storedPlan.value, weekNumber, weekData))
      ensures r != storedPlan ==> Linked() && read == Succeeded && write == Succeeded
      ensures Linked() && read == Succeeded && write == Succeeded && storedPlan.Some? && storedPlan.value != JNull ==>
        r == Some(MergeWeek(storedPlan.value, weekNumber, weekData))
      ensures storedPlan == Some(JNull) ==> r == storedPlan
    {
      if Linked() && read == Succeeded && storedPlan.Some? && storedPlan.value != JNull && write == Succeeded
      then Some(MergeWeek(storedPlan.value, weekNumber, weekData))
      else storedPlan
    }

    /**
     * `fetchWeekData`. `request` is the generator call, if one was made.
     * A memo hit changes nothing; a stored hit memoises that week; otherwise
     * the week is generated, and on success stored and memoised, on failure
     * the error is set and the memo kept. Loading is off afterwards.
     */
    method FetchWeekData(weekNumber: int, userGoal: string, timeCommitment: string, totalWeeks: int,
                         lookup: TableCall, reply: WeekReply, read: TableCall, write: TableCall)
      returns (result: Option<Json>, request: Option<WeekRequest>)
      requires Valid()
      modifies this
      ensures Valid()
      ensures weekNumber in old(weeklyData) ==>
        && result == Some(old(weeklyData)[weekNumber]) && request.None?
        && weeklyData == old(weeklyData) && error == old(error) && storedPlan == old(storedPlan)
      ensures weekNumber !in old(weeklyData) && old(StoredHit(lookup, weekNumber)).Some? ==>
        && result == old(StoredHit(lookup, weekNumber)) && request.None?
        && weeklyData == old(weeklyData)[weekNumber := result.value]
        && error == old(error) && storedPlan == old(storedPlan)
      ensures weekNumber !in old(weeklyData) && old(StoredHit(lookup, weekNumber)).None? ==>
        request == Some(WeekRequest(userGoal, timeCommitment, weekNumber, totalWeeks))
      ensures weekNumber !in old(weeklyData) && old(StoredHit(lookup, weekNumber)).None? && Outcome(reply).Loaded? ==>
        && result == Some(Outcome(reply).week)
        && weeklyData == old(weeklyData)[weekNumber := Outcome(reply).week]
        && error.None?
        && storedPlan == old(StoredAfter(read, write, weekNumber, Outcome(reply).week))
      ensures weekNumber !in old(weeklyData) && old(StoredHit(lookup, weekNumber)).None? && Outcome(reply).Error? ==>
        && result.None?
        && weeklyData == old(weeklyData)
        && error == Some(Outcome(reply).message)
        && storedPlan == old(storedPlan)
    {
      if weekNumber in weeklyData {
        return Some(weeklyData[weekNumber]), None;
      }
      var hit := StoredHit(lookup, weekNumber);
      if hit.Some? {
        weeklyData := weeklyData[weekNumber := hit.value];
        return hit, None;
      }
      loading := true;
      error := None;
      request := Some(WeekRequest(userGoal, timeCommitment, weekNumber, totalWeeks));
      match Outcome(reply) {
        case Loaded(weekData) =>
          storedPlan := StoredAfter(read, write, weekNumber, weekData);
          weeklyData := weeklyData[weekNumber := weekData];
          result := Some(weekData);
        case Error(message) =>
          error := Some(message);
          result := None;
      }
      loading := false;
    }
  }

  /**
   * A week generated and stored by one session is found in the stored plan
   * by a later session, which then needs no generation.
   */
  method LaterSessionFindsWeek(user: string, planId: string, plan: Json, weekNumber: int,
                               goal: string, time: string, total: int, reply: WeekReply, later: WeekReply)
    returns (first: Option<Json>, second: Option<Json>, secondRequest: Option<WeekRequest>)
    requires user != "" && planId != "" && plan != JNull
    requires Outcome(reply).Loaded?
    ensures first.Some? && second == first && secondRequest.None?
  {
    var session := new WeeklyDataHook(user, planId, Some(plan));
    var request;
    first, request := session.FetchWeekData(weekNumber, goal, time, total, Succeeded, reply, Succeeded, Succeeded);
    var stored := session.storedPlan;
    if !OptTruthy(StoredWeek(plan, weekNumber)) {
      MergedWeekIsStored(plan, weekNumber, Outcome(reply).week);
    }
    var next := new WeeklyDataHook(user, planId, stored);
    second, secondRequest := next.FetchWeekData(weekNumber, goal, time, total, Succeeded, later, Succeeded, Succeeded);
  }
}

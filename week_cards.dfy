/**
 * The week-by-week plan view: weeks are generated one at a time on demand
 * and kept in a map from week number to week, so a week already shown is
 * never requested again. Also the day card's habit boxes.
 *
 * Each handler runs to completion before the next one starts; the await
 * points between them are not modelled.
 */
module TransformationPlanCards {
  import opened Wrappers
  import opened JsonValue
  import opened WeekFetch
  import opened Checkboxes

  /** The `transformationPlan` prop; "" stands for a missing goal or time commitment. */
  datatype PlanProps = PlanProps(userGoal: string, timeCommitment: string, totalWeeks: Option<int>)

  /** `transformationPlan?.totalWeeks ?? 12`: only a missing value falls back, so 0 is kept. */
  function BaseWeeks(plan: Option<PlanProps>): (r: int)
    ensures plan.Some? && plan.value.totalWeeks.Some? ==> r == plan.value.totalWeeks.value
    ensures !(plan.Some? && plan.value.totalWeeks.Some?) ==> r == 12
  {
    if plan.Some? && plan.value.totalWeeks.Some? then plan.value.totalWeeks.value else 12
  }

  /** The request for a week, with the plan's goal and time commitment. */
  function RequestFor(plan: Option<PlanProps>, weekNumber: int): (r: WeekRequest)
    ensures r.week == weekNumber && r.totalWeeks == BaseWeeks(plan)
    ensures plan.Some? ==> r.userGoal == plan.value.userGoal && r.timeCommitment == plan.value.timeCommitment
    ensures plan.None? ==> r.userGoal == "" && r.timeCommitment == ""
  {
    if plan.Some? then WeekRequest(plan.value.userGoal, plan.value.timeCommitment, weekNumber, BaseWeeks(plan))
    else WeekRequest("", "", weekNumber, BaseWeeks(plan))
  }

  /** Whether the plan has both a goal and a time commitment, without which nothing is shown. */
  predicate Ready(plan: Option<PlanProps>) {
    plan.Some? && plan.value.userGoal != "" && plan.value.timeCommitment != ""
  }

  /**
   * The week total shown: taken from the first loaded week that carries a
   * truthy `week` and a truthy `totalWeeks`, and then kept.
   */
  function NextTotalWeeks(total: Option<Json>, weekData: Json): (r: Option<Json>)
    requires total.Some? ==> Truthy(total.value)
    ensures total.Some? ==> r == total
    ensures total.None? && HasTruthyMember(weekData, "week") && HasTruthyMember(weekData, "totalWeeks") ==>
      r == Member(weekData, "totalWeeks")
    ensures total.None? && !(HasTruthyMember(weekData, "week") && HasTruthyMember(weekData, "totalWeeks")) ==>
      r.None?
    ensures r.Some? ==> Truthy(r.value)
  {
    if total.None? && HasTruthyMember(weekData, "week") && HasTruthyMember(weekData, "totalWeeks") then
      Member(weekData, "totalWeeks")
    else total
  }

  /** Once known, the total survives any run of further loaded weeks. */
  lemma {:induction false} TotalWeeksSetOnce(total: Json, loaded: seq<Json>)
    requires Truthy(total)
    ensures TotalAfter(Some(total), loaded) == Some(total)
    decreases |loaded|
  {
    if loaded != [] {
      TotalWeeksSetOnce(total, loaded[1..]);
    }
  }

  /** The week total after weeks load in the given order. */
  function TotalAfter(total: Option<Json>, loaded: seq<Json>): (r: Option<Json>)
    requires total.Some? ==> Truthy(total.value)
    ensures r.Some? ==> Truthy(r.value)
    decreases |loaded|
  {
    if loaded == [] then total else TotalAfter(NextTotalWeeks(total, loaded[0]), loaded[1..])
  }

  class PlanCards {
    /** The weeks loaded so far, by 1-based week number. */
    var weeksByIndex: map<int, Json>
    /** The 1-based week shown. */
    var currentWeekIdx: int
    var totalWeeks: Option<Json>
    var loading: bool
    var error: Option<string>
    var plan: Option<PlanProps>

    /** Stored weeks are truthy, so "already fetched" is "present"; the index never drops below 1. */
    predicate Valid()
      reads this
    {
      && currentWeekIdx >= 1
      && (forall w :: w in weeksByIndex ==> Truthy(weeksByIndex[w]))
      && (totalWeeks.Some? ==> Truthy(totalWeeks.value))
      && (error.Some? ==> error.value != "")
      && !loading
    }

    constructor(props: Option<PlanProps>)
      ensures Valid()
      ensures weeksByIndex == map[] && currentWeekIdx == 1 && totalWeeks.None? && error.None? && plan == props
    {
      weeksByIndex := map[];
      currentWeekIdx := 1;
      totalWeeks := None;
      loading := false;
      error := None;
      plan := props;
    }

    /**
     * `fetchWeek`: a week already present is not requested again. Otherwise
     * the week is requested; on success exactly that week is added, and on
     * failure the weeks stay as they were and the error is set. Loading is
     * off afterwards either way.
     */
    method FetchWeek(weekNumber: int, reply: WeekReply) returns (request: Option<WeekRequest>)
      requires Valid()
      modifies this
      ensures Valid()
      ensures currentWeekIdx == old(currentWeekIdx) && plan == old(plan)
      ensures weekNumber in old(weeksByIndex) ==>
        request.None? && weeksByIndex == old(weeksByIndex) && totalWeeks == old(totalWeeks) && error == old(error)
      ensures weekNumber !in old(weeksByIndex) ==> request == Some(RequestFor(plan, weekNumber))
      ensures weekNumber !in old(weeksByIndex) && Outcome(reply).Loaded? ==>
        && weeksByIndex == old(weeksByIndex)[weekNumber := Outcome(reply).week]
        && totalWeeks == NextTotalWeeks(old(totalWeeks), Outcome(reply).week)
        && error.None?
      ensures weekNumber !in old(weeksByIndex) && Outcome(reply).Error? ==>
        && weeksByIndex == old(weeksByIndex) && totalWeeks == old(totalWeeks)
        && error == Some(Outcome(reply).message)
    {
      if weekNumber in weeksByIndex {
        return None;
      }
      loading := true;
      error := None;
      request := Some(RequestFor(plan, weekNumber));
      match Outcome(reply) {
        case Loaded(weekData) =>
          weeksByIndex := weeksByIndex[weekNumber := weekData];
          totalWeeks := NextTotalWeeks(totalWeeks, weekData);
        case Error(message) =>
          error := Some(message);
      }
      loading := false;
    }

    /** The effect on a new plan: clear the error, and fetch week 1 if the plan is ready and nothing is loaded. */
    method PlanChanged(props: Option<PlanProps>, reply: WeekReply) returns (request: Option<WeekRequest>)
      requires Valid()
      modifies this
      ensures Valid() && plan == props && currentWeekIdx == old(currentWeekIdx)
      ensures request.Some? <==> Ready(props) && old(weeksByIndex) == map[]
      ensures request.Some? ==> request.value == RequestFor(props, 1)
      ensures request.None? ==> weeksByIndex == old(weeksByIndex) && error.None? && totalWeeks == old(totalWeeks)
      ensures request.Some? && Outcome(reply).Loaded? ==>
        && weeksByIndex == map[1 := Outcome(reply).week]
        && totalWeeks == NextTotalWeeks(old(totalWeeks), Outcome(reply).week)
        && error.None?
      ensures request.Some? && Outcome(reply).Error? ==>
        weeksByIndex == map[] && totalWeeks == old(totalWeeks) && error == Some(Outcome(reply).message)
    {
      plan := props;
      error := None;
      request := None;
      if Ready(plan) && |weeksByIndex| == 0 && !loading {
        request := FetchWeek(1, reply);
      }
    }

    /** `handlePrev`: back one week, never below week 1. */
    method Prev()
      requires Valid()
      modifies this
      ensures Valid()
      ensures currentWeekIdx == if old(currentWeekIdx) > 1 then old(currentWeekIdx) - 1 else 1
      ensures weeksByIndex == old(weeksByIndex) && error == old(error) && totalWeeks == old(totalWeeks)
    {
      if currentWeekIdx > 1 {
        currentWeekIdx := currentWeekIdx - 1;
      }
    }

    /** `handleNext`: forward one week with no upper bound, fetching that week unless it is loaded. */
    method Next(reply: WeekReply) returns (request: Option<WeekRequest>)
      requires Valid()
      modifies this
      ensures Valid()
      ensures currentWeekIdx == old(currentWeekIdx) + 1
      ensures request.Some? <==> old(currentWeekIdx) + 1 !in old(weeksByIndex)
      ensures request.Some? ==> request.value == RequestFor(plan, currentWeekIdx)
      ensures request.None? ==>
        weeksByIndex == old(weeksByIndex) && totalWeeks == old(totalWeeks) && error == old(error)
      ensures request.Some? && Outcome(reply).Loaded? ==>
        && weeksByIndex == old(weeksByIndex)[currentWeekIdx := Outcome(reply).week]
        && totalWeeks == NextTotalWeeks(old(totalWeeks), Outcome(reply).week)
        && error.None?
      ensures request.Some? && Outcome(reply).Error? ==>
        weeksByIndex == old(weeksByIndex) && totalWeeks == old(totalWeeks) && error == Some(Outcome(reply).message)
      ensures Outcome(reply).Loaded? ==> currentWeekIdx in weeksByIndex
      ensures forall w :: w in old(weeksByIndex) ==> w in weeksByIndex && weeksByIndex[w] == old(weeksByIndex)[w]
    {
      currentWeekIdx := currentWeekIdx + 1;
      request := FetchWeek(currentWeekIdx, reply);
    }

    /** The effect on a new index: fetch the shown week only when it is not loaded. */
    method IndexChanged(reply: WeekReply) returns (request: Option<WeekRequest>)
      requires Valid()
      modifies this
      ensures Valid() && currentWeekIdx == old(currentWeekIdx)
      ensures request.Some? <==> old(currentWeekIdx) !in old(weeksByIndex)
      ensures request.None? ==>
        weeksByIndex == old(weeksByIndex) && totalWeeks == old(totalWeeks) && error == old(error)
      ensures request.Some? && Outcome(reply).Loaded? ==>
        && weeksByIndex == old(weeksByIndex)[currentWeekIdx := Outcome(reply).week]
        && totalWeeks == NextTotalWeeks(old(totalWeeks), Outcome(reply).week)
        && error.None?
      ensures request.Some? && Outcome(reply).Error? ==>
        weeksByIndex == old(weeksByIndex) && totalWeeks == old(totalWeeks) && error == Some(Outcome(reply).message)
      ensures forall w :: w in old(weeksByIndex) ==> w in weeksByIndex && weeksByIndex[w] == old(weeksByIndex)[w]
    {
      request := None;
      if currentWeekIdx !in weeksByIndex {
        request := FetchWeek(currentWeekIdx, reply);
      }
    }

    /** The week on screen, if loaded. */
    function CurrentWeek(): (r: Option<Json>)
      reads this
      ensures r.Some? <==> currentWeekIdx in weeksByIndex
      ensures r.Some? ==> r.value == weeksByIndex[currentWeekIdx]
    {
      if currentWeekIdx in weeksByIndex then Some(weeksByIndex[currentWeekIdx]) else None
    }
  }

  /**
   * From a loaded week, going forward to a week that loads, back, and
   * forward again requests nothing after the first step.
   */
  method ForwardAndBack(cards: PlanCards, reply: WeekReply, again: WeekReply)
    returns (forward: Option<WeekRequest>, back: Option<WeekRequest>, revisit: Option<WeekRequest>)
    requires cards.Valid() && cards.currentWeekIdx in cards.weeksByIndex && Outcome(reply).Loaded?
    modifies cards
    ensures cards.Valid() && cards.currentWeekIdx == old(cards.currentWeekIdx) + 1
    ensures back.None? && revisit.None?
  {
    forward := cards.Next(reply);
    cards.Prev();
    back := cards.IndexChanged(again);
    revisit := cards.Next(again);
  }

  /** A day card's habit boxes: all unchecked at first, each click flips one. */
  class DayCard {
    var habits: Boxes

    constructor(habitCount: nat)
      ensures habits == Unchecked(habitCount)
    {
      habits := Unchecked(habitCount);
    }

    method Toggle(i: nat)
      modifies this
      ensures habits == Flip(old(habits), i)
    {
      habits := Flip(habits, i);
    }
  }
}

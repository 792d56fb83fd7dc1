/**
 * The plan sidebar: which week the progress card shows, the week total,
 * when the check-in and the navigation buttons appear, and the clamped
 * Prev/Next index updates. `weeks` is the roadmap's week array, `None`
 * when the roadmap or its `weeks` is missing.
 */
module PlanSidebar {
  import opened Wrappers
  import opened JsonValue

  /** The week shown: `weeks[currentWeekIndex]` when there are weeks; an index outside them reads as nothing. */
  function CurrentWeek(weeks: Option<seq<Json>>, index: int): (r: Option<Json>)
    ensures r.Some? <==> weeks.Some? && 0 <= index < |weeks.value|
    ensures r.Some? ==> r.value == weeks.value[index]
  {
    if weeks.Some? && |weeks.value| > 0 && 0 <= index < |weeks.value| then Some(weeks.value[index]) else None
  }

  /** `weeks?.length || 0`. */
  function TotalWeeks(weeks: Option<seq<Json>>): (r: nat)
    ensures weeks.None? ==> r == 0
    ensures weeks.Some? ==> r == |weeks.value|
  {
    if weeks.Some? then |weeks.value| else 0
  }

  /** The check-in appears only when asked for and the current week exists and is truthy. */
  function ShowCheckIn(showWeeklyCheckIn: bool, weeks: Option<seq<Json>>, index: int): (r: bool)
    ensures r <==> showWeeklyCheckIn && CurrentWeek(weeks, index).Some? && Truthy(CurrentWeek(weeks, index).value)
  {
    showWeeklyCheckIn && weeks.Some? && 0 <= index < |weeks.value| && Truthy(weeks.value[index])
  }

  /** The buttons appear only with more than one week. */
  function ShowNavigation(weeks: Option<seq<Json>>): (r: bool)
    ensures r <==> weeks.Some? && |weeks.value| >= 2
  {
    TotalWeeks(weeks) > 1
  }

  /** Prev is disabled on the first week: exactly where pressing it would not move. */
  function PrevDisabled(index: int): (r: bool)
    ensures r <==> Prev(index) == index
  {
    index == 0
  }

  /** Next is disabled on the last week or later: exactly where pressing it would not move forward. */
  function NextDisabled(weeks: Option<seq<Json>>, index: int): (r: bool)
    ensures weeks.None? ==> r
    ensures weeks.Some? ==> (r <==> Next(|weeks.value|, index) <= index)
  {
    weeks.None? || index >= |weeks.value| - 1
  }

  /**
   * Whenever the buttons show and the index is on a week, at least one of
   * them is enabled; with a single week both would be disabled.
   */
  lemma NavigationHasEnabledButton(weeks: Option<seq<Json>>, index: int)
    requires 0 <= index < TotalWeeks(weeks)
    ensures ShowNavigation(weeks) ==> !PrevDisabled(index) || !NextDisabled(weeks, index)
    ensures !ShowNavigation(weeks) ==> PrevDisabled(index) && NextDisabled(weeks, index)
  {
  }

  /** `i => Math.max(0, i - 1)`. */
  function Prev(index: int): (r: int)
    ensures r >= 0
    ensures index >= 1 ==> r == index - 1
    ensures index <= 1 ==> r == 0
  {
    if index - 1 > 0 then index - 1 else 0
  }

  /** `i => Math.min(len - 1, i + 1)`. */
  function Next(len: nat, index: int): (r: int)
    ensures r <= len - 1
    ensures index < len - 1 ==> r == index + 1
    ensures index >= len - 1 ==> r == len - 1
  {
    if index + 1 < len - 1 then index + 1 else len - 1
  }

  /** An enabled Prev moves one week back; an enabled Next one week forward. */
  lemma EnabledButtonsMoveByOne(weeks: Option<seq<Json>>, index: int)
    requires 0 <= index
    ensures !PrevDisabled(index) ==> Prev(index) == index - 1
    ensures !NextDisabled(weeks, index) ==> Next(|weeks.value|, index) == index + 1
  {
  }

  datatype Button = PrevButton | NextButton

  /** The index after a run of button presses. */
  function Navigate(len: nat, index: int, presses: seq<Button>): int
    decreases |presses|
  {
    if presses == [] then index
    else
      var i := if presses[0] == PrevButton then Prev(index) else Next(len, index);
      Navigate(len, i, presses[1..])
  }

  /** Starting on a week, any run of presses stays on a week. */
  lemma {:induction false} NavigateStaysInRange(len: nat, index: int, presses: seq<Button>)
    requires 0 <= index < len
    ensures 0 <= Navigate(len, index, presses) < len
    decreases |presses|
  {
    if presses != [] {
      var i := if presses[0] == PrevButton then Prev(index) else Next(len, index);
      NavigateStaysInRange(len, i, presses[1..]);
    }
  }
}

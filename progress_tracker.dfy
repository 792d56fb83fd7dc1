/**
 * The detailed progress tracker: the timeline of a plan's weeks (listed,
 * truncated and classified against the current week), the current week,
 * the day the check-in shows, and the check-in's checkboxes.
 */
module DetailedProgressTracker {
  import opened Wrappers
  import opened JsonValue
  import opened Checkboxes

  /** `Array.from({ length: n }, (_, i) => i + 1)`; a negative length gives no weeks. */
  function TimelineWeeks(numberOfWeeks: int): (r: seq<int>)
    ensures |r| == if numberOfWeeks > 0 then numberOfWeeks else 0
    ensures forall i :: 0 <= i < |r| ==> r[i] == i + 1
  {
    if numberOfWeeks > 0 then seq(numberOfWeeks, i => i + 1) else []
  }

  /** `weeks.slice(0, 8)`. */
  function Visible(weeks: seq<int>): (r: seq<int>)
    ensures |r| <= 8 && r <= weeks
    ensures |weeks| <= 8 ==> r == weeks
    ensures |weeks| > 8 ==> r == weeks[..8]
  {
    if |weeks| <= 8 then weeks else weeks[..8]
  }

  /** The "... and n more weeks" line: the count when there are more than 8 weeks. */
  function MoreWeeks(weeks: seq<int>): (r: Option<nat>)
    ensures r.Some? <==> |weeks| > 8
    ensures r.Some? ==> |Visible(weeks)| + r.value == |weeks|
  {
    if |weeks| > 8 then Some(|weeks| - 8) else None
  }

  datatype Status = Past | Current | Upcoming

  /** The row's style: current first, then past, else upcoming. */
  function RowStatus(week: int, currentWeekIndex: int): (r: Status)
    ensures r == Current <==> week == currentWeekIndex + 1
    ensures r == Past <==> week < currentWeekIndex + 1
    ensures r == Upcoming <==> week > currentWeekIndex + 1
  {
    if week == currentWeekIndex + 1 then Current
    else if week < currentWeekIndex + 1 then Past
    else Upcoming
  }

  /** The dot's colour: past first, then current, else upcoming. */
  function DotStatus(week: int, currentWeekIndex: int): (r: Status)
    ensures r == Past <==> week <= currentWeekIndex
    ensures r == Current <==> week - 1 == currentWeekIndex
    ensures r == Upcoming <==> week - 1 > currentWeekIndex
  {
    if week < currentWeekIndex + 1 then Past
    else if week == currentWeekIndex + 1 then Current
    else Upcoming
  }

  /** The dot and the row, which test in a different order, always agree. */
  lemma DotAgreesWithRow(week: int, currentWeekIndex: int)
    ensures DotStatus(week, currentWeekIndex) == RowStatus(week, currentWeekIndex)
  {
  }

  /** The "← Current" marker appears on at most one listed week. */
  lemma CurrentMarkerAtMostOnce(numberOfWeeks: int, currentWeekIndex: int)
    ensures var v := Visible(TimelineWeeks(numberOfWeeks));
      forall i, j ::
        (0 <= i < |v| && 0 <= j < |v| &&
         RowStatus(v[i], currentWeekIndex) == Current && RowStatus(v[j], currentWeekIndex) == Current)
        ==> i == j
  {
    var w := TimelineWeeks(numberOfWeeks);
    var v := Visible(w);
    forall i | 0 <= i < |v|
      ensures v[i] == i + 1
    {
      assert v[i] == w[i];
    }
  }

  /** The marked week, when listed, is week `currentWeekIndex + 1`, at position `currentWeekIndex`. */
  lemma CurrentMarkerPosition(numberOfWeeks: int, currentWeekIndex: int)
    ensures var v := Visible(TimelineWeeks(numberOfWeeks));
      forall i :: 0 <= i < |v| ==> (RowStatus(v[i], currentWeekIndex) == Current <==> i == currentWeekIndex)
  {
    var w := TimelineWeeks(numberOfWeeks);
    var v := Visible(w);
    forall i | 0 <= i < |v|
      ensures v[i] == i + 1
    {
      assert v[i] == w[i];
    }
  }

  /** `plan.weeks?.[current_week_index]`. */
  function CurrentWeek(weeks: Option<seq<Json>>, currentWeekIndex: int): (r: Option<Json>)
    ensures r.Some? <==> weeks.Some? && 0 <= currentWeekIndex < |weeks.value|
    ensures r.Some? ==> r.value == weeks.value[currentWeekIndex]
  {
    if weeks.Some? && 0 <= currentWeekIndex < |weeks.value| then Some(weeks.value[currentWeekIndex]) else None
  }

  /** `days?.[today] || days?.[0]`: today's day when it is there and truthy, else the first day. */
  function CheckInDay(days: Option<seq<Json>>, today: nat): (r: Option<Json>)
    requires today < 7
    ensures days.Some? && today < |days.value| && Truthy(days.value[today]) ==> r == Some(days.value[today])
    ensures !(days.Some? && today < |days.value| && Truthy(days.value[today])) ==>
      r == (if days.Some? && |days.value| > 0 then Some(days.value[0]) else None)
  {
    if days.Some? && today < |days.value| && Truthy(days.value[today]) then Some(days.value[today])
    else if days.Some? && |days.value| > 0 then Some(days.value[0])
    else None
  }

  /** A week with at least one day always yields a day to check in on. */
  lemma CheckInDayExists(days: seq<Json>, today: nat)
    requires today < 7 && |days| > 0
    ensures CheckInDay(Some(days), today).Some?
    ensures CheckInDay(Some(days), today).value in days
  {
  }

  /** The check-in card's boxes; both lists start empty, so every box starts unchecked. */
  class DailyCheckIn {
    var checkedHabits: Boxes
    var checkedTasks: Boxes

    constructor()
      ensures checkedHabits == [] && checkedTasks == []
      ensures forall i: nat :: !Shown(checkedHabits, i) && !Shown(checkedTasks, i)
    {
      checkedHabits := [];
      checkedTasks := [];
    }

    /** A habit box changes: copy the array and set only that index. */
    method SetHabit(index: nat, checked: bool)
      modifies this
      ensures checkedHabits == Assign(old(checkedHabits), index, checked)
      ensures checkedTasks == old(checkedTasks)
    {
      checkedHabits := Assign(checkedHabits, index, checked);
    }

    /** A task box changes: copy the array and set only that index. */
    method SetTask(index: nat, checked: bool)
      modifies this
      ensures checkedTasks == Assign(old(checkedTasks), index, checked)
      ensures checkedHabits == old(checkedHabits)
    {
      checkedTasks := Assign(checkedTasks, index, checked);
    }
  }

  /** After any run of changes to the listed habits, exactly the boxes last set to true show checked. */
  lemma {:induction false} LastChangeWins(s: Boxes, changes: seq<(nat, bool)>, j: nat)
    ensures Shown(ApplyAll(s, changes), j) ==
      (if exists k :: 0 <= k < |changes| && changes[k].0 == j then changes[LastChangeTo(changes, j)].1 else Shown(s, j))
    decreases |changes|
  {
    if changes != [] {
      var init := changes[..|changes| - 1];
      var c := changes[|changes| - 1];
      LastChangeWins(s, init, j);
      assert forall k :: 0 <= k < |init| ==> init[k] == changes[k];
      if c.0 != j {
        if exists k :: 0 <= k < |changes| && changes[k].0 == j {
          var k :| 0 <= k < |changes| && changes[k].0 == j;
          assert init[k].0 == j;
        }
      }
    }
  }

  /** The boxes after a run of `(index, checked)` changes. */
  function ApplyAll(s: Boxes, changes: seq<(nat, bool)>): Boxes
    decreases |changes|
  {
    if changes == [] then s
    else
      var c := changes[|changes| - 1];
      Assign(ApplyAll(s, changes[..|changes| - 1]), c.0, c.1)
  }

  /** The position of the last change to box `j`. */
  function LastChangeTo(changes: seq<(nat, bool)>, j: nat): (k: nat)
    requires exists k :: 0 <= k < |changes| && changes[k].0 == j
    ensures k < |changes| && changes[k].0 == j
    ensures forall m :: k < m < |changes| ==> changes[m].0 != j
    decreases |changes|
  {
    if changes[|changes| - 1].0 == j then |changes| - 1
    else
      var init := changes[..|changes| - 1];
      assert exists k :: 0 <= k < |init| && init[k].0 == j by {
        var k :| 0 <= k < |changes| && changes[k].0 == j;
        assert init[k].0 == j;
      }
      LastChangeTo(init, j)
  }
}

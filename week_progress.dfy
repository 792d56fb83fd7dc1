/**
 * "This Week's Progress": the habit and milestone checkboxes of the current
 * week, the detection of a completed week, the one-time marking of that week
 * in the progress history, and the streak of completed weeks.
 */
module ThisWeekProgress {
  import opened Wrappers
  import opened Checkboxes

  /**
   * `checked.every(Boolean)`: `every` only visits entries that exist, so
   * holes pass, while an element holding `undefined` fails.
   */
  function EveryChecked(checked: Boxes): (r: bool)
    ensures r <==> forall i: nat :: i < |checked| ==> Shown(checked, i) || checked[i].Hole?
  {
    forall i :: 0 <= i < |checked| && !checked[i].Hole? ==> checked[i] == Val(true)
  }

  /** The completion test as the component writes it. */
  function AllCompleteAsWritten(checked: Boxes, habitCount: nat, milestone: bool): (r: bool)
    ensures r <==> (|checked| == habitCount && milestone
      && forall i: nat :: i < habitCount ==> Shown(checked, i) || checked[i].Hole?)
  {
    |checked| == habitCount && EveryChecked(checked) && milestone
  }

  /** A week is complete when every one of its habits shows checked and the milestone is checked. */
  function WeekComplete(checked: Boxes, habitCount: nat, milestone: bool): (r: bool)
    ensures r <==> |checked| == habitCount && milestone && forall i :: 0 <= i < |checked| ==> checked[i] == Val(true)
  {
    ShownEverywhere(checked);
    |checked| == habitCount && (forall i: nat :: i < habitCount ==> Shown(checked, i)) && milestone
  }

  /** Every box shows checked exactly when every box holds `true`. */
  lemma ShownEverywhere(checked: Boxes)
    ensures (forall i: nat :: i < |checked| ==> Shown(checked, i)) <==> (forall i :: 0 <= i < |checked| ==> checked[i] == Val(true))
  {
    if forall i: nat :: i < |checked| ==> Shown(checked, i) {
      forall i | 0 <= i < |checked|
        ensures checked[i] == Val(true)
      {
        assert Shown(checked, i);
      }
    }
  }

  /** Without holes the test as written is exactly week completion. */
  lemma CompleteAgreesWithoutHoles(checked: Boxes, habitCount: nat, milestone: bool)
    requires NoHoles(checked)
    ensures AllCompleteAsWritten(checked, habitCount, milestone) <==> WeekComplete(checked, habitCount, milestone)
  {
    if AllCompleteAsWritten(checked, habitCount, milestone) {
      forall i: nat | i < habitCount
        ensures Shown(checked, i)
      {
        assert !checked[i].Hole?;
      }
    }
    if WeekComplete(checked, habitCount, milestone) {
      forall i | 0 <= i < |checked| && !checked[i].Hole?
        ensures checked[i] == Val(true)
      {
        assert Shown(checked, i);
      }
    }
  }

  /** A complete week has no holes: every one of its boxes holds `true`. */
  lemma CompleteWeekHasNoHoles(checked: Boxes, habitCount: nat, milestone: bool)
    requires WeekComplete(checked, habitCount, milestone)
    ensures NoHoles(checked) && milestone
    ensures forall i :: 0 <= i < |checked| ==> checked[i] == Val(true)
  {
    forall i | 0 <= i < |checked|
      ensures checked[i] == Val(true)
    {
      assert Shown(checked, i);
    }
  }

  /**
   * A stored array of one checked box, a week that now has three habits, and
   * habit 2 checked: the array has a hole at 1, has the right length, and the
   * test as written calls the week complete while habit 1 is unchecked.
   */
  lemma HoleCompletesWeek()
    ensures var checked := Assign([Val(true)], 2, true);
      && AllCompleteAsWritten(checked, 3, true)
      && !Shown(checked, 1)
      && !WeekComplete(checked, 3, true)
  {
    var checked := Assign([Val(true)], 2, true);
    assert checked == [Val(true), Hole, Val(true)];
  }

  /**
   * The hole lasts only until the next box change: the spread copy turns it
   * into `undefined`, which `every` visits, so the test as written fails again.
   */
  lemma NextChangeCopiesHole()
    ensures var holed := Assign([Val(true)], 2, true);
      var next := Assign(holed, 0, true);
      && next == [Val(true), Undef, Val(true)]
      && !AllCompleteAsWritten(next, 3, true)
  {
    var holed := Assign([Val(true)], 2, true);
    assert holed == [Val(true), Hole, Val(true)];
    var next := Assign(holed, 0, true);
    assert next == [Val(true), Undef, Val(true)];
    assert next[1] == Undef;
  }

  /** After a change inside the array, the test as written is exactly week completion. */
  lemma AssignInsideAgrees(s: Boxes, i: nat, v: bool, habitCount: nat, milestone: bool)
    requires i < |s|
    ensures AllCompleteAsWritten(Assign(s, i, v), habitCount, milestone)
      <==> WeekComplete(Assign(s, i, v), habitCount, milestone)
  {
    AssignInsideKeepsNoHoles(s, i, v);
    CompleteAgreesWithoutHoles(Assign(s, i, v), habitCount, milestone);
  }

  /** `history.map((v, j) => j === index ? true : v)`. */
  function MarkWeek(history: seq<bool>, index: int): (r: seq<bool>)
    ensures |r| == |history|
    ensures forall j :: 0 <= j < |r| ==> r[j] == (j == index || history[j])
  {
    seq(|history|, j requires 0 <= j < |history| => j == index || history[j])
  }

  /** Marking a week twice is marking it once. */
  lemma MarkWeekIdempotent(history: seq<bool>, index: int)
    ensures MarkWeek(MarkWeek(history, index), index) == MarkWeek(history, index)
  {
  }

  /** The number of leading weeks that are complete. */
  function LeadingTrue(history: seq<bool>): (r: nat)
    ensures r <= |history|
    ensures forall i :: 0 <= i < r ==> history[i]
    ensures r < |history| ==> !history[r]
  {
    if history == [] || !history[0] then 0 else 1 + LeadingTrue(history[1..])
  }

  /** Marking a week never shortens the streak. */
  lemma {:induction false} MarkNeverShortensStreak(history: seq<bool>, index: int)
    ensures LeadingTrue(MarkWeek(history, index)) >= LeadingTrue(history)
  {
    var marked := MarkWeek(history, index);
    var n := LeadingTrue(history);
    assert forall i :: 0 <= i < n ==> marked[i];
  }

  /** Marking the week that ends the streak lengthens it. */
  lemma {:induction false} MarkStreakEndLengthens(history: seq<bool>)
    requires LeadingTrue(history) < |history|
    ensures LeadingTrue(MarkWeek(history, LeadingTrue(history))) > LeadingTrue(history)
  {
    var n := LeadingTrue(history);
    var marked := MarkWeek(history, n);
    assert forall i :: 0 <= i <= n ==> marked[i];
  }

  /** The streak loop: count entries from the start until the first incomplete week. */
  method Streak(history: seq<bool>) returns (streak: nat)
    ensures streak == LeadingTrue(history)
  {
    streak := 0;
    var i := 0;
    while i < |history|
      invariant 0 <= i <= |history| && streak == i
      invariant forall k :: 0 <= k < i ==> history[k]
    {
      if !history[i] {
        break;
      }
      streak := streak + 1;
      i := i + 1;
    }
  }

  /** Whether the history records week `index` as complete. */
  predicate Recorded(history: seq<bool>, index: int) {
    0 <= index < |history| && history[index]
  }

  /** Whether the completion effect fires: a current week that is complete and not yet recorded. */
  predicate NewlyComplete(week: Option<nat>, checked: Boxes, milestone: bool, history: seq<bool>, index: int) {
    week.Some? && WeekComplete(checked, week.value, milestone) && !Recorded(history, index)
  }

  class WeekProgress {
    /** The habit count of the current week, `None` when there is no current week. */
    var week: Option<nat>
    /** The current week's position in the progress history. */
    var weekIndex: int
    var checkedHabits: Boxes
    var milestoneChecked: bool
    var progressHistory: seq<bool>
    var justCompleted: bool
    /** How often the week-complete callback has been called. */
    var completionCalls: nat

    /** Mounting with the parent's history, then loading the current week. */
    constructor(week: Option<nat>, weekIndex: int, history: seq<bool>,
                storedHabits: Option<Boxes>, storedMilestone: Option<bool>)
      ensures this.week == week && this.weekIndex == weekIndex
      ensures week.None? ==> checkedHabits == [] && !milestoneChecked
      ensures week.Some? ==> checkedHabits == (if storedHabits.Some? then storedHabits.value else Unchecked(week.value))
      ensures week.Some? ==> milestoneChecked == storedMilestone.GetOr(false)
      ensures NewlyComplete(week, checkedHabits, milestoneChecked, history, weekIndex) ==>
        progressHistory == MarkWeek(history, weekIndex) && justCompleted && completionCalls == 1
      ensures !NewlyComplete(week, checkedHabits, milestoneChecked, history, weekIndex) ==>
        progressHistory == history && !justCompleted && completionCalls == 0
      ensures |progressHistory| == |history|
      ensures forall j :: 0 <= j < |history| && history[j] ==> progressHistory[j]
    {
      this.week, this.weekIndex := week, weekIndex;
      checkedHabits, milestoneChecked := [], false;
      progressHistory, justCompleted, completionCalls := history, false, 0;
      new;
      Load(week, weekIndex, storedHabits, storedMilestone);
    }

    /**
     * The effect on a change of the current week (and with it its index): the
     * stored boxes, or all unchecked; then the completion effect, since the
     * boxes changed.
     */
    method Load(week: Option<nat>, index: int, storedHabits: Option<Boxes>, storedMilestone: Option<bool>)
      modifies this
      ensures this.week == week && weekIndex == index
      ensures week.None? ==> checkedHabits == [] && !milestoneChecked
      ensures week.Some? ==> checkedHabits == (if storedHabits.Some? then storedHabits.value else Unchecked(week.value))
      ensures week.Some? ==> milestoneChecked == storedMilestone.GetOr(false)
      ensures NewlyComplete(week, checkedHabits, milestoneChecked, old(progressHistory), index) ==>
        progressHistory == MarkWeek(old(progressHistory), index) && justCompleted
        && completionCalls == old(completionCalls) + 1
      ensures !NewlyComplete(week, checkedHabits, milestoneChecked, old(progressHistory), index) ==>
        progressHistory == old(progressHistory) && justCompleted == old(justCompleted)
        && completionCalls == old(completionCalls)
      ensures |progressHistory| == |old(progressHistory)|
      ensures forall j :: 0 <= j < |progressHistory| && old(progressHistory)[j] ==> progressHistory[j]
    {
      this.week, weekIndex := week, index;
      match week
      case None =>
        checkedHabits, milestoneChecked := [], false;
      case Some(habitCount) =>
        checkedHabits := if storedHabits.Some? then storedHabits.value else Unchecked(habitCount);
        milestoneChecked := storedMilestone.GetOr(false);
      AutoComplete();
    }

    /**
     * The completion effect: a complete week not yet recorded is marked in
     * the history once, and the callback is called once.
     */
    method AutoComplete()
      modifies this
      ensures week == old(week) && weekIndex == old(weekIndex)
      ensures checkedHabits == old(checkedHabits) && milestoneChecked == old(milestoneChecked)
      ensures old(NewlyComplete(week, checkedHabits, milestoneChecked, progressHistory, weekIndex)) ==>
        progressHistory == MarkWeek(old(progressHistory), weekIndex) && justCompleted
        && completionCalls == old(completionCalls) + 1
      ensures !old(NewlyComplete(week, checkedHabits, milestoneChecked, progressHistory, weekIndex)) ==>
        progressHistory == old(progressHistory) && justCompleted == old(justCompleted)
        && completionCalls == old(completionCalls)
      ensures |progressHistory| == |old(progressHistory)|
      ensures forall j :: 0 <= j < |progressHistory| && old(progressHistory)[j] ==> progressHistory[j]
    {
      if NewlyComplete(week, checkedHabits, milestoneChecked, progressHistory, weekIndex) {
        progressHistory := MarkWeek(progressHistory, weekIndex);
        justCompleted := true;
        completionCalls := completionCalls + 1;
      }
    }

    /** Ticking or unticking habit `idx`, then the completion effect. */
    method SetHabit(idx: nat, v: bool)
      modifies this
      ensures checkedHabits == Assign(old(checkedHabits), idx, v)
      ensures milestoneChecked == old(milestoneChecked) && week == old(week) && weekIndex == old(weekIndex)
      ensures NewlyComplete(week, checkedHabits, milestoneChecked, old(progressHistory), weekIndex) ==>
        progressHistory == MarkWeek(old(progressHistory), weekIndex) && justCompleted
        && completionCalls == old(completionCalls) + 1
      ensures !NewlyComplete(week, checkedHabits, milestoneChecked, old(progressHistory), weekIndex) ==>
        progressHistory == old(progressHistory) && justCompleted == old(justCompleted)
        && completionCalls == old(completionCalls)
      ensures |progressHistory| == |old(progressHistory)|
      ensures forall j :: 0 <= j < |progressHistory| && old(progressHistory)[j] ==> progressHistory[j]
      ensures Recorded(old(progressHistory), weekIndex) ==>
        progressHistory == old(progressHistory) && completionCalls == old(completionCalls)
    {
      checkedHabits := Assign(checkedHabits, idx, v);
      AutoComplete();
    }

    /** Ticking or unticking the milestone; the completion effect runs only when the value changes. */
    method SetMilestone(v: bool)
      modifies this
      ensures milestoneChecked == v && checkedHabits == old(checkedHabits)
      ensures week == old(week) && weekIndex == old(weekIndex)
      ensures v != old(milestoneChecked) && NewlyComplete(week, checkedHabits, v, old(progressHistory), weekIndex) ==>
        progressHistory == MarkWeek(old(progressHistory), weekIndex) && justCompleted
        && completionCalls == old(completionCalls) + 1
      ensures !(v != old(milestoneChecked) && NewlyComplete(week, checkedHabits, v, old(progressHistory), weekIndex)) ==>
        progressHistory == old(progressHistory) && justCompleted == old(justCompleted)
        && completionCalls == old(completionCalls)
      ensures |progressHistory| == |old(progressHistory)|
      ensures forall j :: 0 <= j < |progressHistory| && old(progressHistory)[j] ==> progressHistory[j]
      ensures Recorded(old(progressHistory), weekIndex) ==>
        progressHistory == old(progressHistory) && completionCalls == old(completionCalls)
    {
      if v != milestoneChecked {
        milestoneChecked := v;
        AutoComplete();
      }
    }

    /** "Check Off Progress", enabled only for a complete week, marks it in the history. */
    method CheckOff()
      requires week.Some? && WeekComplete(checkedHabits, week.value, milestoneChecked)
      modifies this
      ensures progressHistory == MarkWeek(old(progressHistory), weekIndex)
      ensures justCompleted && completionCalls == old(completionCalls) + 1
      ensures checkedHabits == old(checkedHabits) && milestoneChecked == old(milestoneChecked)
      ensures week == old(week) && weekIndex == old(weekIndex)
    {
      progressHistory := MarkWeek(progressHistory, weekIndex);
      justCompleted := true;
      completionCalls := completionCalls + 1;
    }

    /** The streak the component shows. */
    method ShownStreak() returns (streak: nat)
      ensures streak == LeadingTrue(progressHistory)
    {
      streak := Streak(progressHistory);
    }
  }
}

/**
 * The weekly roadmap card's habit checkboxes: one box per habit of the week,
 * initialised from the stored array or all unchecked, reset whenever their
 * number no longer matches the habits, and set one at a time.
 */
module WeeklyRoadmapCard {
  import opened Wrappers
  import opened Checkboxes

  class HabitChecklist {
    var checked: Boxes

    /**
     * The state initialiser followed by the length check that also runs on
     * mount: a stored array survives only if it has one box per habit.
     */
    constructor(stored: Option<Boxes>, habitCount: nat)
      ensures stored.Some? && |stored.value| == habitCount ==> checked == stored.value
      ensures !(stored.Some? && |stored.value| == habitCount) ==> checked == Unchecked(habitCount)
      ensures |checked| == habitCount
    {
      checked := if stored.Some? then stored.value else Unchecked(habitCount);
      new;
      SyncLength(habitCount);
    }

    /** The effect on a change of the habit count: a mismatch resets all boxes. */
    method SyncLength(habitCount: nat)
      modifies this
      ensures |old(checked)| != habitCount ==> checked == Unchecked(habitCount)
      ensures |old(checked)| == habitCount ==> checked == old(checked)
      ensures |checked| == habitCount
    {
      if |checked| != habitCount {
        checked := Unchecked(habitCount);
      }
    }

    /** Ticking or unticking habit `i`: only box `i` changes, to `v`. */
    method Check(i: nat, v: bool)
      modifies this
      ensures checked == Assign(old(checked), i, v)
      ensures forall j: nat :: IsChecked(j) == if j == i then v else old(IsChecked(j))
    {
      checked := Assign(checked, i, v);
    }

    /** How box `i` shows: `checkedHabits[i] || false`. */
    predicate IsChecked(i: nat)
      reads this
    {
      Shown(checked, i)
    }
  }
}

/**
 * The dashboard's progress figures: number of plans, completed weeks, total
 * weeks, the weekly completion rate, and the current streak counted over the
 * habit rows sorted by week, latest first.
 */
module ProgressData {
  import opened Wrappers

  /** A `habit_progress` row, reduced to the fields the figures use. */
  datatype HabitRow = HabitRow(week: int, milestoneCompleted: bool)

  /** A `user_plans` row, reduced to its number of weeks. */
  datatype PlanRow = PlanRow(numberOfWeeks: int)

  datatype Summary = Summary(totalPlans: nat, completedWeeks: nat, weeklyCompletionRate: int, currentStreak: nat)

  /** `rows.filter(p => p.milestone_completed).length`. */
  function CountCompleted(rows: seq<HabitRow>): (r: nat)
    ensures r <= |rows|
    ensures r == |rows| <==> forall i :: 0 <= i < |rows| ==> rows[i].milestoneCompleted
  {
    if rows == [] then 0 else (if rows[0].milestoneCompleted then 1 else 0) + CountCompleted(rows[1..])
  }

  /** Counting the completed rows of two row lists one after the other adds up. */
  lemma {:induction false} CountCompletedAppend(a: seq<HabitRow>, b: seq<HabitRow>)
    ensures CountCompleted(a + b) == CountCompleted(a) + CountCompleted(b)
  {
    if a == [] {
      assert a + b == b;
    } else {
      assert (a + b)[0] == a[0];
      assert (a + b)[1..] == a[1..] + b;
      CountCompletedAppend(a[1..], b);
    }
  }

  /** The count of completed rows does not depend on their order. */
  lemma {:induction false} CountCompletedPermutation(a: seq<HabitRow>, b: seq<HabitRow>)
    requires multiset(a) == multiset(b)
    ensures CountCompleted(a) == CountCompleted(b)
    decreases |a|
  {
    if a != [] {
      var x := a[0];
      assert x in multiset(b);
      var k :| 0 <= k < |b| && b[k] == x;
      var rest := b[..k] + b[k + 1..];
      assert b == b[..k] + [x] + b[k + 1..];
      assert a == [x] + a[1..];
      assert multiset(a) == multiset{x} + multiset(a[1..]);
      assert multiset(b) == multiset(b[..k]) + multiset{x} + multiset(b[k + 1..]);
      assert multiset(rest) == multiset(b[..k]) + multiset(b[k + 1..]);
      assert multiset(rest) == multiset(b) - multiset{x};
      assert multiset(a[1..]) == multiset(a) - multiset{x};
      CountCompletedPermutation(a[1..], rest);
      CountCompletedAppend(b[..k] + [x], b[k + 1..]);
      CountCompletedAppend(b[..k], [x]);
      CountCompletedAppend(b[..k], b[k + 1..]);
    }
  }

  /** `plans.reduce((sum, plan) => sum + plan.number_of_weeks, 0)`. */
  function SumWeeks(plans: seq<PlanRow>): (r: int)
    ensures (forall i :: 0 <= i < |plans| ==> plans[i].numberOfWeeks >= 0) ==> r >= 0
  {
    if plans == [] then 0 else SumWeeks(plans[..|plans| - 1]) + plans[|plans| - 1].numberOfWeeks
  }

  /** Each plan adds its own weeks to the total, whatever the plans before it. */
  lemma {:induction false} SumWeeksAppend(a: seq<PlanRow>, b: seq<PlanRow>)
    ensures SumWeeks(a + b) == SumWeeks(a) + SumWeeks(b)
    decreases |b|
  {
    if b == [] {
      assert a + b == a;
    } else {
      assert (a + b)[..|a + b| - 1] == a + b[..|b| - 1];
      assert (a + b)[|a + b| - 1] == b[|b| - 1];
      SumWeeksAppend(a, b[..|b| - 1]);
    }
  }

  /**
   * `Math.round(completed / total * 100)`, or 0 without weeks: the whole
   * percentage nearest to the exact one, halves rounded up.
   */
  function Rate(completed: nat, total: int): (r: int)
    ensures total <= 0 ==> r == 0
    ensures total > 0 ==> 2 * total * r - total <= 200 * completed < 2 * total * r + total
    ensures total > 0 && completed <= total ==> 0 <= r <= 100
  {
    if total > 0 then
      var r := (200 * completed + total) / (2 * total);
      RoundedQuotient(completed, total, r);
      r
    else 0
  }

  /** The quotient taken by `Rate` is the rounded percentage, at most 100 for at most `total` weeks. */
  lemma RoundedQuotient(completed: nat, total: int, r: int)
    requires total > 0 && r == (200 * completed + total) / (2 * total)
    ensures 2 * total * r - total <= 200 * completed < 2 * total * r + total
    ensures completed <= total ==> 0 <= r <= 100
  {
    var x, y := 200 * completed + total, 2 * total;
    assert x == y * r + x % y && 0 <= x % y < y;
    assert y * r == 2 * total * r;
    assert y * (r + 1) == y * r + y;
    PositiveFactor(y, r + 1);
    if completed <= total {
      assert y * (101 - r) == y * 101 - y * r;
      PositiveFactor(y, 101 - r);
    }
  }

  lemma PositiveFactor(y: int, z: int)
    requires y > 0 && y * z > 0
    ensures z > 0
  {
    if z <= 0 {
      NonnegativeProduct(y, -z);
    }
  }

  lemma NonnegativeProduct(a: int, b: int)
    requires a >= 0 && b >= 0
    ensures a * b >= 0
  {
  }

  /** Rows sorted by week, latest first. */
  predicate SortedByWeekDescending(rows: seq<HabitRow>) {
    forall i, j :: 0 <= i < j < |rows| ==> rows[i].week >= rows[j].week
  }

  /** `rows.sort((a, b) => b.week - a.week)`, in place: insertion by adjacent swaps. */
  method SortByWeekDescending(a: array<HabitRow>)
    modifies a
    ensures SortedByWeekDescending(a[..])
    ensures multiset(a[..]) == multiset(old(a[..]))
  {
    if a.Length == 0 {
      return;
    }
    var i := 1;
    while i < a.Length
      invariant 1 <= i <= a.Length
      invariant SortedByWeekDescending(a[..i])
      invariant multiset(a[..]) == multiset(old(a[..]))
    {
      SinkInto(a, i);
      i := i + 1;
    }
    assert a[..] == a[..a.Length];
  }

  /** Moves `a[i]` left past every row of an earlier week, so that `a[..i + 1]` becomes sorted. */
  method SinkInto(a: array<HabitRow>, i: nat)
    requires i < a.Length && SortedByWeekDescending(a[..i])
    modifies a
    ensures SortedByWeekDescending(a[..i + 1])
    ensures multiset(a[..]) == multiset(old(a[..]))
  {
    var j := i;
    while j > 0 && a[j - 1].week < a[j].week
      invariant 0 <= j <= i
      invariant forall k, l :: 0 <= k < l <= i && k != j && l != j ==> a[k].week >= a[l].week
      invariant forall l :: j < l <= i ==> a[j].week > a[l].week
      invariant 0 < j < i ==> a[j - 1].week >= a[j + 1].week
      invariant multiset(a[..]) == multiset(old(a[..]))
    {
      Swap(a, j - 1, j);
      j := j - 1;
    }
  }

  /** Exchanges two rows. */
  method Swap(a: array<HabitRow>, i: nat, j: nat)
    requires i < a.Length && j < a.Length
    modifies a
    ensures a[..] == old(a[..])[i := old(a[j])][j := old(a[i])]
    ensures multiset(a[..]) == multiset(old(a[..]))
  {
    a[i], a[j] := a[j], a[i];
  }

  /** The number of leading rows whose milestone is completed. */
  function LeadingCompleted(rows: seq<HabitRow>): (r: nat)
    ensures r <= |rows|
    ensures forall i :: 0 <= i < r ==> rows[i].milestoneCompleted
    ensures r < |rows| ==> !rows[r].milestoneCompleted
  {
    if rows == [] || !rows[0].milestoneCompleted then 0 else 1 + LeadingCompleted(rows[1..])
  }

  /** The streak never exceeds the completed weeks, in whatever order the rows come. */
  lemma StreakAtMostCompleted(sorted: seq<HabitRow>, rows: seq<HabitRow>)
    requires multiset(sorted) == multiset(rows)
    ensures LeadingCompleted(sorted) <= CountCompleted(rows)
  {
    var n := LeadingCompleted(sorted);
    assert sorted == sorted[..n] + sorted[n..];
    CountCompletedAppend(sorted[..n], sorted[n..]);
    assert CountCompleted(sorted[..n]) == n;
    CountCompletedPermutation(sorted, rows);
  }

  /** The streak loop: count rows while their milestone is completed. */
  method CurrentStreak(rows: seq<HabitRow>) returns (streak: nat)
    ensures streak == LeadingCompleted(rows)
  {
    streak := 0;
    for i := 0 to |rows|
      invariant streak == i
      invariant forall k :: 0 <= k < i ==> rows[k].milestoneCompleted
    {
      if !rows[i].milestoneCompleted {
        return;
      }
      streak := streak + 1;
    }
  }

  class ProgressHook {
    var data: Summary
    var loading: bool

    /** The shown streak never exceeds the shown completed weeks. */
    predicate Valid()
      reads this
    {
      data.currentStreak <= data.completedWeeks
    }

    constructor()
      ensures data == Summary(0, 0, 0, 0) && loading && Valid()
    {
      data, loading := Summary(0, 0, 0, 0), true;
    }

    /**
     * `fetchProgressData` with the query results as parameters; `null`
     * results count as no rows. Nothing happens without a signed-in user. The
     * habit rows are sorted in place, as the hook sorts the array it fetched.
     */
    method FetchProgressData(userId: string, plans: Option<seq<PlanRow>>, habitRows: array?<HabitRow>)
      requires Valid()
      modifies this, habitRows
      ensures Valid()
      ensures userId == "" ==> data == old(data) && loading == old(loading)
      ensures userId == "" && habitRows != null ==> habitRows[..] == old(habitRows[..])
      ensures userId != "" ==> !loading
      ensures userId != "" ==> data.totalPlans == if plans.Some? then |plans.value| else 0
      ensures userId != "" ==> data.completedWeeks == if habitRows != null then CountCompleted(old(habitRows[..])) else 0
      ensures userId != "" ==>
        data.weeklyCompletionRate == Rate(data.completedWeeks, if plans.Some? then SumWeeks(plans.value) else 0)
      ensures userId != "" && habitRows != null ==>
        && SortedByWeekDescending(habitRows[..])
        && multiset(habitRows[..]) == multiset(old(habitRows[..]))
        && data.currentStreak == LeadingCompleted(habitRows[..])
      ensures userId != "" && habitRows == null ==> data.currentStreak == 0
    {
      if userId == "" {
        return;
      }
      loading := true;
      var totalPlans := if plans.Some? then |plans.value| else 0;
      var completedWeeks := if habitRows != null then CountCompleted(habitRows[..]) else 0;
      var totalWeeks := if plans.Some? then SumWeeks(plans.value) else 0;
      var rate := Rate(completedWeeks, totalWeeks);
      var streak := 0;
      if habitRows != null {
        ghost var fetched := habitRows[..];
        SortByWeekDescending(habitRows);
        streak := CurrentStreak(habitRows[..]);
        StreakAtMostCompleted(habitRows[..], fetched);
      }
      data := Summary(totalPlans, completedWeeks, rate, streak);
      loading := false;
    }
  }
}

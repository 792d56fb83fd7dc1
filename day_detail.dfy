/**
 * The day detail view: the day's goals (the ones passed in, or three
 * defaults), its habits, toggling either by id, and the completion summary.
 */
module DayDetailView {
  import opened Text

  datatype Priority = High | Medium | Low
  datatype Category = Learning | Practice | Reflection | HabitCategory

  /** A row the view can tick off: a goal or a habit, each with an id and a completed flag. */
  datatype Item =
    | DayGoal(id: string, title: string, description: string, estimatedTime: string,
              priority: Priority, completed: bool, category: Category)
    | DayHabit(id: string, name: string, completed: bool)

  datatype Day = Day(day: string, focus: string, tasks: seq<string>, habits: seq<string>, reflectionPrompt: string)

  /** `tasks[i] || fallback`: a missing or empty task falls back. */
  function TaskOr(tasks: seq<string>, i: nat, fallback: string): (r: string)
    ensures i < |tasks| && tasks[i] != "" ==> r == tasks[i]
    ensures !(i < |tasks| && tasks[i] != "") ==> r == fallback
  {
    if i < |tasks| && tasks[i] != "" then tasks[i] else fallback
  }

  /** The goals the view starts with: the given ones, or a learning, a practice and a reflection goal. */
  function InitialGoals(day: Day, dayGoals: seq<Item>): (r: seq<Item>)
    ensures r != []
    ensures dayGoals != [] ==> r == dayGoals
    ensures dayGoals == [] ==>
      && |r| == 3 && r[0].id == "1" && r[1].id == "2" && r[2].id == "3"
      && (forall i :: 0 <= i < 3 ==> r[i].DayGoal? && !r[i].completed)
      && r[0].description == TaskOr(day.tasks, 0, "Complete daily learning task")
      && r[1].description == TaskOr(day.tasks, 1, "Apply what you learned today")
      && r[2].description == day.reflectionPrompt
  {
    if dayGoals != [] then dayGoals
    else [
      DayGoal("1", "Morning Learning Session", TaskOr(day.tasks, 0, "Complete daily learning task"),
              "45 min", High, false, Learning),
      DayGoal("2", "Practice Application", TaskOr(day.tasks, 1, "Apply what you learned today"),
              "30 min", High, false, Practice),
      DayGoal("3", "Evening Reflection", day.reflectionPrompt, "15 min", Medium, false, Reflection)
    ]
  }

  /** One unfinished habit per habit of the day, with its position as id. */
  function InitialHabits(day: Day): (r: seq<Item>)
    ensures |r| == |day.habits|
    ensures forall i :: 0 <= i < |r| ==> r[i] == DayHabit(NatToString(i), day.habits[i], false)
  {
    seq(|day.habits|, i requires 0 <= i < |day.habits| => DayHabit(NatToString(i), day.habits[i], false))
  }

  /** Habits whose ids are their positions. */
  predicate IdsArePositions(habits: seq<Item>) {
    forall i :: 0 <= i < |habits| ==> habits[i].id == NatToString(i)
  }

  /** The initial habits have distinct ids, namely their positions. */
  lemma InitialHabitIds(day: Day)
    ensures IdsArePositions(InitialHabits(day))
    ensures var h := InitialHabits(day); forall i, j :: 0 <= i < j < |h| ==> h[i].id != h[j].id
  {
    var h := InitialHabits(day);
    forall i, j | 0 <= i < j < |h|
      ensures h[i].id != h[j].id
    {
      assert DecimalValue(h[i].id) == i && DecimalValue(h[j].id) == j;
    }
  }

  /** `toggleGoal` and `toggleHabit`: every item with that id flips; the others stay as they are. */
  function Toggled(items: seq<Item>, id: string): (r: seq<Item>)
    ensures |r| == |items|
    ensures forall i :: 0 <= i < |r| ==>
      r[i].completed == (if items[i].id == id then !items[i].completed else items[i].completed)
    ensures forall i :: 0 <= i < |r| ==> r[i].(completed := items[i].completed) == items[i]
  {
    seq(|items|, i requires 0 <= i < |items| =>
      if items[i].id == id then items[i].(completed := !items[i].completed) else items[i])
  }

  /** Toggling an id twice restores the items. */
  lemma ToggledTwice(items: seq<Item>, id: string)
    ensures Toggled(Toggled(items, id), id) == items
  {
  }

  /** With ids that are positions, toggling habit `k` flips exactly habit `k` and keeps the ids. */
  lemma HabitToggleFlipsOne(habits: seq<Item>, k: nat)
    requires IdsArePositions(habits) && k < |habits|
    ensures var r := Toggled(habits, NatToString(k));
      && IdsArePositions(r)
      && r[k].completed == !habits[k].completed
      && forall i :: 0 <= i < |r| && i != k ==> r[i] == habits[i]
  {
    var r := Toggled(habits, NatToString(k));
    forall i | 0 <= i < |r| && i != k
      ensures r[i] == habits[i]
    {
      assert DecimalValue(habits[i].id) == i && DecimalValue(NatToString(k)) == k;
    }
  }

  /** `goals.filter(goal => goal.completed).length`, and the same for habits. */
  function CompletedCount(items: seq<Item>): (r: nat)
    ensures r <= |items|
    ensures r == |items| <==> forall i :: 0 <= i < |items| ==> items[i].completed
  {
    if items == [] then 0 else (if items[0].completed then 1 else 0) + CompletedCount(items[1..])
  }

  /** "Day Complete": the completed goals and habits make up all of them. */
  function DayComplete(goals: seq<Item>, habits: seq<Item>): (r: bool)
    ensures r <==>
      (forall i :: 0 <= i < |goals| ==> goals[i].completed) && (forall i :: 0 <= i < |habits| ==> habits[i].completed)
  {
    CompletedCount(goals) + CompletedCount(habits) == |goals| + |habits|
  }

  class DayDetail {
    var goals: seq<Item>
    var habits: seq<Item>

    /** The progress percentage divides by the number of goals and habits, which is never zero. */
    predicate Valid()
      reads this
    {
      goals != [] && IdsArePositions(habits)
    }

    constructor(day: Day, dayGoals: seq<Item>)
      ensures goals == InitialGoals(day, dayGoals) && habits == InitialHabits(day)
      ensures Valid() && |goals| + |habits| > 0
    {
      goals := InitialGoals(day, dayGoals);
      habits := InitialHabits(day);
      InitialHabitIds(day);
    }

    method ToggleGoal(id: string)
      requires Valid()
      modifies this
      ensures goals == Toggled(old(goals), id) && habits == old(habits)
      ensures Valid()
    {
      goals := Toggled(goals, id);
    }

    method ToggleHabit(id: string)
      requires Valid()
      modifies this
      ensures habits == Toggled(old(habits), id) && goals == old(goals)
      ensures Valid()
    {
      habits := Toggled(habits, id);
    }
  }
}

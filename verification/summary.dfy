/** The derived metrics of `components/SummaryCards.tsx`: calories left
    under the goal, percentage of the goal reached, and the bar colour. */
module Summary {

  function Max(a: real, b: real): real { if a >= b then a else b }
  function Min(a: real, b: real): real { if a <= b then a else b }

  /** `remaining = Math.max(0, goal - total)`. */
  function Remaining(total: real, goal: real): (r: real)
    ensures r >= 0.0
    ensures total <= goal ==> r == goal - total
    ensures total >= goal ==> r == 0.0
    ensures r + Min(total, goal) == goal
  {
    Max(0.0, goal - total)
  }

  /** `percentage = Math.min(100, (total / goal) * 100)`, for a non-zero goal. */
  function Percentage(total: real, goal: real): (r: real)
    requires goal != 0.0
    ensures r <= 100.0
    ensures goal > 0.0 && total >= 0.0 ==> 0.0 <= r
    ensures goal > 0.0 ==> (r == 100.0 <==> total >= goal)
    ensures goal > 0.0 && total < goal ==> r * goal == total * 100.0
    ensures goal < 0.0 ==> (r == 100.0 <==> total <= goal)
    ensures goal < 0.0 && total > goal ==> r * goal == total * 100.0
  {
    var p := (total / goal) * 100.0;
    assert p * goal == total * 100.0;
    Min(100.0, p)
  }

  /** The progress bar's colour class. */
  datatype BarColour = Red | Purple

  /** Red when the percentage exceeds 100, purple otherwise. */
  function BarColourOf(percentage: real): (c: BarColour)
    ensures c == Red <==> percentage > 100.0
  {
    if percentage > 100.0 then Red else Purple
  }

  /** The percentage is clamped before the colour test, so the bar is never
      red: the over-goal branch cannot be taken. */
  lemma OverGoalColourUnreachable(total: real, goal: real)
    requires goal != 0.0
    ensures BarColourOf(Percentage(total, goal)) == Purple
  {
  }

  /** For any fixed goal, more calories never leave more remaining. */
  lemma RemainingMonotone(t1: real, t2: real, goal: real)
    requires t1 <= t2
    ensures Remaining(t2, goal) <= Remaining(t1, goal)
  {
  }

  /** With a fixed positive goal, more calories never lower the percentage. */
  lemma PercentageMonotone(t1: real, t2: real, goal: real)
    requires goal > 0.0
    requires t1 <= t2
    ensures Percentage(t1, goal) <= Percentage(t2, goal)
  {
    assert t2 / goal - t1 / goal == (t2 - t1) / goal;
    assert (t2 - t1) / goal >= 0.0;
    assert (t1 / goal) * 100.0 <= (t2 / goal) * 100.0;
  }
}

/** The summary cards fed from the entry store, as `App.tsx` renders them. */
module Dashboard {
  import opened Types
  import opened Js
  import opened EntryStore
  import opened Summary

  /** Logging two 95-calorie apples on a fresh dashboard: one 190-calorie
      entry, a daily total of 190, 1810 remaining and 9.5% of the goal. */
  lemma AppleScenario(id: string, timestamp: int)
    ensures var s := AddEntry(Initial, Draft("Apple", "Fruits", 2.0, "piece", 95.0), id, timestamp);
      && s.entries[0].totalCalories == 190
      && DailyTotal(s.entries) == 190
      && Remaining(DailyTotal(s.entries) as real, s.goal) == 1810.0
      && Percentage(DailyTotal(s.entries) as real, s.goal) == 9.5
  {
    var d := Draft("Apple", "Fruits", 2.0, "piece", 95.0);
    RoundUnique(d.servingSize * d.caloriesPerUnit, 190);
    DailyTotalAfterAdd(Initial, d, id, timestamp);
  }
}

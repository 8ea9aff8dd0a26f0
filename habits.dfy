/**
 * The habits screen: the habit list and its two updates, the month metrics shown for
 * the selected habit, and the checkbox and calendar marking predicates.
 */
module Habits {
  import opened Wrappers
  import opened Calendar
  import opened DecimalText

  /** A habit as `GET /habit` returns it; its bookkeeping timestamps are not read. */
  datatype Habit = Habit(id: string, name: string, completedDates: seq<Instant>, userId: string)

  /**
   * The selected habit's month metrics. `completedDates` is absent (`None`) in the
   * empty object the screen starts from and resets to.
   */
  datatype HabitMetrics = HabitMetrics(completedDates: Option<seq<Instant>>)

  const NoMetrics: HabitMetrics := HabitMetrics(None)

  /** The two labels of the metrics panel. */
  datatype MetricsInfo = MetricsInfo(completedDatesPerMonth: string, completedMonthPercent: string)

  /** `Math.round(k / n * 100)` in exact integer arithmetic. */
  function RoundPercent(k: nat, n: nat): (p: nat)
    requires n >= 1
    ensures (2 * p - 1) * n <= 200 * k < (2 * p + 1) * n
  {
    var q := (200 * k + n) / (2 * n);
    var r := (200 * k + n) % (2 * n);
    assert 200 * k + n == 2 * n * q + r && 0 <= r < 2 * n;
    assert (2 * q - 1) * n == 2 * n * q - n;
    assert (2 * q + 1) * n == 2 * n * q + n;
    q
  }

  /** The rounding bound pins the percentage down: no other whole number meets it. */
  lemma RoundPercentUnique(k: nat, n: nat, p: int)
    requires n >= 1
    requires (2 * p - 1) * n <= 200 * k < (2 * p + 1) * n
    ensures p == RoundPercent(k, n)
  {
    var p' := RoundPercent(k, n);
    if p < p' {
      assert (2 * p + 1) * n <= (2 * p' - 1) * n by { MultiplyMonotone(2 * p + 1, 2 * p' - 1, n); }
    } else if p > p' {
      assert (2 * p' + 1) * n <= (2 * p - 1) * n by { MultiplyMonotone(2 * p' + 1, 2 * p - 1, n); }
    }
  }

  lemma MultiplyMonotone(a: int, b: int, n: nat)
    requires a <= b
    ensures a * n <= b * n
  {
  }

  /** More completed days never give a lower percentage. */
  lemma RoundPercentMonotone(k1: nat, k2: nat, n: nat)
    requires n >= 1 && k1 <= k2
    ensures RoundPercent(k1, n) <= RoundPercent(k2, n)
  {
    var p1, p2 := RoundPercent(k1, n), RoundPercent(k2, n);
    if p1 > p2 {
      MultiplyMonotone(2 * p2 + 1, 2 * p1 - 1, n);
    }
  }

  /** No completed day is 0%, every day of the month is 100%. */
  lemma RoundPercentEnds(n: nat)
    requires n >= 1
    ensures RoundPercent(0, n) == 0
    ensures RoundPercent(n, n) == 100
  {
    RoundPercentUnique(0, n, 0);
    RoundPercentUnique(n, n, 100);
  }

  /**
   * `metricsInfo`: "k/n" and "p%" for k completed dates (0 when the field is absent)
   * out of the n days of today's month, p being k/n as a rounded percentage.
   */
  function ComputeMetricsInfo(habitMetrics: HabitMetrics, today: Date): (r: MetricsInfo)
    requires 1 <= today.month <= 12
    ensures var k := if habitMetrics.completedDates.Some? then |habitMetrics.completedDates.value| else 0;
            var n := DaysInMonth(today.year, today.month);
            && ParseFraction(r.completedDatesPerMonth) == Some((k, n))
            && ParsePercent(r.completedMonthPercent) == Some(RoundPercent(k, n))
  {
    var numberOfMonthDays := DaysInMonth(today.year, today.month);
    var numberOfDays := match habitMetrics.completedDates
      case Some(dates) => |dates|
      case None => 0;
    FractionRoundTrip(numberOfDays, numberOfMonthDays);
    PercentRoundTrip(RoundPercent(numberOfDays, numberOfMonthDays));
    MetricsInfo(
      Decimal(numberOfDays) + "/" + Decimal(numberOfMonthDays),
      Decimal(RoundPercent(numberOfDays, numberOfMonthDays)) + "%")
  }

  /** Two completed days in March 2024 read "2/31" and "6%". */
  lemma MetricsInfoExample(d1: Instant, d2: Instant)
    ensures ComputeMetricsInfo(HabitMetrics(Some([d1, d2])), Date(2024, 3, 15)) == MetricsInfo("2/31", "6%")
  {
    assert DaysInMonth(2024, 3) == 31;
    assert RoundPercent(2, 31) == 6;
    assert Decimal(31) == Decimal(3) + [DigitChar(1)];
  }

  /** The habit list without every habit whose id is `id`, the others in their order. */
  function Without(habits: seq<Habit>, id: string): (r: seq<Habit>)
    ensures |r| <= |habits|
    ensures forall h :: h in r <==> h in habits && h.id != id
  {
    if habits == [] then []
    else (if habits[0].id == id then [] else [habits[0]]) + Without(habits[1..], id)
  }

  /** Filtering distributes over concatenation, so the kept habits stay in order. */
  lemma {:induction false} WithoutAppend(a: seq<Habit>, b: seq<Habit>, id: string)
    ensures Without(a + b, id) == Without(a, id) + Without(b, id)
    decreases |a|
  {
    if a == [] {
      assert a + b == b;
    } else {
      assert (a + b)[1..] == a[1..] + b;
      WithoutAppend(a[1..], b, id);
    }
  }

  /** With no habit carrying `id`, deleting it leaves the list as it was. */
  lemma {:induction false} WithoutAbsent(habits: seq<Habit>, id: string)
    requires forall i :: 0 <= i < |habits| ==> habits[i].id != id
    ensures Without(habits, id) == habits
    decreases |habits|
  {
    if habits != [] {
      WithoutAbsent(habits[1..], id);
    }
  }

  /** Deleting the id of a habit just appended, when no other habit has it, gives back the old list. */
  lemma DeleteUndoesSubmit(habits: seq<Habit>, created: Habit)
    requires forall i :: 0 <= i < |habits| ==> habits[i].id != created.id
    ensures Without(habits + [created], created.id) == habits
  {
    WithoutAppend(habits, [created], created.id);
    WithoutAbsent(habits, created.id);
    assert [created][1..] == [];
  }

  /** A habit's checkbox starts checked when one of its completed dates is today's start of day. */
  function CheckedToday(habit: Habit, today: Date): (checked: bool)
    ensures checked <==> exists i :: 0 <= i < |habit.completedDates| && habit.completedDates[i] == DateInstant(today)
  {
    Marked(habit.completedDates, StartOfDay(DateInstant(today)))
  }

  /** A day of the habit calendar is marked when the metrics list a date at that instant. */
  function CalendarMarked(habitMetrics: HabitMetrics, day: Instant): (marked: bool)
    ensures marked <==>
              habitMetrics.completedDates.Some? &&
              exists i :: 0 <= i < |habitMetrics.completedDates.value| && habitMetrics.completedDates.value[i] == day
  {
    match habitMetrics.completedDates
    case Some(dates) => Marked(dates, day)
    case None => false
  }

  class HabitsScreen {
    var habits: seq<Habit>
    var habitMetrics: HabitMetrics
    var selectedHabit: Option<Habit>
    /** Text of the new-habit input field. */
    var newHabitInput: string

    constructor ()
      ensures habits == [] && habitMetrics == NoMetrics && selectedHabit == None && newHabitInput == ""
    {
      habits := [];
      habitMetrics := NoMetrics;
      selectedHabit := None;
      newHabitInput := "";
    }

    /**
     * `handleSubmit`: with a non-empty input, append the habit the API created and
     * clear the field; with an empty one, do nothing.
     */
    method HandleSubmit(createdHabit: Habit)
      modifies this
      ensures old(newHabitInput) != "" ==> habits == old(habits) + [createdHabit] && newHabitInput == ""
      ensures old(newHabitInput) == "" ==> habits == old(habits) && newHabitInput == ""
      ensures habitMetrics == old(habitMetrics) && selectedHabit == old(selectedHabit)
    {
      if newHabitInput != "" {
        newHabitInput := "";
        habits := habits + [createdHabit];
      }
    }

    /** `deleteHabit`: drop the habits with that id and clear the selection and metrics. */
    method DeleteHabit(id: string)
      modifies this
      ensures habits == Without(old(habits), id)
      ensures selectedHabit == None && habitMetrics == NoMetrics
      ensures newHabitInput == old(newHabitInput)
    {
      habits := Without(habits, id);
      selectedHabit := None;
      habitMetrics := NoMetrics;
    }
  }
}

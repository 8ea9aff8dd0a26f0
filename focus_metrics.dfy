/**
 * The two derived views of the focus-time screen: the selected day's total focused
 * minutes and the selected month's cycle count with its marked calendar days.
 */
module FocusMetrics {
  import opened Calendar

  /** A stored focus session as the day view fetches it; its ids, owner and bookkeeping timestamps are not read. */
  datatype FocusTime = FocusTime(timeFrom: Instant, timeTo: Instant)

  /** One row of the month view: a calendar day (`_id`) and how many sessions ended on it. */
  datatype FocusMetric = FocusMetric(id: Date, count: int)

  const MinuteMs: int := 60_000

  /** dayjs `timeTo.diff(timeFrom, "minutes")`: whole minutes, truncated toward zero. */
  function MinutesBetween(timeFrom: Instant, timeTo: Instant): (r: int)
    ensures timeFrom <= timeTo ==> 0 <= r && r * MinuteMs <= timeTo - timeFrom < (r + 1) * MinuteMs
    ensures timeTo < timeFrom ==> r <= 0 && (r - 1) * MinuteMs < timeTo - timeFrom <= r * MinuteMs
  {
    var d := timeTo - timeFrom;
    if d >= 0 then d / MinuteMs else -((-d) / MinuteMs)
  }

  /** Sum of the sessions' whole-minute lengths. */
  function TotalMinutes(times: seq<FocusTime>): int {
    if times == [] then 0
    else
      var last := times[|times| - 1];
      TotalMinutes(times[..|times| - 1]) + MinutesBetween(last.timeFrom, last.timeTo)
  }

  /** Sum of the rows' counts. */
  function TotalCycles(metrics: seq<FocusMetric>): int {
    if metrics == [] then 0 else TotalCycles(metrics[..|metrics| - 1]) + metrics[|metrics| - 1].count
  }

  /** The marked instant for one month-view row: start of day of `_id[0]-_id[1]-_id[2]`. */
  function RowDay(m: FocusMetric): Instant {
    StartOfDay(DateInstant(m.id))
  }

  /** `metricsInfoByDay`: accumulates the total in a loop over the fetched sessions. */
  method MetricsInfoByDay(focusTimes: seq<FocusTime>) returns (totalTimeInMinutes: int)
    ensures totalTimeInMinutes == TotalMinutes(focusTimes)
  {
    totalTimeInMinutes := 0;
    for i := 0 to |focusTimes|
      invariant totalTimeInMinutes == TotalMinutes(focusTimes[..i])
    {
      assert focusTimes[..i + 1][..i] == focusTimes[..i];
      totalTimeInMinutes := totalTimeInMinutes + MinutesBetween(focusTimes[i].timeFrom, focusTimes[i].timeTo);
    }
    assert focusTimes[..|focusTimes|] == focusTimes;
  }

  /**
   * `metricsInfoByMonth`: one marked day per row, in row order, and the sum of the
   * rows' counts.
   */
  method MetricsInfoByMonth(focusMetrics: seq<FocusMetric>) returns (completedDates: seq<Instant>, counter: int)
    ensures |completedDates| == |focusMetrics|
    ensures forall i :: 0 <= i < |focusMetrics| ==> completedDates[i] == RowDay(focusMetrics[i])
    ensures counter == TotalCycles(focusMetrics)
  {
    completedDates := [];
    counter := 0;
    for i := 0 to |focusMetrics|
      invariant |completedDates| == i
      invariant forall j :: 0 <= j < i ==> completedDates[j] == RowDay(focusMetrics[j])
      invariant counter == TotalCycles(focusMetrics[..i])
    {
      assert focusMetrics[..i + 1][..i] == focusMetrics[..i];
      completedDates := completedDates + [StartOfDay(DateInstant(focusMetrics[i].id))];
      counter := counter + focusMetrics[i].count;
    }
    assert focusMetrics[..|focusMetrics|] == focusMetrics;
  }

  /** The daily total is additive: appending sessions adds exactly their minutes. */
  lemma {:induction false} TotalMinutesAppend(a: seq<FocusTime>, b: seq<FocusTime>)
    ensures TotalMinutes(a + b) == TotalMinutes(a) + TotalMinutes(b)
    decreases |b|
  {
    if b == [] {
      assert a + b == a;
    } else {
      var b' := b[..|b| - 1];
      assert (a + b)[..|a + b| - 1] == a + b';
      TotalMinutesAppend(a, b');
    }
  }

  /** Sessions that do not end before they start never make the total negative. */
  lemma {:induction false} TotalMinutesNonNegative(times: seq<FocusTime>)
    requires forall i :: 0 <= i < |times| ==> times[i].timeFrom <= times[i].timeTo
    ensures TotalMinutes(times) >= 0
    decreases |times|
  {
    if times != [] {
      TotalMinutesNonNegative(times[..|times| - 1]);
    }
  }

  /** The monthly counter is additive over the fetched rows. */
  lemma {:induction false} TotalCyclesAppend(a: seq<FocusMetric>, b: seq<FocusMetric>)
    ensures TotalCycles(a + b) == TotalCycles(a) + TotalCycles(b)
    decreases |b|
  {
    if b == [] {
      assert a + b == a;
    } else {
      var b' := b[..|b| - 1];
      assert (a + b)[..|a + b| - 1] == a + b';
      TotalCyclesAppend(a, b');
    }
  }

  /**
   * On the focus calendar, a valid date is marked exactly when some row of the
   * month view carries that date.
   */
  lemma MonthMarking(focusMetrics: seq<FocusMetric>, completedDates: seq<Instant>, d: Date)
    requires forall i :: 0 <= i < |focusMetrics| ==> ValidDate(focusMetrics[i].id)
    requires |completedDates| == |focusMetrics|
    requires forall i :: 0 <= i < |focusMetrics| ==> completedDates[i] == RowDay(focusMetrics[i])
    requires ValidDate(d)
    ensures Marked(completedDates, DateInstant(d)) <==> exists i :: 0 <= i < |focusMetrics| && focusMetrics[i].id == d
  {
    if Marked(completedDates, DateInstant(d)) {
      var i :| 0 <= i < |completedDates| && completedDates[i] == DateInstant(d);
      DateInstantIsStartOfDay(focusMetrics[i].id);
      DateInstantInjective(focusMetrics[i].id, d);
    }
    if i :| 0 <= i < |focusMetrics| && focusMetrics[i].id == d {
      DateInstantIsStartOfDay(d);
      assert completedDates[i] == DateInstant(d);
    }
  }

  /** Sessions 10:00-10:25 and 11:00-11:05 make 30 minutes. */
  lemma DayTotalExample()
    ensures TotalMinutes([FocusTime(36_000_000, 37_500_000), FocusTime(39_600_000, 39_900_000)]) == 30
  {
    var times := [FocusTime(36_000_000, 37_500_000), FocusTime(39_600_000, 39_900_000)];
    assert times[..1] == [times[0]];
    assert times[..1][..0] == [];
  }

  /** Rows for 2024-03-01 (2 cycles) and 2024-03-02 (1 cycle) count 3 cycles and mark exactly those two days. */
  lemma MonthExample(d: Date)
    requires ValidDate(d)
    ensures var rows := [FocusMetric(Date(2024, 3, 1), 2), FocusMetric(Date(2024, 3, 2), 1)];
            && TotalCycles(rows) == 3
            && (Marked([RowDay(rows[0]), RowDay(rows[1])], DateInstant(d)) <==> d == Date(2024, 3, 1) || d == Date(2024, 3, 2))
  {
    var rows := [FocusMetric(Date(2024, 3, 1), 2), FocusMetric(Date(2024, 3, 2), 1)];
    assert rows[..1] == [rows[0]];
    assert rows[..1][..0] == [];
    MonthMarking(rows, [RowDay(rows[0]), RowDay(rows[1])], d);
    assert (exists i :: 0 <= i < |rows| && rows[i].id == d) <==> (rows[0].id == d || rows[1].id == d);
  }
}

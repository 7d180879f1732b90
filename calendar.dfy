/** The shift calendar: one working day is the single shift 08:00-16:30, so
    solver time is counted in working minutes, 510 to a day. A point in real
    time is a day number and a minute of that day. */
module Calendar {
  import opened Common

  const ShiftStartHour: int := 8
  const ShiftStartMin: int := 0
  const ShiftEndHour: int := 16
  const ShiftEndMin: int := 30
  const MinutesPerDay: int := 1440

  /** Minute of the day at which the shift opens and closes. */
  const ShiftOpen: int := ShiftStartHour * 60 + ShiftStartMin
  const ShiftClose: int := ShiftEndHour * 60 + ShiftEndMin
  const ShiftDurationMinutes: int := ShiftClose - ShiftOpen

  /** Working minutes reported for a date that is missing. */
  const MissingDateMinutes: int := 999999

  datatype Moment = Moment(day: int, minute: int)

  ghost predicate ValidMoment(m: Moment)
  {
    0 <= m.minute < MinutesPerDay
  }

  /** Inside the working shift [08:00, 16:30). */
  ghost predicate InShift(m: Moment)
  {
    ShiftOpen <= m.minute < ShiftClose
  }

  /** Minutes since day 0, 00:00; comparing these is comparing datetimes. */
  function Stamp(m: Moment): int
  {
    m.day * MinutesPerDay + m.minute
  }

  predicate Later(a: Moment, b: Moment)
  {
    Stamp(a) > Stamp(b)
  }

  /** `(target - start).days`: Python normalises a timedelta so that its day
      count is the floor of the difference in days. */
  function WholeDaysBetween(start: Moment, target: Moment): (d: int)
    ensures d * MinutesPerDay <= Stamp(target) - Stamp(start) < d * MinutesPerDay + MinutesPerDay
  {
    (Stamp(target) - Stamp(start)) / MinutesPerDay
  }

  /** A date as working minutes after the simulation start: whole days of
      difference times the shift length; a missing date gives 999999. */
  function GetWorkingMinutesFromDate(start: Moment, target: Option<Moment>): (r: int)
    ensures target.None? ==> r == MissingDateMinutes
    ensures target.Some? ==>
              r % ShiftDurationMinutes == 0 &&
              r / ShiftDurationMinutes * MinutesPerDay <= Stamp(target.value) - Stamp(start) <
              r / ShiftDurationMinutes * MinutesPerDay + MinutesPerDay
  {
    if target.None? then MissingDateMinutes
    else
      var d := WholeDaysBetween(start, target.value);
      assert d * ShiftDurationMinutes / ShiftDurationMinutes == d;
      d * ShiftDurationMinutes
  }

  /** The working offset of a point in real time: whole days after the
      start's date times the shift length, plus the minutes since the shift
      opened on that day. */
  function WorkingOffset(start: Moment, m: Moment): int
  {
    (m.day - start.day) * ShiftDurationMinutes + (m.minute - ShiftOpen)
  }

  /** Working minutes back to real time: `worked div 510` days after the
      start's date at 08:00, plus `worked mod 510` minutes. The result always
      lies inside the shift and its working offset is `worked`. */
  function WorkingMinutesToRealTime(start: Moment, worked: int): (r: Moment)
    ensures ValidMoment(r) && InShift(r)
    ensures WorkingOffset(start, r) == worked
  {
    var fullShifts := worked / ShiftDurationMinutes;
    var remainder := worked % ShiftDurationMinutes;
    Moment(start.day + fullShifts, ShiftOpen + remainder)
  }

  /** Every point inside the shift is the real time of its own working
      offset, so the two functions are inverse to each other. */
  lemma RealTimeOfOffset(start: Moment, m: Moment)
    requires InShift(m)
    ensures WorkingMinutesToRealTime(start, WorkingOffset(start, m)) == m
  {
    var w := WorkingOffset(start, m);
    var k := m.day - start.day;
    var rem := m.minute - ShiftOpen;
    assert w == k * ShiftDurationMinutes + rem && 0 <= rem < ShiftDurationMinutes;
    DivModUnique(w, k, rem);
  }

  lemma DivModUnique(w: int, k: int, rem: int)
    requires 0 <= rem < ShiftDurationMinutes && w == k * ShiftDurationMinutes + rem
    ensures w / ShiftDurationMinutes == k && w % ShiftDurationMinutes == rem
  {
    var q, r := w / ShiftDurationMinutes, w % ShiftDurationMinutes;
    assert w == q * ShiftDurationMinutes + r;
  }

  /** A whole number of shifts after the start is the opening of a shift:
      510·k working minutes are 08:00 of the k-th day after the start. */
  lemma WholeShiftsAreOpenings(start: Moment, k: int)
    ensures WorkingMinutesToRealTime(start, k * ShiftDurationMinutes) == Moment(start.day + k, ShiftOpen)
  {
    DivModUnique(k * ShiftDurationMinutes, k, 0);
  }

  /** The objective's deadline for a due datetime: with the start at 08:00,
      the due date's working minutes stand for 08:00 of the due day when the
      due time is 08:00 or later, and for 08:00 of the day before when it is
      earlier (midnight, say), since only whole days are counted. */
  lemma DueDeadline(start: Moment, due: Moment)
    requires start.minute == ShiftOpen && ValidMoment(due)
    ensures WorkingMinutesToRealTime(start, GetWorkingMinutesFromDate(start, Some(due))) ==
            Moment(if due.minute >= ShiftOpen then due.day else due.day - 1, ShiftOpen)
  {
    var diff := Stamp(due) - Stamp(start);
    var k := if due.minute >= ShiftOpen then due.day - start.day else due.day - start.day - 1;
    assert diff == k * MinutesPerDay + (due.minute - ShiftOpen + (if due.minute >= ShiftOpen then 0 else MinutesPerDay));
    var d := WholeDaysBetween(start, due);
    DivModUniqueDays(diff, k, diff - k * MinutesPerDay);
    WholeShiftsAreOpenings(start, k);
  }

  lemma DivModUniqueDays(x: int, k: int, rem: int)
    requires 0 <= rem < MinutesPerDay && x == k * MinutesPerDay + rem
    ensures x / MinutesPerDay == k
  {
    var q, r := x / MinutesPerDay, x % MinutesPerDay;
    assert x == q * MinutesPerDay + r;
  }

  /** More working minutes never map to an earlier real time, and strictly
      more map to a strictly later one. */
  lemma RealTimeMonotone(start: Moment, w1: int, w2: int)
    requires w1 < w2
    ensures Later(WorkingMinutesToRealTime(start, w2), WorkingMinutesToRealTime(start, w1))
  {
    var a := WorkingMinutesToRealTime(start, w1);
    var b := WorkingMinutesToRealTime(start, w2);
    if a.day >= b.day {
      assert (a.day - b.day) * ShiftDurationMinutes >= 0;
      assert WorkingOffset(start, a) - WorkingOffset(start, b) ==
             (a.day - b.day) * ShiftDurationMinutes + (a.minute - b.minute);
    }
  }

  /** Real times compare as their working minutes do. */
  lemma RealTimeOrder(start: Moment, w1: int, w2: int)
    ensures Later(WorkingMinutesToRealTime(start, w2), WorkingMinutesToRealTime(start, w1)) <==> w1 < w2
  {
    if w1 < w2 {
      RealTimeMonotone(start, w1, w2);
    } else if w2 < w1 {
      RealTimeMonotone(start, w2, w1);
    }
  }

  /** The simulation starts at 08:00 today, or tomorrow once the clock has
      reached 16:00 (the hour is compared, not 16:30). The clock reading is a
      parameter. */
  function SimulationStart(now: Moment): (r: Moment)
    requires ValidMoment(now)
    ensures r.minute == ShiftOpen
    ensures r.day == now.day <==> now.minute < ShiftEndHour * 60
    ensures r.day == now.day || r.day == now.day + 1
  {
    var today := Moment(now.day, ShiftOpen);
    if now.minute / 60 >= ShiftEndHour then Moment(today.day + 1, ShiftOpen) else today
  }

  /** A task the report flags as late (its real end is after the due
      datetime) has a positive lateness in the objective, which compares its
      working end with the due date's working minutes. */
  lemma LateFlagImpliesPastDueMinutes(start: Moment, due: Moment, end: int)
    requires start.minute == ShiftOpen && ValidMoment(due)
    requires Later(WorkingMinutesToRealTime(start, end), due)
    ensures end > GetWorkingMinutesFromDate(start, Some(due))
  {
    var r := WorkingMinutesToRealTime(start, end);
    var d := WholeDaysBetween(start, due);
    var k := r.day - start.day;
    assert end == k * ShiftDurationMinutes + (r.minute - ShiftOpen);
    assert Stamp(due) - Stamp(start) < Stamp(r) - Stamp(start) == k * MinutesPerDay + (r.minute - ShiftOpen);
    if d == k {
      assert r.minute > ShiftOpen;
    } else {
      assert d * ShiftDurationMinutes <= k * ShiftDurationMinutes - ShiftDurationMinutes;
    }
  }

  /** The converse fails: a due date at noon gives 0 working minutes, so an
      end at 09:40 of that day is 100 minutes late for the objective while
      the report does not flag it. */
  lemma PastDueMinutesWithoutLateFlag()
    ensures GetWorkingMinutesFromDate(Moment(0, ShiftOpen), Some(Moment(0, 720))) == 0
    ensures WorkingMinutesToRealTime(Moment(0, ShiftOpen), 100) == Moment(0, 580)
    ensures !Later(WorkingMinutesToRealTime(Moment(0, ShiftOpen), 100), Moment(0, 720))
  {
  }

  /** A due date at midnight moves the objective's deadline to 08:00 of the
      day before: due at day 20, 00:00 gives 19 shifts, so a task ending at
      16:00 of day 19 is 480 minutes late for the objective while the report
      does not flag it. */
  lemma MidnightDueWithoutLateFlag()
    ensures GetWorkingMinutesFromDate(Moment(0, ShiftOpen), Some(Moment(20, 0))) == 19 * ShiftDurationMinutes
    ensures WorkingMinutesToRealTime(Moment(0, ShiftOpen), 19 * ShiftDurationMinutes) == Moment(19, ShiftOpen)
    ensures WorkingMinutesToRealTime(Moment(0, ShiftOpen), 19 * ShiftDurationMinutes + 480) == Moment(19, 960)
    ensures !Later(WorkingMinutesToRealTime(Moment(0, ShiftOpen), 19 * ShiftDurationMinutes + 480), Moment(20, 0))
  {
    DueDeadline(Moment(0, ShiftOpen), Moment(20, 0));
    DivModUnique(19 * ShiftDurationMinutes + 480, 19, 480);
  }
}

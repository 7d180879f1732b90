/** The objective the solver minimises, evaluated on a concrete solved
    schedule: a weighted sum of total lateness, makespan, the spread of the
    resource loads, the peak load and, with the gravity strategy on, the sum
    of all start times. There is no changeover term. */
module Objective {
  import opened Common
  import opened Tables
  import opened Calendar
  import opened PostSolve

  const LatenessWeight: int := 10000
  const MakespanWeight: int := 100
  const LoadRangeWeight: int := 50
  const MaxLoadWeight: int := 1
  const GravityWeight: int := 1

  /** Gravity strategy: pull tasks left by adding the sum of starts. */
  const EnableGravity: bool := true

  /** The upper bound of every time variable: sixty shifts. */
  const Horizon: int := 60 * ShiftDurationMinutes

  /** How far a task with a due date ends after it, in working minutes; a
      task without one contributes nothing. */
  function Lateness(simStart: Moment, t: SolvedTask): int
  {
    if t.due.None? then 0
    else
      var over := t.end - GetWorkingMinutesFromDate(simStart, t.due);
      if over > 0 then over else 0
  }

  function LatenessTerms(simStart: Moment, tasks: seq<SolvedTask>): seq<int>
  {
    seq(|tasks|, i requires 0 <= i < |tasks| => Lateness(simStart, tasks[i]))
  }

  function TotalLateness(simStart: Moment, tasks: seq<SolvedTask>): int
  {
    Sum(LatenessTerms(simStart, tasks))
  }

  function Ends(tasks: seq<SolvedTask>): seq<int>
  {
    seq(|tasks|, i requires 0 <= i < |tasks| => tasks[i].end)
  }

  function Starts(tasks: seq<SolvedTask>): seq<int>
  {
    seq(|tasks|, i requires 0 <= i < |tasks| => tasks[i].start)
  }

  function Makespan(tasks: seq<SolvedTask>): int
    requires tasks != []
  {
    Max(Ends(tasks))
  }

  /** The usage each candidate resource of a task records: its
      duration when selected, else 0. */
  function TaskUsage(t: SolvedTask, sels: seq<Selection>): seq<(int, int)>
  {
    if sels == [] then []
    else
      var sel := sels[|sels| - 1];
      TaskUsage(t, sels[..|sels| - 1]) + [(sel.resource, if sel.selected then t.end - t.start else 0)]
  }

  function UsageEntries(tasks: seq<SolvedTask>): seq<(int, int)>
  {
    if tasks == [] then []
    else
      var t := tasks[|tasks| - 1];
      UsageEntries(tasks[..|tasks| - 1]) + TaskUsage(t, t.selections)
  }

  /** One load per resource that some task lists as a candidate. */
  function Loads(tasks: seq<SolvedTask>): seq<int>
  {
    var entries := UsageEntries(tasks);
    GroupSums(entries, KeysInOrder(entries))
  }

  function MaxLoad(loads: seq<int>): int
  {
    if loads == [] then 0 else Max(loads)
  }

  function LoadRange(loads: seq<int>): int
  {
    if |loads| > 1 then Max(loads) - Min(loads) else 0
  }

  function TotalStart(tasks: seq<SolvedTask>): int
  {
    Sum(Starts(tasks))
  }

  /** The value the solver minimises, for the given schedule. */
  function ObjectiveValue(simStart: Moment, tasks: seq<SolvedTask>): int
    requires tasks != []
  {
    var loads := Loads(tasks);
    LatenessWeight * TotalLateness(simStart, tasks) + MakespanWeight * Makespan(tasks) +
    LoadRangeWeight * LoadRange(loads) + MaxLoadWeight * MaxLoad(loads) +
    (if EnableGravity then GravityWeight * TotalStart(tasks) else 0)
  }

  // ---------------------------------------------------------------- properties

  /** Total lateness is never negative, and it is zero exactly when every
      task with a due date ends by its due date's working minutes. */
  lemma LatenessZeroIffOnTime(simStart: Moment, tasks: seq<SolvedTask>)
    ensures TotalLateness(simStart, tasks) >= 0
    ensures TotalLateness(simStart, tasks) == 0 <==>
            forall i :: 0 <= i < |tasks| && tasks[i].due.Some? ==>
              tasks[i].end <= GetWorkingMinutesFromDate(simStart, tasks[i].due)
  {
    var terms := LatenessTerms(simStart, tasks);
    assert AllNonNegative(terms);
    SumNonNegative(terms);
    if TotalLateness(simStart, tasks) == 0 {
      forall i | 0 <= i < |tasks| && tasks[i].due.Some?
        ensures tasks[i].end <= GetWorkingMinutesFromDate(simStart, tasks[i].due)
      {
        EntryAtMostSum(terms, i);
        assert terms[i] == Lateness(simStart, tasks[i]) == 0;
      }
    }
    if forall i :: 0 <= i < |tasks| && tasks[i].due.Some? ==>
                    tasks[i].end <= GetWorkingMinutesFromDate(simStart, tasks[i].due) {
      forall i | 0 <= i < |terms| ensures terms[i] == 0 {
        assert terms[i] == Lateness(simStart, tasks[i]);
      }
      SumOfZeros(terms);
    }
  }

  /** Every task ends by the makespan, and some task ends at it. */
  lemma MakespanSpec(tasks: seq<SolvedTask>)
    requires tasks != []
    ensures forall i :: 0 <= i < |tasks| ==> tasks[i].end <= Makespan(tasks)
    ensures exists i :: 0 <= i < |tasks| && tasks[i].end == Makespan(tasks)
  {
    var ends := Ends(tasks);
    assert forall i :: 0 <= i < |tasks| ==> ends[i] == tasks[i].end;
    var k :| 0 <= k < |ends| && ends[k] == Max(ends);
    assert tasks[k].end == Makespan(tasks);
  }

  function SelectedCount(sels: seq<Selection>): nat
  {
    if sels == [] then 0 else SelectedCount(sels[..|sels| - 1]) + (if sels[|sels| - 1].selected then 1 else 0)
  }

  /** The work the schedule puts on resources: each task's duration once per
      selected candidate. */
  function SelectedWork(tasks: seq<SolvedTask>): int
  {
    if tasks == [] then 0
    else
      var t := tasks[|tasks| - 1];
      SelectedWork(tasks[..|tasks| - 1]) + (t.end - t.start) * SelectedCount(t.selections)
  }

  lemma {:induction false} TaskUsageTotal(t: SolvedTask, sels: seq<Selection>)
    ensures SumValues(TaskUsage(t, sels)) == (t.end - t.start) * SelectedCount(sels)
  {
    if sels != [] {
      var q := sels[..|sels| - 1];
      TaskUsageTotal(t, q);
      var e := (sels[|sels| - 1].resource, if sels[|sels| - 1].selected then t.end - t.start else 0);
      SumValuesAppend(TaskUsage(t, q), [e]);
      assert SumValues([e]) == e.1;
    }
  }

  lemma {:induction false} UsageTotal(tasks: seq<SolvedTask>)
    ensures SumValues(UsageEntries(tasks)) == SelectedWork(tasks)
  {
    if tasks != [] {
      var t := tasks[|tasks| - 1];
      UsageTotal(tasks[..|tasks| - 1]);
      SumValuesAppend(UsageEntries(tasks[..|tasks| - 1]), TaskUsage(t, t.selections));
      TaskUsageTotal(t, t.selections);
    }
  }

  /** The loads of all resources add up to the selected work. */
  lemma TotalLoadIsSelectedWork(tasks: seq<SolvedTask>)
    ensures Sum(Loads(tasks)) == SelectedWork(tasks)
  {
    GroupSumsTotal(UsageEntries(tasks));
    UsageTotal(tasks);
  }

  /** With non-negative loads the spread lies between 0 and the peak load,
      and the peak load bounds every load. */
  lemma LoadTermsBounds(loads: seq<int>)
    requires AllNonNegative(loads)
    ensures forall i :: 0 <= i < |loads| ==> loads[i] <= MaxLoad(loads)
    ensures 0 <= LoadRange(loads) <= MaxLoad(loads)
  {
  }

  /** With every task in a non-negative, forward interval the objective is
      at least its lateness and makespan terms, and never negative. */
  lemma ObjectiveLowerBound(simStart: Moment, tasks: seq<SolvedTask>)
    requires tasks != []
    requires forall i :: 0 <= i < |tasks| ==> 0 <= tasks[i].start <= tasks[i].end
    ensures ObjectiveValue(simStart, tasks) >=
            LatenessWeight * TotalLateness(simStart, tasks) + MakespanWeight * Makespan(tasks) >= 0
  {
    LatenessZeroIffOnTime(simStart, tasks);
    MakespanSpec(tasks);
    var starts := Starts(tasks);
    assert AllNonNegative(starts);
    SumNonNegative(starts);
    var loads := Loads(tasks);
    if loads != [] {
      var m := Max(loads);
      var k :| 0 <= k < |loads| && loads[k] == m;
      assert forall i :: 0 <= i < |loads| ==> Min(loads) <= loads[i] <= m;
      if |loads| > 1 {
        assert Min(loads) <= m;
      }
      UsageNonNegative(tasks);
      LoadsNonNegative(UsageEntries(tasks), KeysInOrder(UsageEntries(tasks)));
    }
  }

  lemma {:induction false} UsageNonNegative(tasks: seq<SolvedTask>)
    requires forall i :: 0 <= i < |tasks| ==> tasks[i].start <= tasks[i].end
    ensures forall i :: 0 <= i < |UsageEntries(tasks)| ==> UsageEntries(tasks)[i].1 >= 0
  {
    if tasks != [] {
      var q := tasks[..|tasks| - 1];
      assert forall i :: 0 <= i < |q| ==> q[i] == tasks[i];
      UsageNonNegative(q);
      TaskUsageNonNegative(tasks[|tasks| - 1], tasks[|tasks| - 1].selections);
    }
  }

  lemma {:induction false} TaskUsageNonNegative(t: SolvedTask, sels: seq<Selection>)
    requires t.start <= t.end
    ensures forall i :: 0 <= i < |TaskUsage(t, sels)| ==> TaskUsage(t, sels)[i].1 >= 0
  {
    if sels != [] {
      TaskUsageNonNegative(t, sels[..|sels| - 1]);
    }
  }

  lemma {:induction false} LoadsNonNegative(entries: seq<(int, int)>, keys: seq<int>)
    requires forall i :: 0 <= i < |entries| ==> entries[i].1 >= 0
    ensures AllNonNegative(GroupSums(entries, keys))
  {
    if keys != [] {
      LoadsNonNegative(entries, keys[..|keys| - 1]);
      var g := Grouped(entries, keys[|keys| - 1]);
      forall i | 0 <= i < |g| ensures g[i] >= 0 {
        GroupedSpec(entries, keys[|keys| - 1], g[i]);
        var j :| 0 <= j < |entries| && entries[j] == (keys[|keys| - 1], g[i]);
      }
      SumNonNegative(g);
    }
  }

  /** Every time variable of the solver lies in [0, Horizon], lateness
      included; a task whose due date lies more than sixty shift-days before
      the simulation start has a lateness beyond that bound whatever its end,
      so no schedule can meet it. */
  lemma FarPastDueExceedsHorizon(simStart: Moment, t: SolvedTask)
    requires t.due.Some? && GetWorkingMinutesFromDate(simStart, t.due) < -Horizon
    requires 0 <= t.end
    ensures Lateness(simStart, t) > Horizon
  {
  }

  /** The weights do not give lateness strict priority: two schedules of the
      same two tasks (same durations, both inside the horizon), where the one
      with less lateness has the larger objective, because its makespan is
      far longer. */
  lemma LatenessDoesNotDominate(s1: seq<SolvedTask>, s2: seq<SolvedTask>)
    requires s1 == [SolvedTask(1, "A", 10, 29400, 30000, [], None),
                    SolvedTask(2, "B", 10, 0, 510, [], Some(Moment(1, ShiftOpen)))]
    requires s2 == [SolvedTask(1, "A", 10, 0, 600, [], None),
                    SolvedTask(2, "B", 10, 1, 511, [], Some(Moment(1, ShiftOpen)))]
    ensures forall i :: 0 <= i < 2 ==> s1[i].end - s1[i].start == s2[i].end - s2[i].start
    ensures forall i :: 0 <= i < 2 ==> 0 <= s1[i].start && s1[i].end <= Horizon && 0 <= s2[i].start && s2[i].end <= Horizon
    ensures TotalLateness(Moment(0, ShiftOpen), s1) < TotalLateness(Moment(0, ShiftOpen), s2)
    ensures ObjectiveValue(Moment(0, ShiftOpen), s1) > ObjectiveValue(Moment(0, ShiftOpen), s2)
  {
    var start := Moment(0, ShiftOpen);
    assert GetWorkingMinutesFromDate(start, Some(Moment(1, ShiftOpen))) == ShiftDurationMinutes;
    assert LatenessTerms(start, s1) == [0, 0];
    assert LatenessTerms(start, s2) == [0, 1];
    assert Ends(s1) == [30000, 510];
    assert Ends(s2) == [600, 511];
    assert Starts(s1) == [29400, 0];
    assert Starts(s2) == [0, 1];
    forall s: seq<SolvedTask> | s == s1 || s == s2 ensures Loads(s) == [] {
      assert s[..1][..0] == [] && s[..1] == [s[0]];
      assert UsageEntries(s[..1]) == [];
      assert UsageEntries(s) == [];
    }
    forall a: int, b: int ensures Sum([a, b]) == a + b {
      assert [a, b][..1] == [a] && [a][..0] == [];
      assert Sum([a]) == a;
    }
    assert Max([30000, 510]) == 30000;
    assert Max([600, 511]) == 600;
  }
}

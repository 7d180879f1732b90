# Production scheduler core, modelled in Dafny

This project models the deterministic rules in `production_scheduler.py` of
the optiplan optimizer. That script loads orders, resources, bills of
materials and changeover rules, builds a CP-SAT model, solves it, and writes
a Gantt chart and database rows. The solver itself is not modelled. Its
answer (each task's start and end in working minutes, and which candidate
resources it selected) is an input to the model. Everything computed around
that answer is modelled:

- **Changeover** (`changeover.dfy`): the lookup tables built from the input
  rows, and `get_changeover_time`. That function compares two orders'
  attribute parameters of the same attribute. A pair with identical ids
  costs 0. Otherwise an exact matrix entry is used, then the attribute's
  standard time, else the pair gives nothing. The collected times are
  combined by `max` on an accumulative resource and by `sum` on any other.
- **Calendar** (`calendar.dfy`): the 510-minute shift (08:00 to 16:30), the
  conversion of dates to working minutes, and the conversion of working
  minutes back to dates.
- **Precedence** (`precedence.dfy`):
  - operations are grouped by order number and sorted by operation number;
  - consecutive operations are chained;
  - each order's last operation and the producers of each part are recorded;
  - BOM links make a consumer order's first operation start after the last
    operation of every producer.
  - The result is a list of precedence pairs, and the module proves what a
    schedule that respects them looks like.
- **PostSolve** (`postsolve.dfy`): the work done on the solved schedule:
  - every order's span;
  - every resource's timeline, sorted by start;
  - the setup minutes charged to each task from its predecessor;
  - the two kinds of output rows: Gantt rows (a changeover block before the
    operation when setup is positive) and database rows.
- **Objective** (`objective.dfy`): the value the solver minimises,
  evaluated for a concrete schedule:
  10000·lateness + 100·makespan + 50·load range + 1·peak load + 1·sum of
  starts (gravity on). The objective has no changeover term.

Shared building blocks:

- `common.dfy`: Option, Python's `sum`, `max` and `min`, truthiness of ids.
- `tables.dfy`: the meaning of a Python dictionary filled by a loop.
  - Assignment, where the last write wins: `LastValue`.
  - `defaultdict(list)` with appends: `Grouped`.
  - Insertion-ordered keys: `KeysInOrder`.
  - Per-key sums: `GroupSums`.
- `sorting.dfy`: a stable sort by an integer key, standing in for Python's
  `sorted` and `list.sort`.

Dates are `Moment(day, minute)`: a day number and a minute of the day.
Seconds are not modelled. The simulation start is a parameter. The code
derives it from the wall clock: 08:00 today, or 08:00 tomorrow from 16:00 on
(`Calendar.SimulationStart`).

The loops of the source are methods with `while`/`for` loops. Each one is
proved against a specification function on its inputs:

- the table builders;
- the nested loops of `get_changeover_time`;
- grouping, producer recording and precedence derivation;
- order spans, timeline building, setup assignment and output rows.

Lemmas then prove the properties listed below about those functions.

## Model

| member | source | states |
|---|---|---|
| Common.Max | production_scheduler.py:156 | `max` of a non-empty list is one of its entries and bounds all of them |
| Common.Min | production_scheduler.py:357 | `min` of a non-empty list is one of its entries and is below all of them |
| Common.MaxEqualsSumIffOnePositive | production_scheduler.py:153-158 | for non-negative times, max equals sum exactly when at most one time is positive |
| Tables.LastValueSpec | production_scheduler.py:69 | a dict filled by assignment has a key iff some row carries it; the value is that of the last such row |
| Tables.LastValueAppend | production_scheduler.py:427-437 | writing a second batch of entries overrides exactly the keys it carries |
| Tables.GroupedSpec | production_scheduler.py:73-77 | a defaultdict(list) filled by appends holds v under k iff the pair (k, v) was appended; the list is non-empty iff k occurs |
| Tables.KeysInOrderSpec | production_scheduler.py:160-162 | a dict's keys in insertion order are distinct and are exactly the keys of the rows |
| Tables.GroupSumsTotal | production_scheduler.py:345-349 | the per-key sums over all keys add up to the sum of all values |
| Sorting.SortByCorrect | production_scheduler.py:168 | sorting by key yields a sorted permutation that keeps the input order among equal keys (Python's sort is stable) |
| Sorting.SortedEnds | production_scheduler.py:170 | after sorting, the first element has the least key and the last the greatest, both taken from the input |
| Calendar.WholeDaysBetween | production_scheduler.py:29-30 | the day count of a timedelta is the floor: that many whole days fit into the difference, and one more does not |
| Calendar.GetWorkingMinutesFromDate | production_scheduler.py:27-31 | a missing date gives 999999; otherwise a multiple of 510 that counts the whole days (floored) between the start and the target |
| Calendar.WorkingMinutesToRealTime | production_scheduler.py:33-39 | the result lies inside a shift, and its working offset from the start is exactly the given minutes |
| Calendar.RealTimeOfOffset | production_scheduler.py:33-39 | converting a moment inside a shift to working minutes and back returns the moment |
| Calendar.WholeShiftsAreOpenings | production_scheduler.py:33-39 | 510·k working minutes are 08:00 of the k-th day after the start |
| Calendar.DueDeadline | production_scheduler.py:27-39 | with the start at 08:00, a due date's working minutes convert back to 08:00 of the due day, or of the day before when the due time is before 08:00 |
| Calendar.RealTimeMonotone | production_scheduler.py:33-39 | more working minutes give a strictly later moment |
| Calendar.RealTimeOrder | production_scheduler.py:33-39 | one converted moment is later than another iff its working minutes are greater |
| Calendar.SimulationStart | production_scheduler.py:178-180 | the start is 08:00; it is the same day iff the hour is before 16, otherwise the next day |
| Calendar.LateFlagImpliesPastDueMinutes | production_scheduler.py:452-457 | a task the report flags late ends after its due date's working minutes, so it has positive lateness in the objective |
| Calendar.PastDueMinutesWithoutLateFlag | production_scheduler.py:249-253 | the converse fails: a task ending at 09:40 with a 12:00 due date that day is not flagged, yet it is 100 minutes late for the objective |
| Calendar.MidnightDueWithoutLateFlag | production_scheduler.py:249-253 | a due date at midnight of day 20 gives the deadline 08:00 of day 19, so a task ending 16:00 of day 19 is 480 minutes late for the objective yet not flagged late |
| Changeover.BuildParamAttributes | production_scheduler.py:69 | the parameter table maps each parameter id to the attribute of its last row |
| Changeover.BuildOrderParams | production_scheduler.py:72-77 | each order lists its truthy parameter ids in row order; orders without any have no entry |
| Changeover.BuildResourceTables | production_scheduler.py:79-85 | a resource has a changeover group iff a row gives it a truthy one (last such row wins); every resource gets its accumulative flag from its last row |
| Changeover.BuildChangeoverMatrix | production_scheduler.py:87-93 | every data row sets its (group, attribute, from, to) key, last row wins, a missing time counting as 0 |
| Changeover.BuildChangeoverStandard | production_scheduler.py:95-100 | only rows with a time set their (group, attribute) key, last row wins |
| Changeover.BuildRules | production_scheduler.py:69-100 | all six tables are built from their rows as the builders above state |
| Changeover.ResolvePair | production_scheduler.py:133-148 | identical ids give 0; otherwise an exact entry gives its time; otherwise the standard time if there is one, else nothing |
| Changeover.StandardTimeOverridden | production_scheduler.py:138-148 | for identical ids or a pair with an exact entry, the standard time is never used: changing it does not change the result |
| Changeover.PairContribution | production_scheduler.py:121-131 | a pair contributes only when both ids are known parameters of the same attribute |
| Changeover.RowTimesUnknownTarget | production_scheduler.py:122-124 | an unknown target parameter collects no times |
| Changeover.RowTimesMembership | production_scheduler.py:128-148 | the inner loop collects time x iff some source parameter's pair with the target contributes x |
| Changeover.CollectTimesMembership | production_scheduler.py:118-148 | the collected times are exactly the contributions of all source/target pairs |
| Changeover.TimesForTarget | production_scheduler.py:128-148 | the inner loop collects exactly the times RowTimes gives for one target parameter |
| Changeover.GetChangeoverTime | production_scheduler.py:103-158 | the nested loops compute the changeover-time function |
| Changeover.ZeroChangeoverCases | production_scheduler.py:108-151 | the time is 0 with no changeover group or with an order without parameters; a non-zero time needs a contributing pair with a non-zero time |
| Changeover.SameParamsNoChangeover | production_scheduler.py:121-136 | orders with the same parameters in any order, at most one per attribute, have zero changeover in both directions and to themselves |
| Changeover.PairsWithinOneListCollectZeros | production_scheduler.py:121-136 | when all source and target parameters come from one list with at most one parameter per attribute, every collected time is 0 |
| Changeover.SelfPairTimes | production_scheduler.py:118-148 | an order with two parameters of one attribute, with exact entries both ways, collects against itself 0, the backward entry, the forward entry and 0, in loop order |
| Changeover.TwoParamsOfOneAttributeSelfChangeover | production_scheduler.py:121-158 | such an order is charged a changeover to itself: the sum of both entries on an additive resource, their maximum on an accumulative one |
| Changeover.AccumulativeBetweenContributionAndAdditive | production_scheduler.py:153-158 | with non-negative tables, every collected time is at most the accumulative result, that result is between 0 and the additive result, and they are equal iff at most one time is positive |
| Changeover.ChangeoverNonNegative | production_scheduler.py:103-158 | with non-negative tables the changeover time is never negative |
| Precedence.GroupOperations | production_scheduler.py:160-162 | the grouping loop yields the insertion-ordered order numbers and each order's operations in row order |
| Precedence.OrderNosSpec | production_scheduler.py:160-162 | the order numbers are distinct and are exactly those of the operations |
| Precedence.OpsOfSpec | production_scheduler.py:160-162 | an order's group holds exactly its operations and is non-empty iff the order is listed |
| Precedence.ProducersSpec | production_scheduler.py:172-176 | an order is a producer of a part iff it is listed and some BOM row of it names that (non-empty) part |
| Precedence.AddProducer | production_scheduler.py:172-176 | the BOM loop for one order appends it, once, to the producers of every part it produces |
| Precedence.RecordLastOpsAndProducers | production_scheduler.py:164-176 | every listed order records the id of the last operation in OpNo order, and the producers of each part are recorded |
| Precedence.FirstAndLastOps | production_scheduler.py:168-171 | the recorded first and last operations have the least and the greatest OpNo of their order |
| Precedence.SortedOpsSpec | production_scheduler.py:259 | an order's sorted operations are its operations, sorted by OpNo |
| Precedence.ChainSorted | production_scheduler.py:260-264 | the inner loop links each consecutive pair of sorted operations that are both tasks |
| Precedence.ChainOperations | production_scheduler.py:258-264 | the outer loop gives the chains of all orders in turn |
| Precedence.ChainOfMembership | production_scheduler.py:260-264 | a chain holds (a, b) iff a and b are the ids of consecutive sorted operations |
| Precedence.ChainOfAllTasks | production_scheduler.py:260-264 | when every operation is a task, a chain has exactly len−1 precedences, one per consecutive pair |
| Precedence.ChainsOverMembership | production_scheduler.py:258-264 | a precedence is in the chains of a list of orders iff it is in the chain of one of them |
| Precedence.ChainLinkSpec | production_scheduler.py:258-264 | a precedence is in an order's chain iff it links two consecutive sorted operations of it |
| Precedence.ChainPrecedencesSpec | production_scheduler.py:258-264 | the chain precedences are exactly the consecutive links within each listed order |
| Precedence.LinkProducers | production_scheduler.py:276-279 | the producer loop of one BOM row links every producer's last task to the first operation |
| Precedence.LinksFromMembership | production_scheduler.py:276-279 | a producer link ends at the consumer's first operation and starts at a producer's truthy last operation id |
| Precedence.LinkRow | production_scheduler.py:267-279 | one BOM row's loop body gives that row's links |
| Precedence.BomLinksMembership | production_scheduler.py:267-279 | a BOM row links (a, b) iff b is its order's first task and a is the last task of a producer of its required part |
| Precedence.LinkBom | production_scheduler.py:266-279 | the BOM loop gives the links of all rows in turn |
| Precedence.BomPrecedencesOverMembership | production_scheduler.py:266-279 | a precedence comes from a list of rows iff one of those rows gives it |
| Precedence.BomPrecedencesSpec | production_scheduler.py:266-279 | the BOM precedences are exactly the links of some row and producer |
| Precedence.DerivePrecedences | production_scheduler.py:258-279 | the precedences added are the chain precedences followed by the BOM precedences |
| Precedence.RespectsAppend | production_scheduler.py:258-279 | a schedule respects two lists of precedences iff it respects each of them |
| Precedence.ChainRunsInSequence | production_scheduler.py:258-264 | in a schedule respecting a chain of tasks, every earlier task ends before every later one starts |
| Precedence.OrderChainRespected | production_scheduler.py:258-264 | respecting all chain precedences means respecting each order's chain |
| Precedence.OrderRunsInOpNoOrder | production_scheduler.py:258-264 | an operation of lower OpNo ends before one of higher OpNo of the same order starts |
| Precedence.ChainEndsByLast | production_scheduler.py:258-264 | no task of a respected chain ends after its last task |
| Precedence.ChainStartsAfterFirst | production_scheduler.py:258-264 | no task of a respected chain starts before its first task |
| Precedence.WithinFirstAndLast | production_scheduler.py:258-274 | every operation of an order lies between the start of its first operation and the end of its last |
| Precedence.ProducerFinishesBeforeConsumer | production_scheduler.py:164-279 | every operation of a part's producer ends before any operation of an order requiring that part starts |
| PostSolve.ComputeOrderSpans | production_scheduler.py:397-406 | the span loop gives each order's span, and nothing for orders without tasks |
| PostSolve.SpanOfSpec | production_scheduler.py:397-406 | a span exists iff the order has a task; it contains all of them, its start is some task's start, its end some task's end or the initial 0 |
| PostSolve.FirstSelectedSpec | production_scheduler.py:417-420 | a task has no resource iff no candidate is selected; otherwise it is the first selected candidate |
| PostSolve.SelectedResource | production_scheduler.py:446-450 | the loop that breaks at the first selection finds the first selected resource |
| PostSolve.PlaceTasks | production_scheduler.py:413-420 | each task is appended to the schedule of its first selected resource, resources keyed in first-use order |
| PostSolve.SortTimelines | production_scheduler.py:423-424 | every resource's schedule is replaced by its stable sort by start |
| PostSolve.BuildResourceSchedules | production_scheduler.py:412-424 | each resource's schedule is its timeline |
| PostSolve.TimelineSpec | production_scheduler.py:412-424 | a timeline holds exactly the slots of the tasks placed on that resource, sorted by start |
| PostSolve.GroupedDistinct | production_scheduler.py:413-420 | with distinct task ids no resource receives a task twice |
| PostSolve.PlacedOnce | production_scheduler.py:414-420 | a task appears on at most one resource, in one slot |
| PostSolve.TimelineDistinct | production_scheduler.py:412-424 | a timeline never holds the same task twice |
| PostSolve.ChargeTimeline | production_scheduler.py:428-437 | one resource's loop writes the charges of its timeline over the earlier entries |
| PostSolve.AssignSetupTimes | production_scheduler.py:426-437 | the setup table holds the last charge written for each task, over all resources in order |
| PostSolve.ChargesOfSpec | production_scheduler.py:428-437 | on a timeline with distinct tasks, each task's charge is that of its own position, and absent tasks get none |
| PostSolve.ChargesOverSpec | production_scheduler.py:426-437 | with every task on at most one timeline, each placed task's setup is the charge at its position |
| PostSolve.ChargesOverAbsent | production_scheduler.py:426-437 | a task on no timeline gets no setup entry |
| PostSolve.SetupFromPredecessor | production_scheduler.py:426-437 | the first task on a resource gets setup 0; every later one gets the changeover from its predecessor on that resource |
| PostSolve.UnplacedTaskHasNoSetup | production_scheduler.py:410-437 | a task with no selected resource has no setup entry (it is read as 0) |
| PostSolve.TaskRows | production_scheduler.py:468-510 | the branch on a positive changeover builds exactly the rows that task expands to |
| PostSolve.BuildOutputs | production_scheduler.py:439-531 | the second pass builds the chart rows and database rows of every task in order |
| PostSolve.ExpandTaskSpec | production_scheduler.py:468-510 | one or two rows; in shift, on the first selected resource; changeover block first when setup > 0, never late; the operation row ends at the real end with the late flag |
| PostSolve.LateRowIsPastDue | production_scheduler.py:455-457 | an operation row flagged late belongs to a task ending after its due date's working minutes |
| PostSolve.ExpandAllLength | production_scheduler.py:468-510 | the chart has one row per task plus one per task with a positive setup |
| PostSolve.RecordWithinOrderSpan | production_scheduler.py:459-528 | every database row's real interval lies within its order's real span |
| PostSolve.ProcessSolution | production_scheduler.py:395-531 | spans, timelines, setup times, chart rows and database rows are each the function stated above |
| Objective.LatenessZeroIffOnTime | production_scheduler.py:338-339 | total lateness is non-negative, and zero iff every task with a due date ends by that date's working minutes |
| Objective.FarPastDueExceedsHorizon | production_scheduler.py:249-253 | a due date more than sixty shifts before the start gives lateness beyond the horizon bound of the lateness variable |
| Objective.MakespanSpec | production_scheduler.py:341-343 | every task ends by the makespan and some task ends at it |
| Objective.TaskUsageTotal | production_scheduler.py:242-245 | a task's usage entries add up to its duration once per selected candidate |
| Objective.UsageTotal | production_scheduler.py:236-245 | all usage entries add up to the selected work |
| Objective.TotalLoadIsSelectedWork | production_scheduler.py:345-349 | the loads of all resources add up to the selected work |
| Objective.TaskUsageNonNegative | production_scheduler.py:242-245 | a forward task's usage entries are non-negative |
| Objective.UsageNonNegative | production_scheduler.py:236-245 | with forward tasks all usage entries are non-negative |
| Objective.LoadsNonNegative | production_scheduler.py:345-349 | non-negative usages give non-negative loads |
| Objective.LoadTermsBounds | production_scheduler.py:351-358 | with non-negative loads, every load is at most the peak load, and the spread lies between 0 and the peak |
| Objective.ObjectiveLowerBound | production_scheduler.py:360-373 | with every task in a forward interval from 0, the objective is at least its weighted lateness and makespan terms, and never negative |
| Objective.LatenessDoesNotDominate | production_scheduler.py:361-371 | two schedules of the same tasks within the horizon: the one with less lateness has the larger objective |

## Left out

- CP-SAT model building and search (lines 184-382) are a foreign library.
  This includes the interval and no-overlap constraints, the `sum == 1`
  selection constraint, and the parallel search workers. The solved
  schedule is an input, so nothing assumes exactly one selected candidate:
  loads count every selected candidate.
- The pairwise changeover constraints (lines 296-330) do not force their
  ordering literal, so they guarantee no gap between consecutive tasks. No
  such gap is stated for the output.
- The setup-time variables are pinned to 0 (lines 333-334). The computed
  but unused `duration` (lines 198-201) is left out too. A task's duration
  is `end - start`.
- Floating point is not modelled: `convert_days_to_working_minutes`,
  `float(...)` in the table builders, the `round` at line 329 and the
  utilisation percentages are left out. Times are integer minutes.
- PostSolve.RecordOf: stores the setup in minutes. The source stores it as
  fractional days (`/1440.0`, line 466), a float conversion.
- Changeover.AccumulativeEntry: reads the accumulative flag as a Boolean
  that may be missing. The source keeps the raw database value and tests its
  truthiness, so an integer 1 counts as accumulative there.
- The wall clock (`datetime.now()`, `time.time()`) is not read. The
  simulation start is a parameter, and `Calendar.SimulationStart` derives
  it from a given moment.
- Seconds and microseconds of dates are not modelled.
- `strftime`, every `print`, and resource names (`res_id_to_name`, the
  "Unassigned" label; a row's resource is `None` instead) are formatting only.
- Operation names, quantities and the other database columns that copy
  input fields are not modelled.
- `group_to_resources` (lines 62-65) only feeds the solver's candidate list:
  each solved task carries its candidates.
- `attribute_map` (line 70) is never used.
- The earliest-start constraint (lines 226-229) belongs to the solver model.
- `database_handler.py`, `results_writer.py`, `visualize_schedule.py` and
  the tests are I/O with no logic of their own.
- Precedence.Operation: `opNo` is a plain integer and `orderNo` a string.
  The `x.get('OpNo', 0)` default for a missing key is not modelled. Neither
  is a NULL `OpNo` or `OrderNo`: a NULL `OpNo` makes `sorted` raise a
  TypeError at lines 168, 259 and 274.
- Calendar.SimulationStart: takes one clock reading. The source reads
  `datetime.now()` twice (lines 178 and 179), so a start taken just before
  16:00 can be moved to the next day by the second reading.
- The `if sorted_ops` test at line 169 is always true, since a group is
  never empty. The model has no such branch.

## Notes on the code

- The objective has no changeover term.
- A lower total lateness does not always give a lower objective. With
  weights 10000 and 100 and a makespan of up to 30600 minutes, a schedule
  with one minute of lateness can score below one with none
  (`Objective.LatenessDoesNotDominate`).
- Every collected pair time is combined, not one cost per attribute. So an
  order with two parameters of one attribute pays a changeover to itself
  (`Changeover.TwoParamsOfOneAttributeSelfChangeover`).
- The chart's late flag compares the real end with the due datetime. The
  objective measures lateness from 08:00 of the last day whose 08:00 is not
  after the due time: the due day itself, or the day before for a due time
  before 08:00 such as midnight (`Calendar.DueDeadline`). The flag implies
  objective lateness, but not the other way round
  (`Calendar.LateFlagImpliesPastDueMinutes`, `Calendar.PastDueMinutesWithoutLateFlag`,
  `Calendar.MidnightDueWithoutLateFlag`).

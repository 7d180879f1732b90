/** What the scheduler does with a solved schedule: the span of every order,
    the timeline of every resource sorted by start, the changeover charged to
    each task from its predecessor on its resource, and the rows written for
    the Gantt chart and the database. The solver's answer is an input: each
    task's start and end in working minutes and which candidate resources it
    selected. */
module PostSolve {
  import opened Common
  import opened Tables
  import opened Sorting
  import opened Calendar
  import opened Changeover

  /** One candidate resource of a task and whether the solver selected it. */
  datatype Selection = Selection(resource: int, selected: bool)

  /** A task as the solver left it. `start` and `end` are working minutes
      after the simulation start. */
  datatype SolvedTask = SolvedTask(id: int, orderNo: string, opNo: int, start: int, end: int,
                                   selections: seq<Selection>, due: Option<Moment>)

  /** The tasks are the values of a dictionary keyed by task id. */
  ghost predicate DistinctIds(tasks: seq<SolvedTask>)
  {
    forall i, j :: 0 <= i < j < |tasks| ==> tasks[i].id != tasks[j].id
  }

  // ------------------------------------------------------------ order spans

  /** The earliest start and the latest end of an order's tasks; the end
      starts out at 0, the start at infinity (no span yet). */
  datatype Span = Span(start: int, end: int)

  function SpanOf(tasks: seq<SolvedTask>, o: string): Option<Span>
  {
    if tasks == [] then None
    else
      var prev := SpanOf(tasks[..|tasks| - 1], o);
      var t := tasks[|tasks| - 1];
      if t.orderNo != o then prev
      else if prev.None? then Some(Span(t.start, if t.end > 0 then t.end else 0))
      else Some(Span(if t.start < prev.value.start then t.start else prev.value.start,
                     if t.end > prev.value.end then t.end else prev.value.end))
  }

  method ComputeOrderSpans(tasks: seq<SolvedTask>) returns (spans: map<string, Span>)
    ensures forall o :: Lookup(spans, o) == SpanOf(tasks, o)
  {
    spans := map[];
    for i := 0 to |tasks|
      invariant forall o :: Lookup(spans, o) == SpanOf(tasks[..i], o)
    {
      var t := tasks[i];
      assert tasks[..i + 1][..i] == tasks[..i];
      var span;
      if t.orderNo in spans {
        var prev := spans[t.orderNo];
        span := Span(if t.start < prev.start then t.start else prev.start,
                     if t.end > prev.end then t.end else prev.end);
      } else {
        span := Span(t.start, if t.end > 0 then t.end else 0);
      }
      ghost var previous := spans;
      spans := spans[t.orderNo := span];
      forall o ensures Lookup(spans, o) == SpanOf(tasks[..i + 1], o) {
        if o != t.orderNo {
          assert Lookup(spans, o) == Lookup(previous, o);
        }
      }
    }
    assert tasks[..|tasks|] == tasks;
  }

  ghost predicate HasOrder(tasks: seq<SolvedTask>, o: string)
  {
    exists i :: 0 <= i < |tasks| && tasks[i].orderNo == o
  }

  /** An order has a span exactly when it has a task; its start is the least
      start of its tasks and its end the greatest of 0 and their ends. */
  lemma {:induction false} SpanOfSpec(tasks: seq<SolvedTask>, o: string)
    ensures SpanOf(tasks, o).Some? <==> HasOrder(tasks, o)
    ensures SpanOf(tasks, o).Some? ==>
              forall i :: 0 <= i < |tasks| && tasks[i].orderNo == o ==>
                SpanOf(tasks, o).value.start <= tasks[i].start && tasks[i].end <= SpanOf(tasks, o).value.end
    ensures SpanOf(tasks, o).Some? ==>
              exists i :: 0 <= i < |tasks| && tasks[i].orderNo == o && tasks[i].start == SpanOf(tasks, o).value.start
    ensures SpanOf(tasks, o).Some? ==>
              SpanOf(tasks, o).value.end >= 0 &&
              (SpanOf(tasks, o).value.end == 0 ||
               exists i :: 0 <= i < |tasks| && tasks[i].orderNo == o && tasks[i].end == SpanOf(tasks, o).value.end)
  {
    if tasks != [] {
      var q := tasks[..|tasks| - 1];
      SpanOfSpec(q, o);
      assert forall i :: 0 <= i < |q| ==> q[i] == tasks[i];
      if HasOrder(q, o) {
        var i :| 0 <= i < |q| && q[i].orderNo == o;
        assert tasks[i].orderNo == o;
      }
      if HasOrder(tasks, o) && tasks[|tasks| - 1].orderNo != o {
        var i :| 0 <= i < |tasks| && tasks[i].orderNo == o;
        assert q[i].orderNo == o;
      }
    }
  }

  // ------------------------------------------------------ resource timelines

  /** A task's entry on a resource timeline. */
  datatype Slot = Slot(start: int, end: int, task: int)

  function SlotOf(t: SolvedTask): Slot
  {
    Slot(t.start, t.end, t.id)
  }

  function SlotStart(s: Slot): int
  {
    s.start
  }

  /** The first selected candidate resource, if any. */
  function FirstSelected(sels: seq<Selection>): Option<int>
  {
    if sels == [] then None
    else if sels[0].selected then Some(sels[0].resource)
    else FirstSelected(sels[1..])
  }

  lemma {:induction false} FirstSelectedSpec(sels: seq<Selection>)
    ensures FirstSelected(sels).None? <==> forall i :: 0 <= i < |sels| ==> !sels[i].selected
    ensures FirstSelected(sels).Some? ==>
              exists i :: 0 <= i < |sels| && sels[i] == Selection(FirstSelected(sels).value, true) &&
                          forall j :: 0 <= j < i ==> !sels[j].selected
  {
    if sels != [] && !sels[0].selected {
      var rest := sels[1..];
      FirstSelectedSpec(rest);
      assert forall i :: 0 <= i < |rest| ==> rest[i] == sels[i + 1];
      if FirstSelected(rest).Some? {
        var i :| 0 <= i < |rest| && rest[i] == Selection(FirstSelected(rest).value, true) &&
                 forall j :: 0 <= j < i ==> !rest[j].selected;
        assert sels[i + 1] == rest[i];
        assert forall j :: 0 < j <= i ==> sels[j] == rest[j - 1];
      }
    }
  }

  /** The loop over a task's selections that stops at the first selected
      resource. */
  method SelectedResource(sels: seq<Selection>) returns (res: Option<int>)
    ensures res == FirstSelected(sels)
  {
    res := None;
    var i := 0;
    while i < |sels|
      invariant 0 <= i <= |sels|
      invariant FirstSelected(sels) == FirstSelected(sels[i..])
    {
      assert sels[i..][1..] == sels[i + 1..];
      if sels[i].selected {
        res := Some(sels[i].resource);
        return;
      }
      i := i + 1;
    }
  }

  /** A task goes, once, onto its first selected resource; a task with no
      selection goes nowhere. */
  function Placement(t: SolvedTask): Option<(int, Slot)>
  {
    var r := FirstSelected(t.selections);
    if r.Some? then Some((r.value, SlotOf(t))) else None
  }

  function Placements(tasks: seq<SolvedTask>): seq<(int, Slot)>
  {
    FilterMap(tasks, Placement)
  }

  /** The resources in the order the timeline dictionary lists them. */
  function ResourceOrder(tasks: seq<SolvedTask>): seq<int>
  {
    KeysInOrder(Placements(tasks))
  }

  /** A resource's timeline: its slots, stably sorted by start. */
  function Timeline(tasks: seq<SolvedTask>, r: int): seq<Slot>
  {
    SortBy(Grouped(Placements(tasks), r), SlotStart)
  }

  /** The first pass: every task appended to its first selected resource. */
  method PlaceTasks(tasks: seq<SolvedTask>) returns (resources: seq<int>, schedules: map<int, seq<Slot>>)
    ensures resources == ResourceOrder(tasks)
    ensures forall r :: r in schedules <==> r in resources
    ensures forall r :: GetOr(schedules, r, []) == Grouped(Placements(tasks), r)
  {
    resources, schedules := [], map[];
    for i := 0 to |tasks|
      invariant resources == ResourceOrder(tasks[..i])
      invariant forall r :: r in schedules <==> r in resources
      invariant forall r :: GetOr(schedules, r, []) == Grouped(Placements(tasks[..i]), r)
    {
      var t := tasks[i];
      ghost var entries := Placements(tasks[..i]);
      FilterMapStep(tasks, i, Placement);
      var res := SelectedResource(t.selections);
      if res.Some? {
        var r := res.value;
        assert Placements(tasks[..i + 1]) == entries + [(r, SlotOf(t))];
        KeysInOrderStep(entries, [(r, SlotOf(t))]);
        GroupedSnoc(entries, [(r, SlotOf(t))]);
        if r !in schedules {
          resources := resources + [r];
        }
        ghost var previous := schedules;
        schedules := schedules[r := GetOr(schedules, r, []) + [SlotOf(t)]];
        forall r' ensures GetOr(schedules, r', []) == Grouped(Placements(tasks[..i + 1]), r') {
          if r' != r {
            assert GetOr(schedules, r', []) == GetOr(previous, r', []);
          }
        }
      } else {
        assert Placements(tasks[..i + 1]) == entries;
      }
    }
    assert tasks[..|tasks|] == tasks;
  }

  /** The second pass: each resource's list sorted by start, in place. */
  method SortTimelines(resources: seq<int>, placed: map<int, seq<Slot>>) returns (schedules: map<int, seq<Slot>>)
    requires forall i, j :: 0 <= i < j < |resources| ==> resources[i] != resources[j]
    requires forall r :: r in placed <==> r in resources
    ensures forall r :: r in schedules <==> r in resources
    ensures forall r :: GetOr(schedules, r, []) == SortBy(GetOr(placed, r, []), SlotStart)
  {
    schedules := placed;
    for k := 0 to |resources|
      invariant forall r :: r in schedules <==> r in resources
      invariant forall r :: GetOr(schedules, r, []) ==
                  if r in resources[..k] then SortBy(GetOr(placed, r, []), SlotStart) else GetOr(placed, r, [])
    {
      var r := resources[k];
      assert resources[..k + 1] == resources[..k] + [r];
      assert r !in resources[..k];
      ghost var previous := schedules;
      schedules := schedules[r := SortBy(schedules[r], SlotStart)];
      forall r' ensures GetOr(schedules, r', []) ==
                        if r' in resources[..k + 1] then SortBy(GetOr(placed, r', []), SlotStart) else GetOr(placed, r', []) {
        if r' != r {
          assert GetOr(schedules, r', []) == GetOr(previous, r', []);
        }
      }
    }
    assert resources[..|resources|] == resources;
  }

  method BuildResourceSchedules(tasks: seq<SolvedTask>) returns (resources: seq<int>, schedules: map<int, seq<Slot>>)
    ensures resources == ResourceOrder(tasks)
    ensures forall r :: r in schedules <==> r in resources
    ensures forall r :: GetOr(schedules, r, []) == Timeline(tasks, r)
  {
    var placed;
    resources, placed := PlaceTasks(tasks);
    KeysInOrderSpec(Placements(tasks));
    schedules := SortTimelines(resources, placed);
  }

  /** A timeline holds exactly the slots of the tasks placed on its resource,
      sorted by start. */
  lemma TimelineSpec(tasks: seq<SolvedTask>, r: int, slot: Slot)
    ensures slot in Timeline(tasks, r) <==> exists i :: 0 <= i < |tasks| && Placement(tasks[i]) == Some((r, slot))
    ensures SortedBy(Timeline(tasks, r), SlotStart)
  {
    var g := Grouped(Placements(tasks), r);
    SortByCorrect(g, SlotStart);
    assert slot in Timeline(tasks, r) <==> slot in multiset(Timeline(tasks, r));
    assert slot in g <==> slot in multiset(g);
    GroupedSpec(Placements(tasks), r, slot);
    FilterMapMembership(tasks, Placement, (r, slot));
  }

  /** No task appears twice on one timeline. */
  ghost predicate DistinctTasks(s: seq<Slot>)
  {
    forall i, j :: 0 <= i < j < |s| ==> s[i].task != s[j].task
  }

  lemma {:induction false} GroupedDistinct(tasks: seq<SolvedTask>, r: int)
    requires DistinctIds(tasks)
    ensures DistinctTasks(Grouped(Placements(tasks), r))
  {
    if tasks != [] {
      var q := tasks[..|tasks| - 1];
      var t := tasks[|tasks| - 1];
      assert forall i :: 0 <= i < |q| ==> q[i] == tasks[i];
      GroupedDistinct(q, r);
      var extra := if Placement(t).Some? then [Placement(t).value] else [];
      assert Placements(tasks) == Placements(q) + extra;
      GroupedSnoc(Placements(q), extra);
      forall x | x in Grouped(Placements(q), r) ensures x.task != t.id {
        GroupedSpec(Placements(q), r, x);
        FilterMapMembership(q, Placement, (r, x));
      }
    }
  }

  lemma {:induction false} DistinctCount(s: seq<Slot>, x: Slot)
    requires DistinctTasks(s)
    ensures multiset(s)[x] <= 1
  {
    if s != [] {
      var q := s[..|s| - 1];
      assert s == q + [s[|s| - 1]];
      DistinctCount(q, x);
      if x == s[|s| - 1] {
        assert x !in q;
      }
    }
  }

  lemma PermutationDistinct(s: seq<Slot>, t: seq<Slot>)
    requires DistinctTasks(s) && multiset(s) == multiset(t)
    ensures DistinctTasks(t)
  {
    forall i, j | 0 <= i < j < |t| ensures t[i].task != t[j].task {
      if t[i].task == t[j].task {
        assert t[i] in multiset(s) && t[j] in multiset(s);
        var a :| 0 <= a < |s| && s[a] == t[i];
        var b :| 0 <= b < |s| && s[b] == t[j];
        assert t == t[..j] + t[j..];
        assert t[i] in t[..j] && t[j] in t[j..];
        assert multiset(t)[t[i]] >= 2;
        DistinctCount(s, t[i]);
        assert false;
      }
    }
  }

  /** With distinct task ids, every task is on at most one timeline, and at
      most once there. */
  lemma PlacedOnce(tasks: seq<SolvedTask>, r1: int, r2: int, x: Slot, y: Slot)
    requires DistinctIds(tasks)
    requires x in Timeline(tasks, r1) && y in Timeline(tasks, r2) && x.task == y.task
    ensures r1 == r2 && x == y
  {
    TimelineSpec(tasks, r1, x);
    TimelineSpec(tasks, r2, y);
    var i :| 0 <= i < |tasks| && Placement(tasks[i]) == Some((r1, x));
    var j :| 0 <= j < |tasks| && Placement(tasks[j]) == Some((r2, y));
    assert tasks[i].id == tasks[j].id;
  }

  lemma TimelineDistinct(tasks: seq<SolvedTask>, r: int)
    requires DistinctIds(tasks)
    ensures DistinctTasks(Timeline(tasks, r))
  {
    GroupedDistinct(tasks, r);
    SortByCorrect(Grouped(Placements(tasks), r), SlotStart);
    PermutationDistinct(Grouped(Placements(tasks), r), Timeline(tasks, r));
  }

  // ------------------------------------------------------------ setup times

  /** What the entry at position `i` of resource `r`'s timeline is charged:
      nothing for the first task, else the changeover from its predecessor. */
  function Charge(rules: Rules, r: int, tl: seq<Slot>, i: int): int
    requires 0 <= i < |tl|
  {
    if i == 0 then 0 else ChangeoverTime(rules, tl[i - 1].task, tl[i].task, r)
  }

  /** The writes one timeline makes to the setup-time dictionary. */
  function ChargesOf(rules: Rules, r: int, tl: seq<Slot>): seq<(int, int)>
  {
    if tl == [] then []
    else ChargesOf(rules, r, tl[..|tl| - 1]) + [(tl[|tl| - 1].task, Charge(rules, r, tl, |tl| - 1))]
  }

  /** The writes of all timelines, resource by resource. */
  function ChargesOver(rules: Rules, rs: seq<int>, schedules: map<int, seq<Slot>>): seq<(int, int)>
  {
    if rs == [] then []
    else ChargesOver(rules, rs[..|rs| - 1], schedules) + ChargesOf(rules, rs[|rs| - 1], GetOr(schedules, rs[|rs| - 1], []))
  }

  /** The loop over one timeline. */
  method ChargeTimeline(rules: Rules, r: int, tl: seq<Slot>, before: map<int, int>, ghost prior: seq<(int, int)>)
    returns (setup: map<int, int>)
    requires forall id :: Lookup(before, id) == LastValue(prior, id)
    ensures forall id :: Lookup(setup, id) == LastValue(prior + ChargesOf(rules, r, tl), id)
  {
    setup := before;
    assert prior + ChargesOf(rules, r, tl[..0]) == prior;
    for i := 0 to |tl|
      invariant forall id :: Lookup(setup, id) == LastValue(prior + ChargesOf(rules, r, tl[..i]), id)
    {
      var time;
      if i == 0 {
        time := 0;
      } else {
        time := GetChangeoverTime(rules, tl[i - 1].task, tl[i].task, r);
      }
      ghost var written := ChargesOf(rules, r, tl[..i]);
      assert tl[..i + 1][..i] == tl[..i];
      assert time == Charge(rules, r, tl[..i + 1], i);
      assert ChargesOf(rules, r, tl[..i + 1]) == written + [(tl[i].task, time)];
      assert prior + ChargesOf(rules, r, tl[..i + 1]) == (prior + written) + [(tl[i].task, time)];
      LastValueSnoc(prior + written, [(tl[i].task, time)]);
      setup := setup[tl[i].task := time];
    }
    assert tl[..|tl|] == tl;
  }

  method AssignSetupTimes(rules: Rules, resources: seq<int>, schedules: map<int, seq<Slot>>)
    returns (setup: map<int, int>)
    ensures forall id :: Lookup(setup, id) == LastValue(ChargesOver(rules, resources, schedules), id)
  {
    setup := map[];
    for k := 0 to |resources|
      invariant forall id :: Lookup(setup, id) == LastValue(ChargesOver(rules, resources[..k], schedules), id)
    {
      var r := resources[k];
      assert resources[..k + 1][..k] == resources[..k];
      setup := ChargeTimeline(rules, r, GetOr(schedules, r, []), setup, ChargesOver(rules, resources[..k], schedules));
    }
    assert resources[..|resources|] == resources;
  }

  /** Each timeline lists a task at most once, and no task is on two
      timelines. */
  ghost predicate WellPlaced(schedules: map<int, seq<Slot>>)
  {
    (forall r :: r in schedules ==> DistinctTasks(schedules[r])) &&
    (forall r1, r2, i, j ::
       (r1 in schedules && r2 in schedules && 0 <= i < |schedules[r1]| && 0 <= j < |schedules[r2]| &&
        schedules[r1][i].task == schedules[r2][j].task) ==> r1 == r2)
  }

  lemma TimelinesWellPlaced(tasks: seq<SolvedTask>, schedules: map<int, seq<Slot>>)
    requires DistinctIds(tasks)
    requires forall r :: GetOr(schedules, r, []) == Timeline(tasks, r)
    ensures WellPlaced(schedules)
  {
    forall r | r in schedules ensures DistinctTasks(schedules[r]) {
      TimelineDistinct(tasks, r);
    }
    forall r1, r2, i, j | r1 in schedules && r2 in schedules && 0 <= i < |schedules[r1]| && 0 <= j < |schedules[r2]| &&
                          schedules[r1][i].task == schedules[r2][j].task
      ensures r1 == r2
    {
      PlacedOnce(tasks, r1, r2, schedules[r1][i], schedules[r2][j]);
    }
  }

  lemma {:induction false} ChargesOfSpec(rules: Rules, r: int, tl: seq<Slot>, id: int)
    requires DistinctTasks(tl)
    ensures (forall k :: 0 <= k < |tl| ==> tl[k].task != id) ==> LastValue(ChargesOf(rules, r, tl), id) == None
    ensures forall i :: 0 <= i < |tl| && tl[i].task == id ==>
              LastValue(ChargesOf(rules, r, tl), id) == Some(Charge(rules, r, tl, i))
  {
    if tl != [] {
      var q := tl[..|tl| - 1];
      var last := tl[|tl| - 1];
      assert forall k :: 0 <= k < |q| ==> q[k] == tl[k];
      ChargesOfSpec(rules, r, q, id);
      LastValueSnoc(ChargesOf(rules, r, q), [(last.task, Charge(rules, r, tl, |tl| - 1))]);
      if last.task != id {
        forall i | 0 <= i < |q| && q[i].task == id
          ensures Charge(rules, r, q, i) == Charge(rules, r, tl, i)
        {
          if i > 0 {
            assert q[i - 1] == tl[i - 1];
          }
        }
      }
    }
  }

  lemma {:induction false} ChargesOverSpec(rules: Rules, rs: seq<int>, schedules: map<int, seq<Slot>>, r: int, i: int)
    requires WellPlaced(schedules)
    requires r in rs && r in schedules && 0 <= i < |schedules[r]|
    ensures LastValue(ChargesOver(rules, rs, schedules), schedules[r][i].task) == Some(Charge(rules, r, schedules[r], i))
  {
    var id := schedules[r][i].task;
    var q := rs[..|rs| - 1];
    var last := rs[|rs| - 1];
    var tl := GetOr(schedules, last, []);
    LastValueAppend(ChargesOver(rules, q, schedules), ChargesOf(rules, last, tl), id);
    if last == r {
      ChargesOfSpec(rules, r, tl, id);
    } else {
      if last in schedules {
        ChargesOfSpec(rules, last, tl, id);
      }
      assert rs == q + [last];
      ChargesOverSpec(rules, q, schedules, r, i);
    }
  }

  lemma {:induction false} ChargesOverAbsent(rules: Rules, rs: seq<int>, schedules: map<int, seq<Slot>>, id: int)
    requires WellPlaced(schedules)
    requires forall r, k :: r in schedules && 0 <= k < |schedules[r]| ==> schedules[r][k].task != id
    ensures LastValue(ChargesOver(rules, rs, schedules), id) == None
  {
    if rs != [] {
      var q := rs[..|rs| - 1];
      var last := rs[|rs| - 1];
      var tl := GetOr(schedules, last, []);
      LastValueAppend(ChargesOver(rules, q, schedules), ChargesOf(rules, last, tl), id);
      if last in schedules {
        ChargesOfSpec(rules, last, tl, id);
      }
      ChargesOverAbsent(rules, q, schedules, id);
    }
  }

  /** After the setup-time pass, the first task of every resource timeline is
      charged 0 and every later task the changeover from its predecessor on
      that resource. */
  lemma SetupFromPredecessor(rules: Rules, tasks: seq<SolvedTask>, resources: seq<int>,
                             schedules: map<int, seq<Slot>>, setup: map<int, int>, r: int, i: int)
    requires DistinctIds(tasks)
    requires forall r :: r in schedules <==> r in resources
    requires forall r :: GetOr(schedules, r, []) == Timeline(tasks, r)
    requires forall id :: Lookup(setup, id) == LastValue(ChargesOver(rules, resources, schedules), id)
    requires 0 <= i < |Timeline(tasks, r)|
    ensures Lookup(setup, Timeline(tasks, r)[i].task) ==
            Some(if i == 0 then 0 else ChangeoverTime(rules, Timeline(tasks, r)[i - 1].task, Timeline(tasks, r)[i].task, r))
  {
    TimelinesWellPlaced(tasks, schedules);
    assert r in schedules;
    ChargesOverSpec(rules, resources, schedules, r, i);
  }

  /** A task that selected no resource gets no setup entry (so it is charged
      the default 0). */
  lemma UnplacedTaskHasNoSetup(rules: Rules, tasks: seq<SolvedTask>, resources: seq<int>,
                               schedules: map<int, seq<Slot>>, setup: map<int, int>, m: int)
    requires DistinctIds(tasks)
    requires forall r :: GetOr(schedules, r, []) == Timeline(tasks, r)
    requires forall id :: Lookup(setup, id) == LastValue(ChargesOver(rules, resources, schedules), id)
    requires 0 <= m < |tasks| && FirstSelected(tasks[m].selections).None?
    ensures Lookup(setup, tasks[m].id) == None
  {
    TimelinesWellPlaced(tasks, schedules);
    forall r, k | r in schedules && 0 <= k < |schedules[r]| ensures schedules[r][k].task != tasks[m].id {
      var slot := schedules[r][k];
      assert slot in Timeline(tasks, r);
      TimelineSpec(tasks, r, slot);
      var i :| 0 <= i < |tasks| && Placement(tasks[i]) == Some((r, slot));
      assert i != m;
    }
    ChargesOverAbsent(rules, resources, schedules, tasks[m].id);
  }

  // ------------------------------------------------------------ output rows

  const ChangeoverLabel: string := "CHANGEOVER"

  /** A Gantt-chart row. `resource` is None for an unassigned task; names and
      text formatting are not modelled. */
  datatype Row = Row(orderNo: string, opNo: int, resource: Option<int>, start: Moment, end: Moment,
                     isLate: bool, color: string, changeoverMins: int)

  /** A database row: a task's real interval, its setup in minutes, its
      resource and its order's real span. */
  datatype DbRecord = DbRecord(id: int, orderNo: string, opNo: int, start: Moment, end: Moment, setupMinutes: int,
                               resource: Option<int>, orderStart: Moment, orderEnd: Moment)

  /** The report flags a task late when it has a due date and its real end is
      after it. */
  predicate IsLate(t: SolvedTask, realEnd: Moment)
  {
    t.due.Some? && Later(realEnd, t.due.value)
  }

  /** The rows of one task: a changeover block and then the operation, or the
      operation alone when no changeover is charged. */
  function ExpandTask(simStart: Moment, t: SolvedTask, setup: int): seq<Row>
  {
    var realStart := WorkingMinutesToRealTime(simStart, t.start);
    var realEnd := WorkingMinutesToRealTime(simStart, t.end);
    var res := FirstSelected(t.selections);
    var late := IsLate(t, realEnd);
    if setup > 0 then
      var changeoverEnd := WorkingMinutesToRealTime(simStart, t.start + setup);
      [Row(ChangeoverLabel, 0, res, realStart, changeoverEnd, false, ChangeoverLabel, setup),
       Row(t.orderNo, t.opNo, res, changeoverEnd, realEnd, late, t.orderNo, 0)]
    else
      [Row(t.orderNo, t.opNo, res, realStart, realEnd, late, t.orderNo, 0)]
  }

  function RecordOf(simStart: Moment, t: SolvedTask, setup: int, span: Span): DbRecord
  {
    DbRecord(t.id, t.orderNo, t.opNo, WorkingMinutesToRealTime(simStart, t.start), WorkingMinutesToRealTime(simStart, t.end),
             setup, FirstSelected(t.selections),
             WorkingMinutesToRealTime(simStart, span.start), WorkingMinutesToRealTime(simStart, span.end))
  }

  function ExpandAll(simStart: Moment, tasks: seq<SolvedTask>, setup: map<int, int>): seq<Row>
  {
    if tasks == [] then []
    else
      var t := tasks[|tasks| - 1];
      ExpandAll(simStart, tasks[..|tasks| - 1], setup) + ExpandTask(simStart, t, GetOr(setup, t.id, 0))
  }

  function RecordsOf(simStart: Moment, tasks: seq<SolvedTask>, setup: map<int, int>, spans: map<string, Span>): seq<DbRecord>
    requires forall i :: 0 <= i < |tasks| ==> tasks[i].orderNo in spans
  {
    if tasks == [] then []
    else
      var t := tasks[|tasks| - 1];
      RecordsOf(simStart, tasks[..|tasks| - 1], setup, spans) + [RecordOf(simStart, t, GetOr(setup, t.id, 0), spans[t.orderNo])]
  }

  /** The chart rows of one task, built from its real start and end, its
      resource and its late flag. */
  method TaskRows(simStart: Moment, t: SolvedTask, res: Option<int>, realStart: Moment, realEnd: Moment, late: bool,
                  changeover: int)
    returns (taskRows: seq<Row>)
    requires res == FirstSelected(t.selections)
    requires realStart == WorkingMinutesToRealTime(simStart, t.start)
    requires realEnd == WorkingMinutesToRealTime(simStart, t.end)
    requires late == IsLate(t, realEnd)
    ensures taskRows == ExpandTask(simStart, t, changeover)
  {
    if changeover > 0 {
      var changeoverEnd := WorkingMinutesToRealTime(simStart, t.start + changeover);
      taskRows := [Row(ChangeoverLabel, 0, res, realStart, changeoverEnd, false, ChangeoverLabel, changeover),
                   Row(t.orderNo, t.opNo, res, changeoverEnd, realEnd, late, t.orderNo, 0)];
    } else {
      taskRows := [Row(t.orderNo, t.opNo, res, realStart, realEnd, late, t.orderNo, 0)];
    }
  }

  /** The second pass over the tasks, building the chart rows and the
      database rows. */
  method BuildOutputs(simStart: Moment, tasks: seq<SolvedTask>, setup: map<int, int>, spans: map<string, Span>)
    returns (rows: seq<Row>, records: seq<DbRecord>)
    requires forall i :: 0 <= i < |tasks| ==> tasks[i].orderNo in spans
    ensures rows == ExpandAll(simStart, tasks, setup)
    ensures records == RecordsOf(simStart, tasks, setup, spans)
  {
    rows, records := [], [];
    for i := 0 to |tasks|
      invariant rows == ExpandAll(simStart, tasks[..i], setup)
      invariant records == RecordsOf(simStart, tasks[..i], setup, spans)
    {
      var t := tasks[i];
      assert tasks[..i + 1][..i] == tasks[..i];
      var res := SelectedResource(t.selections);
      var realStart := WorkingMinutesToRealTime(simStart, t.start);
      var realEnd := WorkingMinutesToRealTime(simStart, t.end);
      var late := t.due.Some? && Later(realEnd, t.due.value);
      var span := spans[t.orderNo];
      var orderStart := WorkingMinutesToRealTime(simStart, span.start);
      var orderEnd := WorkingMinutesToRealTime(simStart, span.end);
      var changeover := GetOr(setup, t.id, 0);
      var taskRows := TaskRows(simStart, t, res, realStart, realEnd, late, changeover);
      rows := rows + taskRows;
      records := records + [DbRecord(t.id, t.orderNo, t.opNo, realStart, realEnd, changeover, res, orderStart, orderEnd)];
    }
    assert tasks[..|tasks|] == tasks;
  }

  /** A task's rows: two when a changeover is charged, the changeover block
      lasting exactly the charged working minutes and ending where the
      operation row starts; the last row is the operation, ending at the
      task's real end and carrying the late flag; every row lies in the shift;
      and the operation row runs forward exactly when the changeover fits in
      its solved interval. */
  lemma ExpandTaskSpec(simStart: Moment, t: SolvedTask, setup: int)
    ensures var rows := ExpandTask(simStart, t, setup);
            |rows| == (if setup > 0 then 2 else 1) &&
            rows[0].start == WorkingMinutesToRealTime(simStart, t.start) &&
            rows[|rows| - 1].end == WorkingMinutesToRealTime(simStart, t.end) &&
            rows[|rows| - 1].orderNo == t.orderNo && rows[|rows| - 1].changeoverMins == 0 &&
            (rows[|rows| - 1].isLate <==> IsLate(t, WorkingMinutesToRealTime(simStart, t.end))) &&
            (forall k :: 0 <= k < |rows| ==> InShift(rows[k].start) && InShift(rows[k].end) &&
                                             rows[k].resource == FirstSelected(t.selections))
    ensures var rows := ExpandTask(simStart, t, setup);
            setup > 0 ==>
              rows[0].end == rows[1].start && rows[0].changeoverMins == setup && !rows[0].isLate &&
              WorkingOffset(simStart, rows[0].end) - WorkingOffset(simStart, rows[0].start) == setup
    ensures var rows := ExpandTask(simStart, t, setup);
            !Later(rows[|rows| - 1].start, rows[|rows| - 1].end) <==> t.start + (if setup > 0 then setup else 0) <= t.end
  {
    RealTimeOrder(simStart, t.end, t.start + (if setup > 0 then setup else 0));
  }

  /** A task the report flags late ends, in working minutes, after its due
      date's working minutes: it is late for the objective too. */
  lemma LateRowIsPastDue(simStart: Moment, t: SolvedTask, setup: int)
    requires simStart.minute == ShiftOpen && t.due.Some? && ValidMoment(t.due.value)
    requires ExpandTask(simStart, t, setup)[|ExpandTask(simStart, t, setup)| - 1].isLate
    ensures t.end > GetWorkingMinutesFromDate(simStart, t.due)
  {
    LateFlagImpliesPastDueMinutes(simStart, t.due.value, t.end);
  }

  function ChangeoverCount(tasks: seq<SolvedTask>, setup: map<int, int>): nat
  {
    if tasks == [] then 0
    else ChangeoverCount(tasks[..|tasks| - 1], setup) + (if GetOr(setup, tasks[|tasks| - 1].id, 0) > 0 then 1 else 0)
  }

  /** One row per task plus one per task charged a changeover. */
  lemma {:induction false} ExpandAllLength(simStart: Moment, tasks: seq<SolvedTask>, setup: map<int, int>)
    ensures |ExpandAll(simStart, tasks, setup)| == |tasks| + ChangeoverCount(tasks, setup)
  {
    if tasks != [] {
      ExpandAllLength(simStart, tasks[..|tasks| - 1], setup);
    }
  }

  /** The database row of every task lies within its order's span. */
  lemma RecordWithinOrderSpan(simStart: Moment, tasks: seq<SolvedTask>, setup: map<int, int>, spans: map<string, Span>, i: int)
    requires forall o :: Lookup(spans, o) == SpanOf(tasks, o)
    requires 0 <= i < |tasks|
    ensures tasks[i].orderNo in spans
    ensures var rec := RecordOf(simStart, tasks[i], GetOr(setup, tasks[i].id, 0), spans[tasks[i].orderNo]);
            !Later(rec.orderStart, rec.start) && !Later(rec.end, rec.orderEnd)
  {
    var o := tasks[i].orderNo;
    SpanOfSpec(tasks, o);
    assert Lookup(spans, o) == SpanOf(tasks, o);
    var span := spans[o];
    RealTimeOrder(simStart, tasks[i].start, span.start);
    RealTimeOrder(simStart, span.end, tasks[i].end);
  }

  // ---------------------------------------------------------------- pipeline

  /** All of the bookkeeping after a successful solve, in the order the
      scheduler does it. */
  method ProcessSolution(rules: Rules, simStart: Moment, tasks: seq<SolvedTask>)
    returns (spans: map<string, Span>, resources: seq<int>, schedules: map<int, seq<Slot>>,
             setup: map<int, int>, rows: seq<Row>, records: seq<DbRecord>)
    ensures forall o :: Lookup(spans, o) == SpanOf(tasks, o)
    ensures resources == ResourceOrder(tasks)
    ensures forall r :: r in schedules <==> r in resources
    ensures forall r :: GetOr(schedules, r, []) == Timeline(tasks, r)
    ensures forall id :: Lookup(setup, id) == LastValue(ChargesOver(rules, resources, schedules), id)
    ensures rows == ExpandAll(simStart, tasks, setup)
    ensures forall i :: 0 <= i < |tasks| ==> tasks[i].orderNo in spans
    ensures records == RecordsOf(simStart, tasks, setup, spans)
  {
    spans := ComputeOrderSpans(tasks);
    forall i | 0 <= i < |tasks| ensures tasks[i].orderNo in spans {
      SpanOfSpec(tasks, tasks[i].orderNo);
      assert Lookup(spans, tasks[i].orderNo) == SpanOf(tasks, tasks[i].orderNo);
    }
    resources, schedules := BuildResourceSchedules(tasks);
    setup := AssignSetupTimes(rules, resources, schedules);
    rows, records := BuildOutputs(simStart, tasks, setup, spans);
  }
}

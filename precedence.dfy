/** Precedences derived from the input rows. The operations of one order
    (rows sharing an OrderNo) run in OpNo order, each after the previous one;
    and an order that needs a part starts its first operation after the last
    operation of every order that produces that part (its bill of materials).
    A precedence (before, after) demands start(after) >= end(before). */
module Precedence {
  import opened Common
  import opened Tables
  import opened Sorting

  /** One row of the order table: an operation of an order. A row without an
      id is no task of the solver. */
  datatype Operation = Operation(id: Option<int>, orderNo: string, opNo: int)

  /** One bill-of-materials row: the order `orderNo` produces `orderPartNo`
      and requires `requiredPartNo`. */
  datatype BomRow = BomRow(orderNo: string, orderPartNo: Option<string>, requiredPartNo: Option<string>)

  datatype Precedence = Precedence(before: int, after: int)

  function OpKey(op: Operation): int
  {
    op.opNo
  }

  function OpEntry(op: Operation): Option<(string, Operation)>
  {
    Some((op.orderNo, op))
  }

  /** The order numbers in the order the grouping dictionary lists them. */
  function OrderNos(ops: seq<Operation>): seq<string>
  {
    KeysInOrder(FilterMap(ops, OpEntry))
  }

  /** The operations of one order, in row order. */
  function OpsOf(ops: seq<Operation>, orderNo: string): seq<Operation>
  {
    Grouped(FilterMap(ops, OpEntry), orderNo)
  }

  function SortedOps(ops: seq<Operation>): seq<Operation>
  {
    SortBy(ops, OpKey)
  }

  // ------------------------------------------------------------- grouping

  method GroupOperations(ops: seq<Operation>) returns (orderNos: seq<string>, byOrder: map<string, seq<Operation>>)
    ensures orderNos == OrderNos(ops)
    ensures forall o :: o in byOrder <==> o in orderNos
    ensures forall o :: GetOr(byOrder, o, []) == OpsOf(ops, o)
    ensures forall o :: o in byOrder ==> byOrder[o] != []
  {
    orderNos, byOrder := [], map[];
    for i := 0 to |ops|
      invariant orderNos == OrderNos(ops[..i])
      invariant forall o :: o in byOrder <==> o in orderNos
      invariant forall o :: GetOr(byOrder, o, []) == OpsOf(ops[..i], o)
      invariant forall o :: o in byOrder ==> byOrder[o] != []
    {
      var op := ops[i];
      ghost var entries := FilterMap(ops[..i], OpEntry);
      FilterMapStep(ops, i, OpEntry);
      assert FilterMap(ops[..i + 1], OpEntry) == entries + [(op.orderNo, op)];
      KeysInOrderStep(entries, [(op.orderNo, op)]);
      GroupedSnoc(entries, [(op.orderNo, op)]);
      if op.orderNo !in byOrder {
        orderNos := orderNos + [op.orderNo];
      }
      var group := GetOr(byOrder, op.orderNo, []) + [op];
      ghost var previous := byOrder;
      byOrder := byOrder[op.orderNo := group];
      forall o ensures GetOr(byOrder, o, []) == OpsOf(ops[..i + 1], o) {
        if o != op.orderNo {
          assert GetOr(byOrder, o, []) == GetOr(previous, o, []) == OpsOf(ops[..i], o);
        }
      }
    }
    assert ops[..|ops|] == ops;
  }

  /** Each order is listed once, and the listed orders are those of the
      rows. */
  lemma OrderNosSpec(ops: seq<Operation>)
    ensures forall i, j :: 0 <= i < j < |OrderNos(ops)| ==> OrderNos(ops)[i] != OrderNos(ops)[j]
    ensures forall o :: o in OrderNos(ops) <==> exists i :: 0 <= i < |ops| && ops[i].orderNo == o
  {
    var entries := FilterMap(ops, OpEntry);
    KeysInOrderSpec(entries);
    forall o ensures o in OrderNos(ops) <==> exists i :: 0 <= i < |ops| && ops[i].orderNo == o {
      if o in OrderNos(ops) {
        var i :| 0 <= i < |entries| && entries[i].0 == o;
        FilterMapMembership(ops, OpEntry, entries[i]);
      }
      if exists i :: 0 <= i < |ops| && ops[i].orderNo == o {
        var i :| 0 <= i < |ops| && ops[i].orderNo == o;
        FilterMapMembership(ops, OpEntry, (o, ops[i]));
        var k :| 0 <= k < |entries| && entries[k] == (o, ops[i]);
      }
    }
  }

  // ------------------------------------------------ last operations, producers

  /** The BOM row says that order `o` produces part `p` (an empty or missing
      part name produces nothing). */
  predicate ProducesPart(row: BomRow, o: string, p: string)
  {
    row.orderNo == o && row.orderPartNo == Some(p) && p != ""
  }

  predicate ProducesIn(bom: seq<BomRow>, o: string, p: string)
  {
    exists k :: 0 <= k < |bom| && ProducesPart(bom[k], o, p)
  }

  /** The orders producing part `p`, each once, in the given order. */
  function Producers(orderNos: seq<string>, bom: seq<BomRow>, p: string): seq<string>
  {
    if orderNos == [] then []
    else
      var o := orderNos[|orderNos| - 1];
      Producers(orderNos[..|orderNos| - 1], bom, p) + (if ProducesIn(bom, o, p) then [o] else [])
  }

  lemma {:induction false} ProducersSpec(orderNos: seq<string>, bom: seq<BomRow>, p: string, o: string)
    ensures o in Producers(orderNos, bom, p) <==> o in orderNos && ProducesIn(bom, o, p)
  {
    if orderNos != [] {
      var q := orderNos[..|orderNos| - 1];
      ProducersSpec(q, bom, p, o);
      assert orderNos == q + [orderNos[|orderNos| - 1]];
    }
  }

  lemma ProducesInStep(bom: seq<BomRow>, j: int, o: string, p: string)
    requires 0 <= j < |bom|
    ensures ProducesIn(bom[..j + 1], o, p) <==> ProducesIn(bom[..j], o, p) || ProducesPart(bom[j], o, p)
  {
    if ProducesIn(bom[..j + 1], o, p) {
      var k :| 0 <= k < j + 1 && ProducesPart(bom[..j + 1][k], o, p);
      if k < j {
        assert bom[..j][k] == bom[..j + 1][k];
      }
    }
    if ProducesIn(bom[..j], o, p) {
      var k :| 0 <= k < j && ProducesPart(bom[..j][k], o, p);
      assert bom[..j + 1][k] == bom[..j][k];
    }
    if ProducesPart(bom[j], o, p) {
      assert bom[..j + 1][j] == bom[j];
    }
  }

  /** The id of the operation an order ends with: its operation of greatest
      OpNo, the later row among equals. */
  function LastOpId(ops: seq<Operation>, orderNo: string): Option<int>
  {
    var s := SortedOps(OpsOf(ops, orderNo));
    if s == [] then None else s[|s| - 1].id
  }

  /** The id of the operation an order starts with: its least OpNo, the
      earlier row among equals. */
  function FirstOpId(ops: seq<Operation>, orderNo: string): Option<int>
  {
    var s := SortedOps(OpsOf(ops, orderNo));
    if s == [] then None else s[0].id
  }

  /** The inner loop over the BOM for one order: the order is appended, once,
      to the producers of every part it produces. */
  method AddProducer(orderNo: string, bom: seq<BomRow>, before: map<string, seq<string>>)
    returns (producers: map<string, seq<string>>)
    requires forall p :: orderNo !in GetOr(before, p, [])
    ensures forall p :: GetOr(producers, p, []) ==
                        GetOr(before, p, []) + (if ProducesIn(bom, orderNo, p) then [orderNo] else [])
  {
    producers := before;
    for j := 0 to |bom|
      invariant forall p :: GetOr(producers, p, []) ==
                  GetOr(before, p, []) + (if ProducesIn(bom[..j], orderNo, p) then [orderNo] else [])
    {
      var row := bom[j];
      forall p ensures ProducesIn(bom[..j + 1], orderNo, p) <==>
                       ProducesIn(bom[..j], orderNo, p) || ProducesPart(row, orderNo, p) {
        ProducesInStep(bom, j, orderNo, p);
      }
      if row.orderNo == orderNo && row.orderPartNo.Some? && row.orderPartNo.value != "" {
        var partName := row.orderPartNo.value;
        if orderNo !in GetOr(producers, partName, []) {
          ghost var previous := producers;
          producers := producers[partName := GetOr(producers, partName, []) + [orderNo]];
          forall p | p != partName ensures GetOr(producers, p, []) == GetOr(previous, p, []) {
          }
        }
      }
    }
    assert bom[..|bom|] == bom;
  }

  method RecordLastOpsAndProducers(ops: seq<Operation>, orderNos: seq<string>, byOrder: map<string, seq<Operation>>,
                                   bom: seq<BomRow>)
    returns (lastOps: map<string, Option<int>>, producers: map<string, seq<string>>)
    requires orderNos == OrderNos(ops)
    requires forall o :: o in byOrder <==> o in orderNos
    requires forall o :: GetOr(byOrder, o, []) == OpsOf(ops, o)
    requires forall o :: o in byOrder ==> byOrder[o] != []
    ensures forall o :: o in lastOps <==> o in orderNos
    ensures forall o :: o in lastOps ==> lastOps[o] == LastOpId(ops, o)
    ensures forall p :: GetOr(producers, p, []) == Producers(orderNos, bom, p)
  {
    OrderNosSpec(ops);
    lastOps, producers := map[], map[];
    for i := 0 to |orderNos|
      invariant forall o :: o in lastOps <==> o in orderNos[..i]
      invariant forall o :: o in lastOps ==> lastOps[o] == LastOpId(ops, o)
      invariant forall p :: GetOr(producers, p, []) == Producers(orderNos[..i], bom, p)
    {
      var orderNo := orderNos[i];
      var sortedOps := SortedOps(byOrder[orderNo]);
      lastOps := lastOps[orderNo := sortedOps[|sortedOps| - 1].id];
      assert orderNos[..i + 1] == orderNos[..i] + [orderNo];
      forall p ensures orderNo !in GetOr(producers, p, []) {
        ProducersSpec(orderNos[..i], bom, p, orderNo);
      }
      producers := AddProducer(orderNo, bom, producers);
    }
    assert orderNos[..|orderNos|] == orderNos;
  }

  // ---------------------------------------------------------------- derivation

  /** The precedence between two consecutive operations, when both are tasks. */
  function Link(curr: Operation, next: Operation): seq<Precedence>
  {
    if curr.id.Some? && next.id.Some? then [Precedence(curr.id.value, next.id.value)] else []
  }

  /** The precedences along one order's sorted operations. */
  function ChainOf(s: seq<Operation>): seq<Precedence>
  {
    if |s| < 2 then [] else ChainOf(s[..|s| - 1]) + Link(s[|s| - 2], s[|s| - 1])
  }

  function ChainsOver(ops: seq<Operation>, orderNos: seq<string>): seq<Precedence>
  {
    if orderNos == [] then []
    else ChainsOver(ops, orderNos[..|orderNos| - 1]) + ChainOf(SortedOps(OpsOf(ops, orderNos[|orderNos| - 1])))
  }

  function ChainPrecedences(ops: seq<Operation>): seq<Precedence>
  {
    ChainsOver(ops, OrderNos(ops))
  }

  /** The last operation of every producer in `prods`, before `first`. */
  function LinksFrom(ops: seq<Operation>, prods: seq<string>, first: int): seq<Precedence>
  {
    if prods == [] then []
    else
      var last := LastOpId(ops, prods[|prods| - 1]);
      LinksFrom(ops, prods[..|prods| - 1], first) + (if Truthy(last) then [Precedence(last.value, first)] else [])
  }

  /** The precedences one BOM row adds: the parent order's first operation
      after the last operation of each producer of the required part. */
  function BomLinks(ops: seq<Operation>, bom: seq<BomRow>, row: BomRow): seq<Precedence>
  {
    var prods := if row.requiredPartNo.Some? then Producers(OrderNos(ops), bom, row.requiredPartNo.value) else [];
    if prods == [] || OpsOf(ops, row.orderNo) == [] then []
    else
      var first := FirstOpId(ops, row.orderNo);
      if first.None? then [] else LinksFrom(ops, prods, first.value)
  }

  function BomPrecedencesOver(ops: seq<Operation>, bom: seq<BomRow>, rows: seq<BomRow>): seq<Precedence>
  {
    if rows == [] then []
    else BomPrecedencesOver(ops, bom, rows[..|rows| - 1]) + BomLinks(ops, bom, rows[|rows| - 1])
  }

  function BomPrecedences(ops: seq<Operation>, bom: seq<BomRow>): seq<Precedence>
  {
    BomPrecedencesOver(ops, bom, bom)
  }

  /** The inner loop: one precedence per consecutive pair of tasks. */
  method ChainSorted(sortedOps: seq<Operation>) returns (precedences: seq<Precedence>)
    ensures precedences == ChainOf(sortedOps)
  {
    precedences := [];
    if sortedOps == [] {
      return;
    }
    for k := 0 to |sortedOps| - 1
      invariant precedences == ChainOf(sortedOps[..k + 1])
    {
      var curr := sortedOps[k].id;
      var next := sortedOps[k + 1].id;
      assert sortedOps[..k + 2][..k + 1] == sortedOps[..k + 1];
      if curr.Some? && next.Some? {
        precedences := precedences + [Precedence(curr.value, next.value)];
      }
    }
    assert sortedOps[..|sortedOps|] == sortedOps;
  }

  /** The loop over the orders chaining each order's operations in OpNo
      order. */
  method ChainOperations(ops: seq<Operation>, orderNos: seq<string>, byOrder: map<string, seq<Operation>>)
    returns (precedences: seq<Precedence>)
    requires forall o :: o in orderNos ==> o in byOrder
    requires forall o :: GetOr(byOrder, o, []) == OpsOf(ops, o)
    ensures precedences == ChainsOver(ops, orderNos)
  {
    precedences := [];
    for i := 0 to |orderNos|
      invariant precedences == ChainsOver(ops, orderNos[..i])
    {
      var orderNo := orderNos[i];
      assert byOrder[orderNo] == OpsOf(ops, orderNo);
      var chain := ChainSorted(SortedOps(byOrder[orderNo]));
      precedences := precedences + chain;
      assert orderNos[..i + 1][..i] == orderNos[..i];
      assert orderNos[..i + 1][i] == orderNo;
    }
    assert orderNos[..|orderNos|] == orderNos;
  }

  /** The innermost BOM loop: the last operation of each producer, when it is
      a task with a truthy id, goes before `first`. */
  method LinkProducers(ops: seq<Operation>, orderNos: seq<string>, lastOps: map<string, Option<int>>,
                       prods: seq<string>, first: int)
    returns (precedences: seq<Precedence>)
    requires forall o :: o in prods ==> o in orderNos
    requires forall o :: o in lastOps <==> o in orderNos
    requires forall o :: o in lastOps ==> lastOps[o] == LastOpId(ops, o)
    ensures precedences == LinksFrom(ops, prods, first)
  {
    precedences := [];
    for q := 0 to |prods|
      invariant precedences == LinksFrom(ops, prods[..q], first)
    {
      var prod := prods[q];
      assert prods[..q + 1][..q] == prods[..q];
      assert prods[..q + 1][q] == prod;
      var lastProd := GetOr(lastOps, prod, None);
      if Truthy(lastProd) {
        precedences := precedences + [Precedence(lastProd.value, first)];
      }
    }
    assert prods[..|prods|] == prods;
  }

  /** The body of the loop over the BOM rows: the links one row adds. */
  method LinkRow(ops: seq<Operation>, orderNos: seq<string>, byOrder: map<string, seq<Operation>>,
                 lastOps: map<string, Option<int>>, producers: map<string, seq<string>>, bom: seq<BomRow>,
                 row: BomRow)
    returns (links: seq<Precedence>)
    requires orderNos == OrderNos(ops)
    requires forall o :: GetOr(byOrder, o, []) == OpsOf(ops, o)
    requires forall o :: o in lastOps <==> o in orderNos
    requires forall o :: o in lastOps ==> lastOps[o] == LastOpId(ops, o)
    requires forall p :: GetOr(producers, p, []) == Producers(orderNos, bom, p)
    ensures links == BomLinks(ops, bom, row)
  {
    links := [];
    var producersOfPart := if row.requiredPartNo.Some? then GetOr(producers, row.requiredPartNo.value, []) else [];
    if producersOfPart == [] {
      return;
    }
    var parentOps := GetOr(byOrder, row.orderNo, []);
    if parentOps == [] {
      return;
    }
    var firstParentOp := SortedOps(parentOps)[0].id;
    assert firstParentOp == FirstOpId(ops, row.orderNo);
    if firstParentOp.Some? {
      forall o | o in producersOfPart ensures o in orderNos {
        ProducersSpec(orderNos, bom, row.requiredPartNo.value, o);
      }
      links := LinkProducers(ops, orderNos, lastOps, producersOfPart, firstParentOp.value);
    }
  }

  /** The loop over the BOM rows. */
  method LinkBom(ops: seq<Operation>, orderNos: seq<string>, byOrder: map<string, seq<Operation>>,
                 lastOps: map<string, Option<int>>, producers: map<string, seq<string>>, bom: seq<BomRow>)
    returns (precedences: seq<Precedence>)
    requires orderNos == OrderNos(ops)
    requires forall o :: GetOr(byOrder, o, []) == OpsOf(ops, o)
    requires forall o :: o in lastOps <==> o in orderNos
    requires forall o :: o in lastOps ==> lastOps[o] == LastOpId(ops, o)
    requires forall p :: GetOr(producers, p, []) == Producers(orderNos, bom, p)
    ensures precedences == BomPrecedences(ops, bom)
  {
    precedences := [];
    for b := 0 to |bom|
      invariant precedences == BomPrecedencesOver(ops, bom, bom[..b])
    {
      assert bom[..b + 1][..b] == bom[..b];
      assert bom[..b + 1][b] == bom[b];
      var links := LinkRow(ops, orderNos, byOrder, lastOps, producers, bom, bom[b]);
      precedences := precedences + links;
    }
    assert bom[..|bom|] == bom;
  }

  /** All precedences of a run: every order's chain, then the BOM links. */
  method DerivePrecedences(ops: seq<Operation>, bom: seq<BomRow>) returns (precedences: seq<Precedence>)
    ensures precedences == ChainPrecedences(ops) + BomPrecedences(ops, bom)
  {
    var orderNos, byOrder := GroupOperations(ops);
    var lastOps, producers := RecordLastOpsAndProducers(ops, orderNos, byOrder, bom);
    var chains := ChainOperations(ops, orderNos, byOrder);
    var links := LinkBom(ops, orderNos, byOrder, lastOps, producers, bom);
    precedences := chains + links;
  }

  // ---------------------------------------------------------------- properties

  /** The operations grouped under an order are exactly its rows, and an
      order has a group exactly when it is listed. */
  lemma OpsOfSpec(ops: seq<Operation>, o: string, op: Operation)
    ensures op in OpsOf(ops, o) <==> op in ops && op.orderNo == o
    ensures OpsOf(ops, o) != [] <==> o in OrderNos(ops)
  {
    var entries := FilterMap(ops, OpEntry);
    GroupedSpec(entries, o, op);
    FilterMapMembership(ops, OpEntry, (o, op));
    KeysInOrderSpec(entries);
  }

  /** The first and the last operation of an order are operations of the
      order, of least and of greatest OpNo. */
  lemma FirstAndLastOps(ops: seq<Operation>, o: string)
    requires o in OrderNos(ops)
    ensures exists op :: op in OpsOf(ops, o) && op.id == FirstOpId(ops, o) &&
                         forall x :: x in OpsOf(ops, o) ==> op.opNo <= x.opNo
    ensures exists op :: op in OpsOf(ops, o) && op.id == LastOpId(ops, o) &&
                         forall x :: x in OpsOf(ops, o) ==> x.opNo <= op.opNo
  {
    var g := OpsOf(ops, o);
    OpsOfSpec(ops, o, Operation(None, o, 0));
    SortedEnds(g, OpKey);
    var s := SortedOps(g);
    assert forall x :: x in g ==> s[0].opNo <= x.opNo <= s[|s| - 1].opNo;
  }

  lemma {:induction false} ChainOfMembership(s: seq<Operation>, p: Precedence)
    ensures p in ChainOf(s) <==>
            exists i :: 0 <= i < |s| - 1 && s[i].id == Some(p.before) && s[i + 1].id == Some(p.after)
  {
    if |s| >= 2 {
      var q := s[..|s| - 1];
      ChainOfMembership(q, p);
      assert forall i :: 0 <= i < |q| ==> q[i] == s[i];
    }
  }

  /** An order whose operations are all tasks gets exactly one precedence per
      consecutive pair of its sorted operations. */
  lemma {:induction false} ChainOfAllTasks(s: seq<Operation>)
    requires forall k :: 0 <= k < |s| ==> s[k].id.Some?
    ensures |ChainOf(s)| == if s == [] then 0 else |s| - 1
    ensures forall i :: 0 <= i < |s| - 1 ==> ChainOf(s)[i] == Precedence(s[i].id.value, s[i + 1].id.value)
  {
    if |s| >= 2 {
      var q := s[..|s| - 1];
      assert forall k :: 0 <= k < |q| ==> q[k] == s[k];
      ChainOfAllTasks(q);
    }
  }

  lemma {:induction false} ChainsOverIsConcat(ops: seq<Operation>, names: seq<string>)
    ensures ChainsOver(ops, names) == Concat(names, (o: string) => ChainOf(SortedOps(OpsOf(ops, o))))
  {
    if names != [] {
      ChainsOverIsConcat(ops, names[..|names| - 1]);
    }
  }

  lemma ChainsOverMembership(ops: seq<Operation>, names: seq<string>, p: Precedence)
    ensures p in ChainsOver(ops, names) <==> exists o :: o in names && p in ChainOf(SortedOps(OpsOf(ops, o)))
  {
    var f := (o: string) => ChainOf(SortedOps(OpsOf(ops, o)));
    ChainsOverIsConcat(ops, names);
    ConcatMembership(names, f, p);
    assert forall o :: f(o) == ChainOf(SortedOps(OpsOf(ops, o)));
  }

  /** The sequencing precedences link, in every order, each operation to the
      next one in OpNo order, when both are tasks; and nothing else. */
  ghost predicate ChainLink(ops: seq<Operation>, o: string, i: int, p: Precedence)
  {
    var s := SortedOps(OpsOf(ops, o));
    0 <= i < |s| - 1 && s[i].id == Some(p.before) && s[i + 1].id == Some(p.after)
  }

  lemma ChainLinkSpec(ops: seq<Operation>, o: string, p: Precedence)
    ensures p in ChainOf(SortedOps(OpsOf(ops, o))) <==> exists i :: ChainLink(ops, o, i, p)
  {
    var s := SortedOps(OpsOf(ops, o));
    ChainOfMembership(s, p);
    if p in ChainOf(s) {
      var i :| 0 <= i < |s| - 1 && s[i].id == Some(p.before) && s[i + 1].id == Some(p.after);
      assert ChainLink(ops, o, i, p);
    }
  }

  lemma ChainPrecedencesSpec(ops: seq<Operation>, p: Precedence)
    ensures p in ChainPrecedences(ops) <==> exists o, i :: o in OrderNos(ops) && ChainLink(ops, o, i, p)
  {
    ChainsOverMembership(ops, OrderNos(ops), p);
    if p in ChainPrecedences(ops) {
      var o :| o in OrderNos(ops) && p in ChainOf(SortedOps(OpsOf(ops, o)));
      ChainLinkSpec(ops, o, p);
    }
    if exists o, i :: o in OrderNos(ops) && ChainLink(ops, o, i, p) {
      var o, i :| o in OrderNos(ops) && ChainLink(ops, o, i, p);
      ChainLinkSpec(ops, o, p);
    }
  }

  /** A task's interval in a solved schedule. */
  datatype Interval = Interval(start: int, end: int)

  ghost predicate WellFormed(schedule: map<int, Interval>)
  {
    forall id :: id in schedule ==> schedule[id].start <= schedule[id].end
  }

  /** The schedule satisfies every precedence: the later task starts no
      earlier than the former ends. */
  ghost predicate Respects(schedule: map<int, Interval>, ps: seq<Precedence>)
  {
    forall p :: p in ps ==> p.before in schedule && p.after in schedule &&
                            schedule[p.before].end <= schedule[p.after].start
  }

  lemma RespectsAppend(schedule: map<int, Interval>, a: seq<Precedence>, b: seq<Precedence>)
    ensures Respects(schedule, a + b) <==> Respects(schedule, a) && Respects(schedule, b)
  {
  }

  /** Along a chain of tasks, each one ends before any later one starts. */
  lemma {:induction false} ChainRunsInSequence(schedule: map<int, Interval>, s: seq<Operation>, i: int, j: int)
    requires WellFormed(schedule)
    requires forall k :: 0 <= k < |s| ==> s[k].id.Some?
    requires Respects(schedule, ChainOf(s))
    requires 0 <= i < j < |s|
    ensures s[i].id.value in schedule && s[j].id.value in schedule
    ensures schedule[s[i].id.value].end <= schedule[s[j].id.value].start
    decreases j
  {
    var p := Precedence(s[j - 1].id.value, s[j].id.value);
    ChainOfMembership(s, p);
    assert p in ChainOf(s);
    if i < j - 1 {
      ChainRunsInSequence(schedule, s, i, j - 1);
    }
  }

  lemma OrderChainRespected(schedule: map<int, Interval>, ops: seq<Operation>, o: string)
    requires Respects(schedule, ChainPrecedences(ops))
    requires o in OrderNos(ops)
    ensures Respects(schedule, ChainOf(SortedOps(OpsOf(ops, o))))
  {
    forall p | p in ChainOf(SortedOps(OpsOf(ops, o))) ensures p in ChainPrecedences(ops) {
      ChainsOverMembership(ops, OrderNos(ops), p);
    }
  }

  /** Sorting an order's operations keeps exactly its operations. */
  lemma SortedOpsSpec(g: seq<Operation>)
    ensures forall z :: z in SortedOps(g) <==> z in g
    ensures SortedBy(SortedOps(g), OpKey)
  {
    SortByCorrect(g, OpKey);
    var s := SortedOps(g);
    forall z ensures z in s <==> z in g {
      assert z in s <==> z in multiset(s);
      assert z in g <==> z in multiset(g);
    }
  }

  /** In a schedule that satisfies the sequencing precedences, an operation of
      an order ends before any operation of the same order with a greater OpNo
      starts, when all the order's operations are tasks. */
  lemma OrderRunsInOpNoOrder(schedule: map<int, Interval>, ops: seq<Operation>, o: string, a: Operation, b: Operation)
    requires WellFormed(schedule)
    requires Respects(schedule, ChainPrecedences(ops))
    requires forall x :: x in OpsOf(ops, o) ==> x.id.Some?
    requires a in OpsOf(ops, o) && b in OpsOf(ops, o) && a.opNo < b.opNo
    ensures a.id.value in schedule && b.id.value in schedule
    ensures schedule[a.id.value].end <= schedule[b.id.value].start
  {
    var g := OpsOf(ops, o);
    OpsOfSpec(ops, o, a);
    OrderChainRespected(schedule, ops, o);
    SortedPositions(g, a, b);
    var i, j :| 0 <= i < j < |SortedOps(g)| && SortedOps(g)[i] == a && SortedOps(g)[j] == b;
    ChainRunsInSequence(schedule, SortedOps(g), i, j);
  }

  /** Two operations of a group with increasing OpNo sit at increasing
      positions of the sorted group, which consists of tasks when the group
      does. */
  lemma SortedPositions(g: seq<Operation>, a: Operation, b: Operation)
    requires forall x :: x in g ==> x.id.Some?
    requires a in g && b in g && a.opNo < b.opNo
    ensures forall k :: 0 <= k < |SortedOps(g)| ==> SortedOps(g)[k].id.Some?
    ensures exists i, j :: 0 <= i < j < |SortedOps(g)| && SortedOps(g)[i] == a && SortedOps(g)[j] == b
  {
    var s := SortedOps(g);
    SortedOpsSpec(g);
    assert forall k :: 0 <= k < |s| ==> s[k] in g;
    var i :| 0 <= i < |s| && s[i] == a;
    var j :| 0 <= j < |s| && s[j] == b;
    assert OpKey(s[i]) < OpKey(s[j]);
  }

  lemma {:induction false} LinksFromMembership(ops: seq<Operation>, prods: seq<string>, first: int, p: Precedence)
    ensures p in LinksFrom(ops, prods, first) <==>
            p.after == first && p.before != 0 && exists prod :: prod in prods && LastOpId(ops, prod) == Some(p.before)
  {
    if prods != [] {
      var q := prods[..|prods| - 1];
      LinksFromMembership(ops, q, first, p);
      assert prods == q + [prods[|prods| - 1]];
    }
  }

  /** A BOM link: row `k` requires a part that order `prod` produces, and the
      link runs from `prod`'s last operation (a task with a truthy id) to the
      first operation of the row's order (a task). */
  ghost predicate BomLink(ops: seq<Operation>, bom: seq<BomRow>, k: int, prod: string, p: Precedence)
  {
    0 <= k < |bom| && bom[k].requiredPartNo.Some? && ProducesIn(bom, prod, bom[k].requiredPartNo.value) &&
    prod in OrderNos(ops) && LastOpId(ops, prod) == Some(p.before) && p.before != 0 &&
    FirstOpId(ops, bom[k].orderNo) == Some(p.after)
  }

  lemma BomLinksMembership(ops: seq<Operation>, bom: seq<BomRow>, k: int, p: Precedence)
    requires 0 <= k < |bom|
    ensures p in BomLinks(ops, bom, bom[k]) <==> exists prod :: BomLink(ops, bom, k, prod, p)
  {
    var row := bom[k];
    if row.requiredPartNo.Some? {
      var part := row.requiredPartNo.value;
      var prods := Producers(OrderNos(ops), bom, part);
      forall prod ensures prod in prods <==> prod in OrderNos(ops) && ProducesIn(bom, prod, part) {
        ProducersSpec(OrderNos(ops), bom, part, prod);
      }
      if FirstOpId(ops, row.orderNo).Some? {
        LinksFromMembership(ops, prods, FirstOpId(ops, row.orderNo).value, p);
        if p in BomLinks(ops, bom, row) {
          var prod :| prod in prods && LastOpId(ops, prod) == Some(p.before);
          assert BomLink(ops, bom, k, prod, p);
        }
      }
    }
  }

  lemma {:induction false} BomPrecedencesOverIsConcat(ops: seq<Operation>, bom: seq<BomRow>, rows: seq<BomRow>)
    ensures BomPrecedencesOver(ops, bom, rows) == Concat(rows, (row: BomRow) => BomLinks(ops, bom, row))
  {
    if rows != [] {
      BomPrecedencesOverIsConcat(ops, bom, rows[..|rows| - 1]);
    }
  }

  lemma BomPrecedencesOverMembership(ops: seq<Operation>, bom: seq<BomRow>, rows: seq<BomRow>, p: Precedence)
    ensures p in BomPrecedencesOver(ops, bom, rows) <==> exists row :: row in rows && p in BomLinks(ops, bom, row)
  {
    var f := (row: BomRow) => BomLinks(ops, bom, row);
    BomPrecedencesOverIsConcat(ops, bom, rows);
    ConcatMembership(rows, f, p);
    assert forall row :: f(row) == BomLinks(ops, bom, row);
  }

  /** The BOM precedences are exactly the BOM links. */
  lemma BomPrecedencesSpec(ops: seq<Operation>, bom: seq<BomRow>, p: Precedence)
    ensures p in BomPrecedences(ops, bom) <==> exists k, prod :: BomLink(ops, bom, k, prod, p)
  {
    BomPrecedencesOverMembership(ops, bom, bom, p);
    forall k | 0 <= k < |bom| {
      BomLinksMembership(ops, bom, k, p);
    }
    if exists k, prod :: BomLink(ops, bom, k, prod, p) {
      var k, prod :| BomLink(ops, bom, k, prod, p);
      assert p in BomLinks(ops, bom, bom[k]);
    }
  }

  lemma ChainEndsByLast(schedule: map<int, Interval>, s: seq<Operation>, i: int)
    requires WellFormed(schedule)
    requires forall k :: 0 <= k < |s| ==> s[k].id.Some? && s[k].id.value in schedule
    requires Respects(schedule, ChainOf(s))
    requires 0 <= i < |s|
    ensures schedule[s[i].id.value].end <= schedule[s[|s| - 1].id.value].end
  {
    if i < |s| - 1 {
      ChainRunsInSequence(schedule, s, i, |s| - 1);
    }
  }

  lemma ChainStartsAfterFirst(schedule: map<int, Interval>, s: seq<Operation>, i: int)
    requires WellFormed(schedule)
    requires forall k :: 0 <= k < |s| ==> s[k].id.Some? && s[k].id.value in schedule
    requires Respects(schedule, ChainOf(s))
    requires 0 <= i < |s|
    ensures schedule[s[0].id.value].start <= schedule[s[i].id.value].start
  {
    if 0 < i {
      ChainRunsInSequence(schedule, s, 0, i);
    }
  }

  /** Every operation of an order whose operations are all tasks ends no later
      than its last operation, and starts no earlier than its first. */
  lemma WithinFirstAndLast(schedule: map<int, Interval>, ops: seq<Operation>, o: string, x: Operation)
    requires WellFormed(schedule)
    requires Respects(schedule, ChainPrecedences(ops))
    requires forall z :: z in OpsOf(ops, o) ==> z.id.Some? && z.id.value in schedule
    requires x in OpsOf(ops, o)
    ensures LastOpId(ops, o).Some? && FirstOpId(ops, o).Some?
    ensures x.id.value in schedule && LastOpId(ops, o).value in schedule && FirstOpId(ops, o).value in schedule
    ensures schedule[x.id.value].end <= schedule[LastOpId(ops, o).value].end
    ensures schedule[FirstOpId(ops, o).value].start <= schedule[x.id.value].start
  {
    var g := OpsOf(ops, o);
    var s := SortedOps(g);
    OpsOfSpec(ops, o, x);
    OrderChainRespected(schedule, ops, o);
    SortedOpsSpec(g);
    var i :| 0 <= i < |s| && s[i] == x;
    assert forall k :: 0 <= k < |s| ==> s[k] in g;
    ChainEndsByLast(schedule, s, i);
    ChainStartsAfterFirst(schedule, s, i);
  }

  /** In a schedule that satisfies every derived precedence, each operation of
      an order that produces a part a BOM row requires ends before any
      operation of that row's order starts, when all operations of both
      orders are tasks and the producer's last id is truthy. */
  lemma ProducerFinishesBeforeConsumer(schedule: map<int, Interval>, ops: seq<Operation>, bom: seq<BomRow>,
                                       k: int, prod: string, x: Operation, y: Operation)
    requires WellFormed(schedule)
    requires Respects(schedule, ChainPrecedences(ops) + BomPrecedences(ops, bom))
    requires 0 <= k < |bom| && bom[k].requiredPartNo.Some?
    requires ProducesIn(bom, prod, bom[k].requiredPartNo.value)
    requires x in OpsOf(ops, prod) && y in OpsOf(ops, bom[k].orderNo)
    requires forall z :: z in OpsOf(ops, prod) ==> z.id.Some? && z.id.value in schedule
    requires forall z :: z in OpsOf(ops, bom[k].orderNo) ==> z.id.Some? && z.id.value in schedule
    requires LastOpId(ops, prod) != Some(0)
    ensures x.id.value in schedule && y.id.value in schedule
    ensures schedule[x.id.value].end <= schedule[y.id.value].start
  {
    RespectsAppend(schedule, ChainPrecedences(ops), BomPrecedences(ops, bom));
    WithinFirstAndLast(schedule, ops, prod, x);
    WithinFirstAndLast(schedule, ops, bom[k].orderNo, y);
    OpsOfSpec(ops, prod, x);
    var link := Precedence(LastOpId(ops, prod).value, FirstOpId(ops, bom[k].orderNo).value);
    assert BomLink(ops, bom, k, prod, link);
    BomPrecedencesSpec(ops, bom, link);
  }
}

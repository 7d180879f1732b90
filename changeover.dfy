/** Changeover-cost resolution: the lookup tables built from the input rows
    and the setup time charged when a resource switches from one order to
    another. Orders carry attribute parameters (a colour, a width, ...); only
    parameters of the same attribute are compared, each pair is resolved
    through an exact from/to entry, then the attribute's standard time, and
    the collected times are combined by max (accumulative resources) or by
    sum (all others). */
module Changeover {
  import opened Common
  import opened Tables

  // ---------------------------------------------------------------- input rows

  datatype AttrParamRow = AttrParamRow(paramId: int, attributeId: int)
  datatype OrderAttrRow = OrderAttrRow(orderId: int, paramId: Option<int>)
  datatype ResourceRow = ResourceRow(resourceId: int, changeoverGroup: Option<int>, accumulative: Option<bool>)
  datatype ChangeoverDataRow =
    ChangeoverDataRow(group: int, attribute: int, fromParam: int, toParam: int, setupTime: Option<int>)
  datatype ChangeoverTimeRow = ChangeoverTimeRow(group: int, attribute: int, changeoverTime: Option<int>)

  /** (changeover group, attribute, from parameter, to parameter) */
  type MatrixKey = (int, int, int, int)
  /** (changeover group, attribute) */
  type StandardKey = (int, int)

  /** The lookup tables the scheduler builds once per run. */
  datatype Rules = Rules(
    paramAttribute: map<int, int>,     // parameter id -> its attribute id
    orderParams: map<int, seq<int>>,   // order id -> its parameter ids, in row order
    resourceGroup: map<int, int>,      // resource id -> changeover group
    accumulative: map<int, bool>,      // resource id -> combine by max?
    matrix: map<MatrixKey, int>,       // exact from/to setup times
    standard: map<StandardKey, int>)   // per-attribute standard times

  // ------------------------------------------- what each row puts in its table

  function ParamEntry(r: AttrParamRow): Option<(int, int)>
  {
    Some((r.paramId, r.attributeId))
  }

  function OrderParamEntry(r: OrderAttrRow): Option<(int, int)>
  {
    if Truthy(r.paramId) then Some((r.orderId, r.paramId.value)) else None
  }

  function GroupEntry(r: ResourceRow): Option<(int, int)>
  {
    if Truthy(r.changeoverGroup) then Some((r.resourceId, r.changeoverGroup.value)) else None
  }

  /** A missing flag counts as additive, as Python's truthiness of None does. */
  function AccumulativeEntry(r: ResourceRow): Option<(int, bool)>
  {
    Some((r.resourceId, r.accumulative == Some(true)))
  }

  /** A missing setup time counts as 0. */
  function MatrixEntry(r: ChangeoverDataRow): Option<(MatrixKey, int)>
  {
    Some(((r.group, r.attribute, r.fromParam, r.toParam), if r.setupTime.Some? then r.setupTime.value else 0))
  }

  /** Rows without a time are skipped. */
  function StandardEntry(r: ChangeoverTimeRow): Option<(StandardKey, int)>
  {
    if r.changeoverTime.Some? then Some(((r.group, r.attribute), r.changeoverTime.value)) else None
  }

  // ------------------------------------------------------------ table builders

  method BuildParamAttributes(rows: seq<AttrParamRow>) returns (m: map<int, int>)
    ensures forall k :: Lookup(m, k) == LastValue(FilterMap(rows, ParamEntry), k)
  {
    m := map[];
    for i := 0 to |rows|
      invariant forall k :: Lookup(m, k) == LastValue(FilterMap(rows[..i], ParamEntry), k)
    {
      FilterMapStep(rows, i, ParamEntry);
      LastValueSnoc(FilterMap(rows[..i], ParamEntry), [(rows[i].paramId, rows[i].attributeId)]);
      m := m[rows[i].paramId := rows[i].attributeId];
    }
    assert rows[..|rows|] == rows;
  }

  method BuildOrderParams(rows: seq<OrderAttrRow>) returns (m: map<int, seq<int>>)
    ensures forall o :: GetOr(m, o, []) == Grouped(FilterMap(rows, OrderParamEntry), o)
    ensures forall o :: o in m ==> m[o] != []
  {
    m := map[];
    for i := 0 to |rows|
      invariant forall o :: GetOr(m, o, []) == Grouped(FilterMap(rows[..i], OrderParamEntry), o)
      invariant forall o :: o in m ==> m[o] != []
    {
      var oa := rows[i];
      FilterMapStep(rows, i, OrderParamEntry);
      if Truthy(oa.paramId) {
        GroupedSnoc(FilterMap(rows[..i], OrderParamEntry), [(oa.orderId, oa.paramId.value)]);
        m := m[oa.orderId := GetOr(m, oa.orderId, []) + [oa.paramId.value]];
      } else {
        GroupedSnoc(FilterMap(rows[..i], OrderParamEntry), []);
      }
    }
    assert rows[..|rows|] == rows;
  }

  method BuildResourceTables(rows: seq<ResourceRow>) returns (groups: map<int, int>, accumulative: map<int, bool>)
    ensures forall r :: Lookup(groups, r) == LastValue(FilterMap(rows, GroupEntry), r)
    ensures forall r :: Lookup(accumulative, r) == LastValue(FilterMap(rows, AccumulativeEntry), r)
  {
    groups, accumulative := map[], map[];
    for i := 0 to |rows|
      invariant forall r :: Lookup(groups, r) == LastValue(FilterMap(rows[..i], GroupEntry), r)
      invariant forall r :: Lookup(accumulative, r) == LastValue(FilterMap(rows[..i], AccumulativeEntry), r)
    {
      var row := rows[i];
      FilterMapStep(rows, i, GroupEntry);
      FilterMapStep(rows, i, AccumulativeEntry);
      if Truthy(row.changeoverGroup) {
        LastValueSnoc(FilterMap(rows[..i], GroupEntry), [(row.resourceId, row.changeoverGroup.value)]);
        groups := groups[row.resourceId := row.changeoverGroup.value];
      } else {
        LastValueSnoc(FilterMap(rows[..i], GroupEntry), []);
      }
      LastValueSnoc(FilterMap(rows[..i], AccumulativeEntry), [(row.resourceId, row.accumulative == Some(true))]);
      accumulative := accumulative[row.resourceId := row.accumulative == Some(true)];
    }
    assert rows[..|rows|] == rows;
  }

  method BuildChangeoverMatrix(rows: seq<ChangeoverDataRow>) returns (m: map<MatrixKey, int>)
    ensures forall k :: Lookup(m, k) == LastValue(FilterMap(rows, MatrixEntry), k)
  {
    m := map[];
    for i := 0 to |rows|
      invariant forall k :: Lookup(m, k) == LastValue(FilterMap(rows[..i], MatrixEntry), k)
    {
      var cd := rows[i];
      var key := (cd.group, cd.attribute, cd.fromParam, cd.toParam);
      var setupTime := if cd.setupTime.Some? then cd.setupTime.value else 0;
      FilterMapStep(rows, i, MatrixEntry);
      LastValueSnoc(FilterMap(rows[..i], MatrixEntry), [(key, setupTime)]);
      m := m[key := setupTime];
    }
    assert rows[..|rows|] == rows;
  }

  method BuildChangeoverStandard(rows: seq<ChangeoverTimeRow>) returns (m: map<StandardKey, int>)
    ensures forall k :: Lookup(m, k) == LastValue(FilterMap(rows, StandardEntry), k)
  {
    m := map[];
    for i := 0 to |rows|
      invariant forall k :: Lookup(m, k) == LastValue(FilterMap(rows[..i], StandardEntry), k)
    {
      var ct := rows[i];
      FilterMapStep(rows, i, StandardEntry);
      if ct.changeoverTime.Some? {
        var key, time := (ct.group, ct.attribute), ct.changeoverTime.value;
        LastValueSnoc(FilterMap(rows[..i], StandardEntry), [(key, time)]);
        m := m[key := time];
      } else {
        assert FilterMap(rows[..i + 1], StandardEntry) == FilterMap(rows[..i], StandardEntry);
      }
    }
    assert rows[..|rows|] == rows;
  }

  ghost predicate RulesFrom(rules: Rules, attrParams: seq<AttrParamRow>, orderAttrs: seq<OrderAttrRow>,
                            resources: seq<ResourceRow>, data: seq<ChangeoverDataRow>, times: seq<ChangeoverTimeRow>)
  {
    && (forall k :: Lookup(rules.paramAttribute, k) == LastValue(FilterMap(attrParams, ParamEntry), k))
    && (forall o :: GetOr(rules.orderParams, o, []) == Grouped(FilterMap(orderAttrs, OrderParamEntry), o))
    && (forall o :: o in rules.orderParams ==> rules.orderParams[o] != [])
    && (forall r :: Lookup(rules.resourceGroup, r) == LastValue(FilterMap(resources, GroupEntry), r))
    && (forall r :: Lookup(rules.accumulative, r) == LastValue(FilterMap(resources, AccumulativeEntry), r))
    && (forall k :: Lookup(rules.matrix, k) == LastValue(FilterMap(data, MatrixEntry), k))
    && (forall k :: Lookup(rules.standard, k) == LastValue(FilterMap(times, StandardEntry), k))
  }

  /** All lookup tables of one run. */
  method BuildRules(attrParams: seq<AttrParamRow>, orderAttrs: seq<OrderAttrRow>, resources: seq<ResourceRow>,
                    data: seq<ChangeoverDataRow>, times: seq<ChangeoverTimeRow>) returns (rules: Rules)
    ensures RulesFrom(rules, attrParams, orderAttrs, resources, data, times)
  {
    var paramAttribute := BuildParamAttributes(attrParams);
    var orderParams := BuildOrderParams(orderAttrs);
    var groups, accumulative := BuildResourceTables(resources);
    var matrix := BuildChangeoverMatrix(data);
    var standard := BuildChangeoverStandard(times);
    rules := Rules(paramAttribute, orderParams, groups, accumulative, matrix, standard);
  }

  // ------------------------------------------------------------ cost resolution

  /** The time one pair of parameters of attribute `attr` contributes:
      identical ids cost 0 whatever the tables say; otherwise an exact entry
      wins; otherwise the attribute's standard time; otherwise nothing. */
  function ResolvePair(rules: Rules, group: int, attr: int, from: int, to: int): (r: Option<int>)
    ensures from == to ==> r == Some(0)
    ensures from != to && (group, attr, from, to) in rules.matrix ==> r == Some(rules.matrix[(group, attr, from, to)])
    ensures from != to && (group, attr, from, to) !in rules.matrix ==> r == Lookup(rules.standard, (group, attr))
  {
    if from == to then Some(0)
    else if (group, attr, from, to) in rules.matrix then Some(rules.matrix[(group, attr, from, to)])
    else if (group, attr) in rules.standard then Some(rules.standard[(group, attr)])
    else None
  }

  /** The standard table is never consulted for a pair with an exact entry or
      with identical ids: replacing its value for the attribute changes
      nothing there. */
  lemma StandardTimeOverridden(rules: Rules, group: int, attr: int, from: int, to: int, other: int)
    requires from == to || (group, attr, from, to) in rules.matrix
    ensures ResolvePair(rules.(standard := rules.standard[(group, attr) := other]), group, attr, from, to) ==
            ResolvePair(rules, group, attr, from, to)
  {
  }

  /** A pair contributes only when both parameter ids are known and belong
      to the same attribute; it is then resolved under that attribute. */
  function PairContribution(rules: Rules, group: int, from: int, to: int): (r: Option<int>)
    ensures r.Some? ==> from in rules.paramAttribute && to in rules.paramAttribute &&
                        rules.paramAttribute[from] == rules.paramAttribute[to]
  {
    if to in rules.paramAttribute && from in rules.paramAttribute &&
       rules.paramAttribute[from] == rules.paramAttribute[to]
    then ResolvePair(rules, group, rules.paramAttribute[to], from, to)
    else None
  }

  function OptionSeq(o: Option<int>): seq<int>
  {
    if o.Some? then [o.value] else []
  }

  /** The times one target parameter collects, over the source parameters in
      order (the inner loop). */
  function RowTimes(rules: Rules, group: int, froms: seq<int>, to: int): seq<int>
  {
    if froms == [] then []
    else RowTimes(rules, group, froms[..|froms| - 1], to) + OptionSeq(PairContribution(rules, group, froms[|froms| - 1], to))
  }

  /** All collected times, target parameter by target parameter (the outer
      loop). */
  function CollectTimes(rules: Rules, group: int, froms: seq<int>, tos: seq<int>): seq<int>
  {
    if tos == [] then []
    else CollectTimes(rules, group, froms, tos[..|tos| - 1]) + RowTimes(rules, group, froms, tos[|tos| - 1])
  }

  function Combine(accumulative: bool, times: seq<int>): int
  {
    if times == [] then 0 else if accumulative then Max(times) else Sum(times)
  }

  /** The changeover time from one order to the next on a resource. */
  function ChangeoverTime(rules: Rules, fromOrder: int, toOrder: int, resource: int): int
  {
    if resource !in rules.resourceGroup then 0
    else
      var froms := GetOr(rules.orderParams, fromOrder, []);
      var tos := GetOr(rules.orderParams, toOrder, []);
      if froms == [] || tos == [] then 0
      else Combine(GetOr(rules.accumulative, resource, false),
                   CollectTimes(rules, rules.resourceGroup[resource], froms, tos))
  }

  lemma RowTimesStep(rules: Rules, group: int, froms: seq<int>, to: int, j: int)
    requires 0 <= j < |froms|
    ensures RowTimes(rules, group, froms[..j + 1], to) ==
            RowTimes(rules, group, froms[..j], to) + OptionSeq(PairContribution(rules, group, froms[j], to))
  {
    assert froms[..j + 1][..j] == froms[..j];
  }

  lemma CollectTimesStep(rules: Rules, group: int, froms: seq<int>, tos: seq<int>, i: int)
    requires 0 <= i < |tos|
    ensures CollectTimes(rules, group, froms, tos[..i + 1]) ==
            CollectTimes(rules, group, froms, tos[..i]) + RowTimes(rules, group, froms, tos[i])
  {
    assert tos[..i + 1][..i] == tos[..i];
  }

  /** An unknown target parameter collects nothing. */
  lemma {:induction false} RowTimesUnknownTarget(rules: Rules, group: int, froms: seq<int>, to: int)
    requires to !in rules.paramAttribute
    ensures RowTimes(rules, group, froms, to) == []
  {
    if froms != [] {
      RowTimesUnknownTarget(rules, group, froms[..|froms| - 1], to);
    }
  }

  /** The inner loop: the times one target parameter collects from the
      source parameters. */
  method TimesForTarget(rules: Rules, group: int, fromParams: seq<int>, toParam: int) returns (row: seq<int>)
    requires toParam in rules.paramAttribute
    ensures row == RowTimes(rules, group, fromParams, toParam)
  {
    var attr := rules.paramAttribute[toParam];
    row := [];
    for j := 0 to |fromParams|
      invariant row == RowTimes(rules, group, fromParams[..j], toParam)
    {
      var fromParam := fromParams[j];
      RowTimesStep(rules, group, fromParams, toParam, j);
      if fromParam !in rules.paramAttribute || rules.paramAttribute[fromParam] != attr {
        continue;
      }
      if fromParam == toParam {
        row := row + [0];
        continue;
      }
      var matrixKey := (group, attr, fromParam, toParam);
      if matrixKey in rules.matrix {
        row := row + [rules.matrix[matrixKey]];
      } else {
        var standardKey := (group, attr);
        if standardKey in rules.standard {
          row := row + [rules.standard[standardKey]];
        }
      }
    }
    assert fromParams[..|fromParams|] == fromParams;
  }

  /** The nested loops of the scheduler, proved to compute `ChangeoverTime`. */
  method GetChangeoverTime(rules: Rules, fromOrder: int, toOrder: int, resource: int) returns (time: int)
    ensures time == ChangeoverTime(rules, fromOrder, toOrder, resource)
  {
    if resource !in rules.resourceGroup {
      return 0;
    }
    var group := rules.resourceGroup[resource];
    var fromParams := GetOr(rules.orderParams, fromOrder, []);
    var toParams := GetOr(rules.orderParams, toOrder, []);
    if fromParams == [] || toParams == [] {
      return 0;
    }
    var times: seq<int> := [];
    for i := 0 to |toParams|
      invariant times == CollectTimes(rules, group, fromParams, toParams[..i])
    {
      var toParam := toParams[i];
      CollectTimesStep(rules, group, fromParams, toParams, i);
      if toParam !in rules.paramAttribute {
        RowTimesUnknownTarget(rules, group, fromParams, toParam);
        continue;
      }
      var row := TimesForTarget(rules, group, fromParams, toParam);
      times := times + row;
    }
    assert toParams[..|toParams|] == toParams;
    if times == [] {
      return 0;
    }
    if GetOr(rules.accumulative, resource, false) {
      time := Max(times);
    } else {
      time := Sum(times);
    }
  }

  // ------------------------------------------------------------------ properties

  lemma {:induction false} RowTimesMembership(rules: Rules, group: int, froms: seq<int>, to: int, x: int)
    ensures x in RowTimes(rules, group, froms, to) <==>
            exists i :: 0 <= i < |froms| && PairContribution(rules, group, froms[i], to) == Some(x)
  {
    if froms != [] {
      var p := froms[..|froms| - 1];
      RowTimesMembership(rules, group, p, to, x);
      assert forall i :: 0 <= i < |p| ==> p[i] == froms[i];
    }
  }

  /** A time is collected exactly when some (source, target) pair of
      parameters contributes it: unknown ids and pairs of different
      attributes contribute nothing. */
  lemma {:induction false} CollectTimesMembership(rules: Rules, group: int, froms: seq<int>, tos: seq<int>, x: int)
    ensures x in CollectTimes(rules, group, froms, tos) <==>
            exists i, j :: 0 <= i < |froms| && 0 <= j < |tos| &&
                           PairContribution(rules, group, froms[i], tos[j]) == Some(x)
  {
    if tos != [] {
      var p := tos[..|tos| - 1];
      var t := tos[|tos| - 1];
      CollectTimesMembership(rules, group, froms, p, x);
      RowTimesMembership(rules, group, froms, t, x);
      assert forall j :: 0 <= j < |p| ==> p[j] == tos[j];
      if x in RowTimes(rules, group, froms, t) {
        var i :| 0 <= i < |froms| && PairContribution(rules, group, froms[i], t) == Some(x);
        assert PairContribution(rules, group, froms[i], tos[|tos| - 1]) == Some(x);
      }
    }
  }

  /** No changeover: a resource outside every changeover group, an order
      without parameters, or no contributing pair. Conversely a non-zero
      changeover comes from some pair of parameters that contributes a
      non-zero time. */
  lemma ZeroChangeoverCases(rules: Rules, fromOrder: int, toOrder: int, resource: int)
    ensures resource !in rules.resourceGroup ==> ChangeoverTime(rules, fromOrder, toOrder, resource) == 0
    ensures GetOr(rules.orderParams, fromOrder, []) == [] || GetOr(rules.orderParams, toOrder, []) == [] ==>
              ChangeoverTime(rules, fromOrder, toOrder, resource) == 0
    ensures ChangeoverTime(rules, fromOrder, toOrder, resource) != 0 ==>
              resource in rules.resourceGroup &&
              var froms := GetOr(rules.orderParams, fromOrder, []);
              var tos := GetOr(rules.orderParams, toOrder, []);
              exists i, j :: 0 <= i < |froms| && 0 <= j < |tos| &&
                             PairContribution(rules, rules.resourceGroup[resource], froms[i], tos[j]).Some? &&
                             PairContribution(rules, rules.resourceGroup[resource], froms[i], tos[j]).value != 0
  {
    var c := ChangeoverTime(rules, fromOrder, toOrder, resource);
    if c != 0 {
      var group := rules.resourceGroup[resource];
      var froms := GetOr(rules.orderParams, fromOrder, []);
      var tos := GetOr(rules.orderParams, toOrder, []);
      var times := CollectTimes(rules, group, froms, tos);
      assert times != [];
      var x;
      if GetOr(rules.accumulative, resource, false) {
        x := Max(times);
      } else {
        NonZeroSumHasNonZeroEntry(times);
        var k :| 0 <= k < |times| && times[k] != 0;
        x := times[k];
      }
      assert x in times && x != 0;
      CollectTimesMembership(rules, group, froms, tos, x);
    }
  }

  /** Every parameter of the list has a different attribute, unless it is
      the same parameter. */
  ghost predicate OneParamPerAttribute(rules: Rules, params: seq<int>)
  {
    forall i, j ::
      (0 <= i < |params| && 0 <= j < |params| &&
       params[i] in rules.paramAttribute && params[j] in rules.paramAttribute &&
       rules.paramAttribute[params[i]] == rules.paramAttribute[params[j]]) ==> params[i] == params[j]
  }

  /** When every source and every target parameter is taken from one list
      with at most one parameter per attribute, every collected time is 0:
      a contributing pair has one attribute, so it is a parameter paired
      with itself. */
  lemma PairsWithinOneListCollectZeros(rules: Rules, group: int, froms: seq<int>, tos: seq<int>, ps: seq<int>)
    requires forall i :: 0 <= i < |froms| ==> froms[i] in ps
    requires forall j :: 0 <= j < |tos| ==> tos[j] in ps
    requires OneParamPerAttribute(rules, ps)
    ensures forall k :: 0 <= k < |CollectTimes(rules, group, froms, tos)| ==> CollectTimes(rules, group, froms, tos)[k] == 0
  {
    var times := CollectTimes(rules, group, froms, tos);
    forall k | 0 <= k < |times| ensures times[k] == 0 {
      CollectTimesMembership(rules, group, froms, tos, times[k]);
      var i, j :| 0 <= i < |froms| && 0 <= j < |tos| &&
                  PairContribution(rules, group, froms[i], tos[j]) == Some(times[k]);
      var a :| 0 <= a < |ps| && ps[a] == froms[i];
      var b :| 0 <= b < |ps| && ps[b] == tos[j];
      assert froms[i] == tos[j];
    }
  }

  /** Orders with the same parameters, listed in any order, at most one per
      attribute, need no changeover between them, in either direction. */
  lemma SameParamsNoChangeover(rules: Rules, o1: int, o2: int, resource: int)
    requires forall p :: p in GetOr(rules.orderParams, o1, []) <==> p in GetOr(rules.orderParams, o2, [])
    requires OneParamPerAttribute(rules, GetOr(rules.orderParams, o1, []))
    ensures ChangeoverTime(rules, o1, o2, resource) == 0
    ensures ChangeoverTime(rules, o2, o1, resource) == 0
    ensures ChangeoverTime(rules, o1, o1, resource) == 0
  {
    var ps := GetOr(rules.orderParams, o1, []);
    var qs := GetOr(rules.orderParams, o2, []);
    if resource in rules.resourceGroup && ps != [] {
      var group := rules.resourceGroup[resource];
      assert ps[0] in ps;
      assert qs != [];
      forall j | 0 <= j < |qs| ensures qs[j] in ps {
        var x := qs[j];
        assert x in qs;
        assert x in GetOr(rules.orderParams, o2, []);
        assert x in GetOr(rules.orderParams, o1, []);
      }
      PairsWithinOneListCollectZeros(rules, group, ps, qs, ps);
      PairsWithinOneListCollectZeros(rules, group, qs, ps, ps);
      PairsWithinOneListCollectZeros(rules, group, ps, ps, ps);
      SumOfZeros(CollectTimes(rules, group, ps, qs));
      SumOfZeros(CollectTimes(rules, group, qs, ps));
      SumOfZeros(CollectTimes(rules, group, ps, ps));
    }
  }

  /** An order with two parameters of one attribute (say two colours),
      with exact entries both ways, is charged a changeover to itself: both
      entries, summed on an additive resource, their maximum on an
      accumulative one. */
  lemma TwoParamsOfOneAttributeSelfChangeover(rules: Rules, order: int, resource: int, p1: int, p2: int)
    requires resource in rules.resourceGroup
    requires GetOr(rules.orderParams, order, []) == [p1, p2] && p1 != p2
    requires p1 in rules.paramAttribute && p2 in rules.paramAttribute
    requires rules.paramAttribute[p1] == rules.paramAttribute[p2]
    requires (rules.resourceGroup[resource], rules.paramAttribute[p1], p1, p2) in rules.matrix
    requires (rules.resourceGroup[resource], rules.paramAttribute[p1], p2, p1) in rules.matrix
    ensures var forward := rules.matrix[(rules.resourceGroup[resource], rules.paramAttribute[p1], p1, p2)];
            var backward := rules.matrix[(rules.resourceGroup[resource], rules.paramAttribute[p1], p2, p1)];
            && (!GetOr(rules.accumulative, resource, false) ==>
                  ChangeoverTime(rules, order, order, resource) == forward + backward)
            && (GetOr(rules.accumulative, resource, false) && forward >= 0 && backward >= 0 ==>
                  ChangeoverTime(rules, order, order, resource) == if forward < backward then backward else forward)
  {
    var g := rules.resourceGroup[resource];
    var attr := rules.paramAttribute[p1];
    var forward := rules.matrix[(g, attr, p1, p2)];
    var backward := rules.matrix[(g, attr, p2, p1)];
    SelfPairTimes(rules, g, p1, p2);
    FourTimes(backward, forward);
    assert ChangeoverTime(rules, order, order, resource) ==
           Combine(GetOr(rules.accumulative, resource, false), [0, backward, forward, 0]);
  }

  /** The times an order with parameters [p1, p2] of one attribute collects
      against itself, in loop order. */
  lemma SelfPairTimes(rules: Rules, g: int, p1: int, p2: int)
    requires p1 != p2 && p1 in rules.paramAttribute && p2 in rules.paramAttribute
    requires rules.paramAttribute[p1] == rules.paramAttribute[p2]
    requires (g, rules.paramAttribute[p1], p1, p2) in rules.matrix
    requires (g, rules.paramAttribute[p1], p2, p1) in rules.matrix
    ensures CollectTimes(rules, g, [p1, p2], [p1, p2]) ==
            [0, rules.matrix[(g, rules.paramAttribute[p1], p2, p1)], rules.matrix[(g, rules.paramAttribute[p1], p1, p2)], 0]
  {
    var attr := rules.paramAttribute[p1];
    var forward := rules.matrix[(g, attr, p1, p2)];
    var backward := rules.matrix[(g, attr, p2, p1)];
    var ps := [p1, p2];
    assert ps[..1] == [p1] && [p1][..0] == [];
    assert PairContribution(rules, g, p1, p1) == Some(0) && PairContribution(rules, g, p2, p2) == Some(0);
    assert PairContribution(rules, g, p2, p1) == Some(backward) && PairContribution(rules, g, p1, p2) == Some(forward);
    assert RowTimes(rules, g, [p1], p1) == [0];
    assert RowTimes(rules, g, ps, p1) == [0, backward];
    assert RowTimes(rules, g, [p1], p2) == [forward];
    assert RowTimes(rules, g, ps, p2) == [forward, 0];
    assert CollectTimes(rules, g, ps, [p1]) == [0, backward];
    assert CollectTimes(rules, g, ps, ps) == [0, backward] + [forward, 0];
  }

  lemma FourTimes(b: int, f: int)
    ensures Combine(false, [0, b, f, 0]) == f + b
    ensures b >= 0 && f >= 0 ==> Combine(true, [0, b, f, 0]) == if f < b then b else f
  {
    var times := [0, b, f, 0];
    assert times[..3] == [0, b, f] && [0, b, f][..2] == [0, b];
    assert [0, b][..1] == [0] && [0][..0] == [];
    assert Sum([0]) == 0;
    assert Sum([0, b]) == b;
    assert Sum([0, b, f]) == b + f;
    assert Sum(times) == f + b;
  }

  ghost predicate NonNegativeRules(rules: Rules)
  {
    (forall k :: k in rules.matrix ==> rules.matrix[k] >= 0) &&
    (forall k :: k in rules.standard ==> rules.standard[k] >= 0)
  }

  /** With non-negative tables the accumulative result (max) lies between
      every single contribution and the additive result (sum), and the two
      agree exactly when at most one collected time is positive. */
  lemma AccumulativeBetweenContributionAndAdditive(rules: Rules, group: int, froms: seq<int>, tos: seq<int>)
    requires NonNegativeRules(rules)
    ensures var times := CollectTimes(rules, group, froms, tos);
            && 0 <= Combine(true, times) <= Combine(false, times)
            && (forall k :: 0 <= k < |times| ==> times[k] <= Combine(true, times))
            && (Combine(true, times) == Combine(false, times) <==>
                 forall i, j :: 0 <= i < |times| && 0 <= j < |times| && times[i] > 0 && times[j] > 0 ==> i == j)
  {
    var times := CollectTimes(rules, group, froms, tos);
    forall k | 0 <= k < |times| ensures times[k] >= 0 {
      CollectTimesMembership(rules, group, froms, tos, times[k]);
    }
    if times != [] {
      var m :| 0 <= m < |times| && times[m] == Max(times);
      EntryAtMostSum(times, m);
      MaxEqualsSumIffOnePositive(times);
    }
  }

  /** With non-negative tables no changeover is negative. */
  lemma ChangeoverNonNegative(rules: Rules, fromOrder: int, toOrder: int, resource: int)
    requires NonNegativeRules(rules)
    ensures ChangeoverTime(rules, fromOrder, toOrder, resource) >= 0
  {
    if resource in rules.resourceGroup {
      AccumulativeBetweenContributionAndAdditive(rules, rules.resourceGroup[resource],
        GetOr(rules.orderParams, fromOrder, []), GetOr(rules.orderParams, toOrder, []));
    }
  }
}

/** What Python's dictionaries do when the scheduler fills them row by row:
    a plain assignment `d[key] = value` keeps the value of the LAST row with
    that key, and `defaultdict(list)` with `d[key].append(value)` keeps every
    value of that key in row order. Rows are first projected, and possibly
    filtered, into (key, value) entries by `FilterMap`. */
module Tables {
  import opened Common

  /** The entries a loop over `rows` produces: `f` says what one row
      contributes (None when the loop skips it). */
  function FilterMap<A, B>(rows: seq<A>, f: A -> Option<B>): seq<B>
  {
    if rows == [] then []
    else
      var last := f(rows[|rows| - 1]);
      FilterMap(rows[..|rows| - 1], f) + (if last.Some? then [last.value] else [])
  }

  /** One more iteration of the loop extends the entries by what that row
      contributes. */
  lemma FilterMapStep<A, B>(rows: seq<A>, i: int, f: A -> Option<B>)
    requires 0 <= i < |rows|
    ensures FilterMap(rows[..i + 1], f) ==
            FilterMap(rows[..i], f) + (if f(rows[i]).Some? then [f(rows[i]).value] else [])
  {
    assert rows[..i + 1][..i] == rows[..i];
  }

  lemma {:induction false} FilterMapMembership<A, B>(rows: seq<A>, f: A -> Option<B>, y: B)
    ensures y in FilterMap(rows, f) <==> exists i :: 0 <= i < |rows| && f(rows[i]) == Some(y)
  {
    if rows != [] {
      var p := rows[..|rows| - 1];
      FilterMapMembership(p, f, y);
      assert forall i :: 0 <= i < |p| ==> p[i] == rows[i];
    }
  }

  /** The output of a loop that appends, for each row in turn, what `f`
      makes of it. */
  function Concat<A, B>(rows: seq<A>, f: A -> seq<B>): seq<B>
  {
    if rows == [] then [] else Concat(rows[..|rows| - 1], f) + f(rows[|rows| - 1])
  }

  lemma {:induction false} ConcatMembership<A, B>(rows: seq<A>, f: A -> seq<B>, y: B)
    ensures y in Concat(rows, f) <==> exists row :: row in rows && y in f(row)
  {
    if rows != [] {
      var p := rows[..|rows| - 1];
      var last := rows[|rows| - 1];
      ConcatMembership(p, f, y);
      assert rows == p + [last];
      if y in f(last) {
        assert last in rows;
      }
      forall row | row in rows && y in f(row) ensures y in Concat(rows, f) {
        if row != last {
          assert row in p;
        }
      }
    }
  }

  /** The value a sequence of `d[key] = value` assignments leaves under `k`. */
  function LastValue<K(==), V>(entries: seq<(K, V)>, k: K): Option<V>
  {
    if entries == [] then None
    else if entries[|entries| - 1].0 == k then Some(entries[|entries| - 1].1)
    else LastValue(entries[..|entries| - 1], k)
  }

  lemma LastValueSnoc<K, V>(entries: seq<(K, V)>, extra: seq<(K, V)>)
    requires |extra| <= 1
    ensures forall k :: LastValue(entries + extra, k) ==
              if extra != [] && extra[0].0 == k then Some(extra[0].1) else LastValue(entries, k)
  {
    if extra != [] {
      assert (entries + extra)[..|entries|] == entries;
    } else {
      assert entries + extra == entries;
    }
  }

  /** A key has a value exactly when some entry carries it, and that value is
      the one of the entry after which no other entry carries the key. */
  lemma {:induction false} LastValueSpec<K, V>(entries: seq<(K, V)>, k: K)
    ensures LastValue(entries, k).Some? <==> exists i :: 0 <= i < |entries| && entries[i].0 == k
    ensures LastValue(entries, k).Some? ==>
              exists i :: 0 <= i < |entries| && entries[i] == (k, LastValue(entries, k).value) &&
                          forall j :: i < j < |entries| ==> entries[j].0 != k
  {
    if entries != [] {
      var p := entries[..|entries| - 1];
      LastValueSpec(p, k);
      assert forall i :: 0 <= i < |p| ==> p[i] == entries[i];
    }
  }

  /** Writing `a` and then `b`: a key `b` writes wins, any other keeps its
      value from `a`. */
  lemma {:induction false} LastValueAppend<K, V>(a: seq<(K, V)>, b: seq<(K, V)>, k: K)
    ensures LastValue(a + b, k) == if LastValue(b, k).Some? then LastValue(b, k) else LastValue(a, k)
  {
    if b == [] {
      assert a + b == a;
    } else {
      assert (a + b)[..|a + b| - 1] == a + b[..|b| - 1];
      LastValueAppend(a, b[..|b| - 1], k);
    }
  }

  /** The list a sequence of `d[key].append(value)` calls leaves under `k`. */
  function Grouped<K(==), V>(entries: seq<(K, V)>, k: K): seq<V>
  {
    if entries == [] then []
    else
      var e := entries[|entries| - 1];
      Grouped(entries[..|entries| - 1], k) + (if e.0 == k then [e.1] else [])
  }

  lemma GroupedSnoc<K, V>(entries: seq<(K, V)>, extra: seq<(K, V)>)
    requires |extra| <= 1
    ensures forall k :: Grouped(entries + extra, k) ==
              Grouped(entries, k) + (if extra != [] && extra[0].0 == k then [extra[0].1] else [])
  {
    if extra != [] {
      assert (entries + extra)[..|entries|] == entries;
    } else {
      assert entries + extra == entries;
    }
  }

  /** A value is listed under `k` exactly when some entry pairs it with `k`,
      and the list is as long as the number of such entries. */
  lemma {:induction false} GroupedSpec<K, V>(entries: seq<(K, V)>, k: K, v: V)
    ensures v in Grouped(entries, k) <==> (k, v) in entries
    ensures Grouped(entries, k) != [] <==> exists i :: 0 <= i < |entries| && entries[i].0 == k
  {
    if entries != [] {
      var p := entries[..|entries| - 1];
      GroupedSpec(p, k, v);
      assert entries == p + [entries[|entries| - 1]];
      assert forall i :: 0 <= i < |p| ==> p[i] == entries[i];
    }
  }

  /** The keys of a dictionary filled from `entries`, in Python's iteration
      order: the order in which each key was first inserted. */
  function KeysInOrder<K(==), V>(entries: seq<(K, V)>): seq<K>
  {
    if entries == [] then []
    else
      var keys := KeysInOrder(entries[..|entries| - 1]);
      var k := entries[|entries| - 1].0;
      if k in keys then keys else keys + [k]
  }

  lemma KeysInOrderStep<K, V>(entries: seq<(K, V)>, extra: seq<(K, V)>)
    requires |extra| <= 1
    ensures KeysInOrder(entries + extra) ==
            if extra != [] && extra[0].0 !in KeysInOrder(entries) then KeysInOrder(entries) + [extra[0].0]
            else KeysInOrder(entries)
  {
    if extra != [] {
      assert (entries + extra)[..|entries|] == entries;
    } else {
      assert entries + extra == entries;
    }
  }

  /** Every key is listed once, and exactly the keys of the entries are. */
  lemma {:induction false} KeysInOrderSpec<K, V>(entries: seq<(K, V)>)
    ensures forall i, j :: 0 <= i < j < |KeysInOrder(entries)| ==> KeysInOrder(entries)[i] != KeysInOrder(entries)[j]
    ensures forall k :: k in KeysInOrder(entries) <==> exists i :: 0 <= i < |entries| && entries[i].0 == k
  {
    if entries != [] {
      var p := entries[..|entries| - 1];
      KeysInOrderSpec(p);
      assert forall i :: 0 <= i < |p| ==> p[i] == entries[i];
    }
  }

  /** The sum of the values of the entries. */
  function SumValues<K>(entries: seq<(K, int)>): int
  {
    if entries == [] then 0 else SumValues(entries[..|entries| - 1]) + entries[|entries| - 1].1
  }

  lemma {:induction false} SumValuesAppend<K>(a: seq<(K, int)>, b: seq<(K, int)>)
    ensures SumValues(a + b) == SumValues(a) + SumValues(b)
  {
    if b == [] {
      assert a + b == a;
    } else {
      assert (a + b)[..|a + b| - 1] == a + b[..|b| - 1];
      SumValuesAppend(a, b[..|b| - 1]);
    }
  }

  /** For each key, the sum of the list grouped under it. */
  function GroupSums<K(==)>(entries: seq<(K, int)>, keys: seq<K>): seq<int>
  {
    if keys == [] then []
    else GroupSums(entries, keys[..|keys| - 1]) + [Sum(Grouped(entries, keys[|keys| - 1]))]
  }

  lemma {:induction false} GroupSumsSnoc<K>(entries: seq<(K, int)>, keys: seq<K>, k: K, v: int)
    requires forall i, j :: 0 <= i < j < |keys| ==> keys[i] != keys[j]
    ensures Sum(GroupSums(entries + [(k, v)], keys)) == Sum(GroupSums(entries, keys)) + (if k in keys then v else 0)
  {
    if keys != [] {
      var ks := keys[..|keys| - 1];
      var last := keys[|keys| - 1];
      assert keys == ks + [last];
      GroupSumsSnoc(entries, ks, k, v);
      GroupedSnoc(entries, [(k, v)]);
      SumAppend(Grouped(entries, last), if last == k then [v] else []);
      SumAppend(GroupSums(entries + [(k, v)], ks), [Sum(Grouped(entries + [(k, v)], last))]);
      SumAppend(GroupSums(entries, ks), [Sum(Grouped(entries, last))]);
      assert Sum([v]) == v;
      assert Sum([Sum(Grouped(entries, last))]) == Sum(Grouped(entries, last));
      assert Sum([Sum(Grouped(entries + [(k, v)], last))]) == Sum(Grouped(entries + [(k, v)], last));
    }
  }

  /** Summing every group, once per key, sums every entry. */
  lemma {:induction false} GroupSumsTotal<K>(entries: seq<(K, int)>)
    ensures Sum(GroupSums(entries, KeysInOrder(entries))) == SumValues(entries)
  {
    if entries != [] {
      var q := entries[..|entries| - 1];
      var e := entries[|entries| - 1];
      assert entries == q + [e];
      GroupSumsTotal(q);
      KeysInOrderSpec(q);
      GroupSumsSnoc(q, KeysInOrder(q), e.0, e.1);
      if e.0 !in KeysInOrder(q) {
        var keys := KeysInOrder(q) + [e.0];
        assert keys[..|keys| - 1] == KeysInOrder(q);
        GroupedSnoc(q, [e]);
        if Grouped(q, e.0) != [] {
          GroupedSpec(q, e.0, Grouped(q, e.0)[0]);
        }
        assert Grouped(entries, e.0) == [e.1];
        assert Sum([e.1]) == e.1;
        SumAppend(GroupSums(entries, KeysInOrder(q)), [Sum(Grouped(entries, e.0))]);
      }
    }
  }
}

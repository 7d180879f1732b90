/** Small shared vocabulary: an optional value and the aggregates (sum, max,
    min) that the scheduler applies to Python lists of integers. */
module Common {

  datatype Option<T> = None | Some(value: T)

  /** Python truthiness of an id read from the database: None and 0 are false. */
  predicate Truthy(x: Option<int>)
  {
    x.Some? && x.value != 0
  }

  /** The value stored under `k`, if any (Python's `dict.get(k)`). */
  function Lookup<K, V>(m: map<K, V>, k: K): (r: Option<V>)
    ensures r.Some? <==> k in m
    ensures r.Some? ==> r.value == m[k]
  {
    if k in m then Some(m[k]) else None
  }

  /** `dict.get(k, default)`. */
  function GetOr<K, V>(m: map<K, V>, k: K, default: V): V
  {
    if k in m then m[k] else default
  }

  /** Python's `sum` over a list of integers. */
  function Sum(s: seq<int>): int
  {
    if s == [] then 0 else Sum(s[..|s| - 1]) + s[|s| - 1]
  }

  /** Python's `max` over a non-empty list. */
  function Max(s: seq<int>): (r: int)
    requires s != []
    ensures r in s
    ensures forall i :: 0 <= i < |s| ==> s[i] <= r
  {
    if |s| == 1 then s[0]
    else
      var m := Max(s[..|s| - 1]);
      assert forall i :: 0 <= i < |s| - 1 ==> s[..|s| - 1][i] == s[i];
      if m < s[|s| - 1] then s[|s| - 1] else m
  }

  /** Python's `min` over a non-empty list. */
  function Min(s: seq<int>): (r: int)
    requires s != []
    ensures r in s
    ensures forall i :: 0 <= i < |s| ==> r <= s[i]
  {
    if |s| == 1 then s[0]
    else
      var m := Min(s[..|s| - 1]);
      assert forall i :: 0 <= i < |s| - 1 ==> s[..|s| - 1][i] == s[i];
      if s[|s| - 1] < m then s[|s| - 1] else m
  }

  ghost predicate AllNonNegative(s: seq<int>)
  {
    forall i :: 0 <= i < |s| ==> s[i] >= 0
  }

  lemma {:induction false} SumAppend(a: seq<int>, b: seq<int>)
    ensures Sum(a + b) == Sum(a) + Sum(b)
  {
    if b == [] {
      assert a + b == a;
    } else {
      assert (a + b)[..|a + b| - 1] == a + b[..|b| - 1];
      SumAppend(a, b[..|b| - 1]);
    }
  }

  lemma {:induction false} SumNonNegative(s: seq<int>)
    requires AllNonNegative(s)
    ensures Sum(s) >= 0
  {
    if s != [] {
      SumNonNegative(s[..|s| - 1]);
    }
  }

  /** With non-negative entries every entry, and so the maximum, is bounded
      by the sum. */
  lemma {:induction false} EntryAtMostSum(s: seq<int>, i: int)
    requires AllNonNegative(s)
    requires 0 <= i < |s|
    ensures s[i] <= Sum(s)
  {
    var p := s[..|s| - 1];
    if i == |s| - 1 {
      SumNonNegative(p);
    } else {
      EntryAtMostSum(p, i);
    }
  }

  /** A sum of nothing but zeros is zero. */
  lemma {:induction false} SumOfZeros(s: seq<int>)
    requires forall i :: 0 <= i < |s| ==> s[i] == 0
    ensures Sum(s) == 0
  {
    if s != [] {
      SumOfZeros(s[..|s| - 1]);
    }
  }

  /** A non-zero sum has a non-zero entry. */
  lemma NonZeroSumHasNonZeroEntry(s: seq<int>)
    requires Sum(s) != 0
    ensures exists i :: 0 <= i < |s| && s[i] != 0
  {
    if forall i :: 0 <= i < |s| ==> s[i] == 0 {
      SumOfZeros(s);
    }
  }

  /** With non-negative entries, the sum equals the maximum exactly when at
      most one entry is positive. */
  lemma {:induction false} MaxEqualsSumIffOnePositive(s: seq<int>)
    requires s != [] && AllNonNegative(s)
    ensures Max(s) == Sum(s) <==>
            (forall i, j :: 0 <= i < |s| && 0 <= j < |s| && s[i] > 0 && s[j] > 0 ==> i == j)
  {
    var p := s[..|s| - 1];
    var x := s[|s| - 1];
    assert forall i :: 0 <= i < |p| ==> p[i] == s[i];
    if |s| == 1 {
      assert Sum(s) == Sum(p) + x && p == [];
    } else {
      MaxEqualsSumIffOnePositive(p);
      SumNonNegative(p);
      var k :| 0 <= k < |p| && p[k] == Max(p);
      EntryAtMostSum(p, k);
      if x > 0 && exists i :: 0 <= i < |p| && p[i] > 0 {
        var i :| 0 <= i < |p| && p[i] > 0;
        EntryAtMostSum(p, i);
        assert Sum(s) == Sum(p) + x;
        assert Max(s) < Sum(s);
      } else if x > 0 {
        SumOfZeros(p);
      }
    }
  }
}

/** Python's `sorted(xs, key=f)` and `xs.sort(key=f)`: a STABLE sort on an
    integer key. The model is an insertion sort that places each element
    after every element whose key is not larger, which is what makes it
    stable. */
module Sorting {

  /** Places `x` after the last element of the sorted `s` whose key is at
      most `key(x)`. */
  function Insert<T>(s: seq<T>, x: T, key: T -> int): (r: seq<T>)
    ensures |r| == |s| + 1
  {
    if s == [] then [x]
    else if key(s[|s| - 1]) <= key(x) then s + [x]
    else Insert(s[..|s| - 1], x, key) + [s[|s| - 1]]
  }

  function SortBy<T>(s: seq<T>, key: T -> int): (r: seq<T>)
    ensures |r| == |s|
  {
    if s == [] then [] else Insert(SortBy(s[..|s| - 1], key), s[|s| - 1], key)
  }

  ghost predicate SortedBy<T>(s: seq<T>, key: T -> int)
  {
    forall i, j :: 0 <= i < j < |s| ==> key(s[i]) <= key(s[j])
  }

  /** The elements of `s` whose key is `k`, in their order in `s`. Stability
      means that sorting leaves each of these subsequences as it was. */
  function WithKey<T>(s: seq<T>, key: T -> int, k: int): seq<T>
  {
    if s == [] then []
    else WithKey(s[..|s| - 1], key, k) + (if key(s[|s| - 1]) == k then [s[|s| - 1]] else [])
  }

  lemma {:induction false} WithKeyAppend<T>(a: seq<T>, b: seq<T>, key: T -> int, k: int)
    ensures WithKey(a + b, key, k) == WithKey(a, key, k) + WithKey(b, key, k)
  {
    if b == [] {
      assert a + b == a;
    } else {
      assert (a + b)[..|a + b| - 1] == a + b[..|b| - 1];
      WithKeyAppend(a, b[..|b| - 1], key, k);
    }
  }

  lemma {:induction false} InsertPermutes<T>(s: seq<T>, x: T, key: T -> int)
    ensures multiset(Insert(s, x, key)) == multiset(s) + multiset{x}
  {
    if s != [] && key(s[|s| - 1]) > key(x) {
      var p := s[..|s| - 1];
      assert s == p + [s[|s| - 1]];
      InsertPermutes(p, x, key);
    }
  }

  lemma {:induction false} InsertSorted<T>(s: seq<T>, x: T, key: T -> int)
    requires SortedBy(s, key)
    ensures SortedBy(Insert(s, x, key), key)
  {
    if s != [] && key(s[|s| - 1]) > key(x) {
      var p := s[..|s| - 1];
      var y := s[|s| - 1];
      InsertSorted(p, x, key);
      InsertPermutes(p, x, key);
      var q := Insert(p, x, key);
      forall i | 0 <= i < |q|
        ensures key(q[i]) <= key(y)
      {
        assert q[i] in multiset(q);
        if q[i] != x {
          assert q[i] in multiset(p);
          var j :| 0 <= j < |p| && p[j] == q[i];
          assert s[j] == p[j];
        }
      }
      var r := q + [y];
      assert forall i, j :: 0 <= i < j < |r| ==> key(r[i]) <= key(r[j]) by {
        forall i, j | 0 <= i < j < |r| ensures key(r[i]) <= key(r[j]) {
          if j < |q| {
            assert r[i] == q[i] && r[j] == q[j];
          } else {
            assert r[i] == q[i] && r[j] == y;
          }
        }
      }
    }
  }

  lemma WithKeySingle<T>(x: T, key: T -> int, k: int)
    ensures WithKey([x], key, k) == if key(x) == k then [x] else []
  {
    assert [x][..0] == [];
  }

  lemma {:induction false} InsertStable<T>(s: seq<T>, x: T, key: T -> int)
    requires SortedBy(s, key)
    ensures forall k :: WithKey(Insert(s, x, key), key, k) == WithKey(s, key, k) + WithKey([x], key, k)
  {
    if s == [] {
    } else if key(s[|s| - 1]) <= key(x) {
      forall k ensures WithKey(s + [x], key, k) == WithKey(s, key, k) + WithKey([x], key, k) {
        WithKeyAppend(s, [x], key, k);
      }
    } else {
      var p := s[..|s| - 1];
      var y := s[|s| - 1];
      assert s == p + [y];
      InsertStable(p, x, key);
      var q := Insert(p, x, key);
      assert Insert(s, x, key) == q + [y];
      forall k ensures WithKey(q + [y], key, k) == WithKey(s, key, k) + WithKey([x], key, k) {
        WithKeyAppend(q, [y], key, k);
        WithKeyAppend(p, [y], key, k);
        WithKeySingle(x, key, k);
        WithKeySingle(y, key, k);
      }
    }
  }

  lemma {:induction false} SortBySorted<T>(s: seq<T>, key: T -> int)
    ensures SortedBy(SortBy(s, key), key)
  {
    if s != [] {
      SortBySorted(s[..|s| - 1], key);
      InsertSorted(SortBy(s[..|s| - 1], key), s[|s| - 1], key);
    }
  }

  lemma {:induction false} SortByPermutes<T>(s: seq<T>, key: T -> int)
    ensures multiset(SortBy(s, key)) == multiset(s)
  {
    if s != [] {
      var p := s[..|s| - 1];
      SortByPermutes(p, key);
      InsertPermutes(SortBy(p, key), s[|s| - 1], key);
      assert s == p + [s[|s| - 1]];
    }
  }

  lemma {:induction false} SortByStable<T>(s: seq<T>, key: T -> int)
    ensures forall k :: WithKey(SortBy(s, key), key, k) == WithKey(s, key, k)
  {
    if s != [] {
      var p := s[..|s| - 1];
      var x := s[|s| - 1];
      SortByStable(p, key);
      SortBySorted(p, key);
      InsertStable(SortBy(p, key), x, key);
      assert s == p + [x];
      forall k ensures WithKey(s, key, k) == WithKey(p, key, k) + WithKey([x], key, k) {
        WithKeyAppend(p, [x], key, k);
      }
    }
  }

  /** Sorting yields a permutation ordered by key in which elements of equal
      key keep their relative order. */
  lemma SortByCorrect<T>(s: seq<T>, key: T -> int)
    ensures SortedBy(SortBy(s, key), key)
    ensures multiset(SortBy(s, key)) == multiset(s)
    ensures forall k :: WithKey(SortBy(s, key), key, k) == WithKey(s, key, k)
  {
    SortBySorted(s, key);
    SortByPermutes(s, key);
    SortByStable(s, key);
  }

  /** The first element of a sorted non-empty list has the least key and the
      last one the greatest. */
  lemma SortedEnds<T>(s: seq<T>, key: T -> int)
    requires s != []
    ensures forall i :: 0 <= i < |s| ==> key(SortBy(s, key)[0]) <= key(s[i]) <= key(SortBy(s, key)[|s| - 1])
    ensures SortBy(s, key)[0] in s && SortBy(s, key)[|s| - 1] in s
  {
    var r := SortBy(s, key);
    SortByCorrect(s, key);
    forall i | 0 <= i < |s|
      ensures key(r[0]) <= key(s[i]) <= key(r[|s| - 1])
    {
      assert s[i] in multiset(r);
      var j :| 0 <= j < |r| && r[j] == s[i];
    }
    assert r[0] in multiset(r) && r[|s| - 1] in multiset(r);
  }
}

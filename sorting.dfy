/** Python's `sorted(xs, key=f, reverse=True)` and `xs.sort(key=f, reverse=True)`:
    a stable sort into descending key order. Each key is computed once per element,
    so the key is a plain function of the element. */
module Sorting {

  predicate NonIncreasing<T>(s: seq<T>, key: T -> int) {
    forall i, j :: 0 <= i < j < |s| ==> key(s[i]) >= key(s[j])
  }

  /** The elements of `s` whose key is `k`, in their order in `s`. */
  function Filter<T>(s: seq<T>, key: T -> int, k: int): (r: seq<T>)
    ensures |r| <= |s|
    ensures forall i :: 0 <= i < |r| ==> key(r[i]) == k
  {
    if s == [] then []
    else (if key(s[0]) == k then [s[0]] else []) + Filter(s[1..], key, k)
  }

  /** `x` placed before the first element whose key does not exceed its own. */
  function Insert<T>(x: T, r: seq<T>, key: T -> int): (out: seq<T>)
    ensures multiset(out) == multiset(r) + multiset{x}
  {
    if r == [] || key(r[0]) <= key(x) then
      [x] + r
    else
      assert r == [r[0]] + r[1..];
      [r[0]] + Insert(x, r[1..], key)
  }

  lemma {:induction false} InsertKeepsOrder<T>(x: T, r: seq<T>, key: T -> int)
    requires NonIncreasing(r, key)
    ensures NonIncreasing(Insert(x, r, key), key)
    decreases |r|
  {
    if r != [] && key(r[0]) > key(x) {
      var rest := Insert(x, r[1..], key);
      InsertKeepsOrder(x, r[1..], key);
      assert r == [r[0]] + r[1..];
      MembersOfSum(rest, r[1..], x);
      var out := [r[0]] + rest;
      forall j | 1 <= j < |out|
        ensures key(out[0]) >= key(out[j])
      {
        assert out[j] in rest;
      }
    }
  }

  lemma MembersOfSum<T>(s: seq<T>, t: seq<T>, x: T)
    requires multiset(s) == multiset(t) + multiset{x}
    ensures forall y :: y in s ==> y in t || y == x
  {
    forall y | y in s
      ensures y in t || y == x
    {
      assert y in multiset(s);
    }
  }

  /** The descending stable sort. Elements are inserted back to front, so each one
      goes before the equal keys that follow it in the input. */
  function SortDesc<T>(s: seq<T>, key: T -> int): (r: seq<T>)
    ensures multiset(r) == multiset(s)
    ensures NonIncreasing(r, key)
  {
    if s == [] then []
    else
      assert s == [s[0]] + s[1..];
      InsertKeepsOrder(s[0], SortDesc(s[1..], key), key);
      Insert(s[0], SortDesc(s[1..], key), key)
  }

  lemma {:induction false} FilterInsert<T>(x: T, r: seq<T>, key: T -> int, k: int)
    ensures Filter(Insert(x, r, key), key, k) == (if key(x) == k then [x] else []) + Filter(r, key, k)
    decreases |r|
  {
    if r == [] || key(r[0]) <= key(x) {
      assert ([x] + r)[1..] == r;
    } else {
      FilterInsert(x, r[1..], key, k);
      var out := Insert(x, r, key);
      assert out[0] == r[0] && out[1..] == Insert(x, r[1..], key);
    }
  }

  /** Stability: among equal keys the input order is kept. */
  lemma {:induction false} SortDescStable<T>(s: seq<T>, key: T -> int, k: int)
    ensures Filter(SortDesc(s, key), key, k) == Filter(s, key, k)
    decreases |s|
  {
    if s != [] {
      SortDescStable(s[1..], key, k);
      FilterInsert(s[0], SortDesc(s[1..], key), key, k);
    }
  }

  lemma {:induction false} FilterEmpty<T>(s: seq<T>, key: T -> int, k: int)
    requires forall i :: 0 <= i < |s| ==> key(s[i]) != k
    ensures Filter(s, key, k) == []
    decreases |s|
  {
    if s != [] {
      FilterEmpty(s[1..], key, k);
    }
  }

  lemma {:induction false} FilterHas<T>(s: seq<T>, key: T -> int, i: nat)
    requires i < |s|
    ensures Filter(s, key, key(s[i])) != []
    decreases i
  {
    if i > 0 && key(s[0]) != key(s[i]) {
      FilterHas(s[1..], key, i - 1);
    }
  }

  /** A non-increasing sequence is fixed by its key classes: two of them that agree
      on every class are equal. */
  lemma {:induction false} NonIncreasingDeterminedByFilters<T>(r: seq<T>, q: seq<T>, key: T -> int)
    requires NonIncreasing(r, key) && NonIncreasing(q, key)
    requires forall k :: Filter(r, key, k) == Filter(q, key, k)
    ensures r == q
    decreases |r|
  {
    if r != [] && q != [] {
      var m, n := key(r[0]), key(q[0]);
      FilterHas(r, key, 0);
      FilterHas(q, key, 0);
      if m < n {
        FilterEmpty(r, key, n);
      } else if n < m {
        FilterEmpty(q, key, m);
      } else {
        assert r[0] == Filter(r, key, m)[0] == Filter(q, key, m)[0] == q[0];
        forall k
          ensures Filter(r[1..], key, k) == Filter(q[1..], key, k)
        {
          assert Filter(r, key, k) == Filter(q, key, k);
          if k == m {
            assert Filter(r, key, k) == [r[0]] + Filter(r[1..], key, k);
            assert Filter(q, key, k) == [q[0]] + Filter(q[1..], key, k);
            assert Filter(r[1..], key, k) == Filter(r, key, k)[1..];
            assert Filter(q[1..], key, k) == Filter(q, key, k)[1..];
          } else {
            assert Filter(r, key, k) == Filter(r[1..], key, k);
            assert Filter(q, key, k) == Filter(q[1..], key, k);
          }
        }
        NonIncreasingDeterminedByFilters(r[1..], q[1..], key);
        assert r == [r[0]] + r[1..] && q == [q[0]] + q[1..];
      }
    } else if r != [] {
      FilterHas(r, key, 0);
    } else if q != [] {
      FilterHas(q, key, 0);
    }
  }

  /** `SortDesc` is the only order that is non-increasing and stable. */
  lemma SortDescUnique<T>(s: seq<T>, r: seq<T>, key: T -> int)
    requires NonIncreasing(r, key)
    requires forall k :: Filter(r, key, k) == Filter(s, key, k)
    ensures r == SortDesc(s, key)
  {
    forall k
      ensures Filter(r, key, k) == Filter(SortDesc(s, key), key, k)
    {
      SortDescStable(s, key, k);
    }
    NonIncreasingDeterminedByFilters(r, SortDesc(s, key), key);
  }

  /** Sorting what is already in order changes nothing. */
  lemma SortDescOfSorted<T>(s: seq<T>, key: T -> int)
    requires NonIncreasing(s, key)
    ensures SortDesc(s, key) == s
  {
    SortDescUnique(s, s, key);
  }

  /** When no two elements share a key, the sorted order is strictly decreasing. */
  lemma SortDescStrict<T>(s: seq<T>, key: T -> int)
    requires forall i, j :: 0 <= i < j < |s| ==> key(s[i]) != key(s[j])
    ensures forall i, j :: 0 <= i < j < |SortDesc(s, key)| ==> key(SortDesc(s, key)[i]) > key(SortDesc(s, key)[j])
  {
    var r := SortDesc(s, key);
    forall i, j | 0 <= i < j < |r|
      ensures key(r[i]) > key(r[j])
    {
      if key(r[i]) == key(r[j]) {
        SortDescStable(s, key, key(r[i]));
        FilterTwo(r, key, i, j);
        FilterAtMostOne(s, key, key(r[i]));
      }
    }
  }

  lemma {:induction false} FilterTwo<T>(s: seq<T>, key: T -> int, i: nat, j: nat)
    requires i < j < |s| && key(s[i]) == key(s[j])
    ensures 2 <= |Filter(s, key, key(s[i]))|
    decreases |s|
  {
    if i > 0 {
      FilterTwo(s[1..], key, i - 1, j - 1);
    } else {
      FilterHas(s[1..], key, j - 1);
    }
  }

  lemma {:induction false} FilterAtMostOne<T>(s: seq<T>, key: T -> int, k: int)
    requires forall i, j :: 0 <= i < j < |s| ==> key(s[i]) != key(s[j])
    ensures |Filter(s, key, k)| <= 1
    decreases |s|
  {
    if s != [] {
      FilterAtMostOne(s[1..], key, k);
      if key(s[0]) == k {
        FilterEmpty(s[1..], key, k);
      }
    }
  }
}

/** Descending ranking by a numeric key, as the plan tools use it: pandas'
    `sort_values(ascending=False)` followed by `head(n)`, and Python's
    `list.sort(key=..., reverse=True)`. The sort here is an insertion sort
    that keeps equal keys in input order, as Python's stable `list.sort`
    does; pandas' default sort makes no such promise, so the pandas callers
    rely only on order and permutation. */
module Ranking {

  /** Every earlier element's key is at least every later one's. */
  ghost predicate SortedDesc<T>(s: seq<T>, key: T -> real) {
    forall i, j :: 0 <= i < j < |s| ==> key(s[i]) >= key(s[j])
  }

  /** Insert `x` in front of the first element whose key is smaller. */
  function Insert<T>(x: T, s: seq<T>, key: T -> real): (r: seq<T>)
    ensures |r| == |s| + 1
    ensures multiset(r) == multiset(s) + multiset{x}
  {
    if s == [] || key(x) >= key(s[0]) then [x] + s
    else
      assert s == [s[0]] + s[1..];
      [s[0]] + Insert(x, s[1..], key)
  }

  /** Sort by `key`, largest first; equal keys keep their input order. */
  function SortDesc<T>(s: seq<T>, key: T -> real): (r: seq<T>)
    ensures |r| == |s|
    ensures multiset(r) == multiset(s)
  {
    if s == [] then []
    else
      assert s == [s[0]] + s[1..];
      Insert(s[0], SortDesc(s[1..], key), key)
  }

  lemma {:induction false} InsertSorted<T>(x: T, s: seq<T>, key: T -> real)
    requires SortedDesc(s, key)
    ensures SortedDesc(Insert(x, s, key), key)
  {
    if s == [] || key(x) >= key(s[0]) {
      var r := [x] + s;
      forall i, j | 0 <= i < j < |r| ensures key(r[i]) >= key(r[j]) {
        if i == 0 {
          assert r[j] == s[j - 1];
          assert key(s[0]) >= key(s[j - 1]) || j == 1;
        } else {
          assert r[i] == s[i - 1] && r[j] == s[j - 1];
        }
      }
    } else {
      var t := Insert(x, s[1..], key);
      InsertSorted(x, s[1..], key);
      var r := [s[0]] + t;
      forall j | 0 < j < |r| ensures key(s[0]) >= key(r[j]) {
        assert r[j] in multiset(t);
        assert r[j] in multiset(s[1..]) + multiset{x};
        if r[j] != x {
          var m :| 0 <= m < |s[1..]| && s[1..][m] == r[j];
          assert s[m + 1] == r[j];
        }
      }
      forall i, j | 0 <= i < j < |r| ensures key(r[i]) >= key(r[j]) {
        if i > 0 {
          assert r[i] == t[i - 1] && r[j] == t[j - 1];
        }
      }
    }
  }

  /** The sort's result is ordered by `key`, largest first. */
  lemma {:induction false} SortDescSorted<T>(s: seq<T>, key: T -> real)
    ensures SortedDesc(SortDesc(s, key), key)
  {
    if s != [] {
      SortDescSorted(s[1..], key);
      InsertSorted(s[0], SortDesc(s[1..], key), key);
    }
  }

  /** An input that is already ordered comes back unchanged: the sort moves
      nothing it does not have to, so equal keys keep their order. */
  lemma {:induction false} SortDescOrdered<T>(s: seq<T>, key: T -> real)
    requires SortedDesc(s, key)
    ensures SortDesc(s, key) == s
  {
    if s != [] {
      assert SortedDesc(s[1..], key) by {
        forall i, j | 0 <= i < j < |s[1..]| ensures key(s[1..][i]) >= key(s[1..][j]) {
          assert s[1..][i] == s[i + 1] && s[1..][j] == s[j + 1];
        }
      }
      SortDescOrdered(s[1..], key);
      if |s| > 1 {
        assert key(s[0]) >= key(s[1]);
      }
    }
  }

  /** The elements of `s` whose key is `k`, in their order in `s`. */
  function WithKey<T>(s: seq<T>, key: T -> real, k: real): (r: seq<T>)
    ensures |r| <= |s|
    ensures forall x :: x in r ==> x in s && key(x) == k
  {
    if s == [] then []
    else (if key(s[0]) == k then [s[0]] else []) + WithKey(s[1..], key, k)
  }

  /** Inserting `x` puts it in front of every element with its key. */
  lemma {:induction false} InsertWithKey<T>(x: T, s: seq<T>, key: T -> real, k: real)
    ensures WithKey(Insert(x, s, key), key, k) ==
            (if key(x) == k then [x] else []) + WithKey(s, key, k)
  {
    if s == [] || key(x) >= key(s[0]) {
      assert ([x] + s)[1..] == s;
    } else {
      var t := Insert(x, s[1..], key);
      InsertWithKey(x, s[1..], key, k);
      assert ([s[0]] + t)[1..] == t;
      if key(x) == k {
        assert key(s[0]) != k;
      }
    }
  }

  /** The sort is stable: the elements sharing any one key come out in the
      order they went in, as with `list.sort(..., reverse=True)`. */
  lemma {:induction false} SortDescStable<T>(s: seq<T>, key: T -> real, k: real)
    ensures WithKey(SortDesc(s, key), key, k) == WithKey(s, key, k)
  {
    if s != [] {
      SortDescStable(s[1..], key, k);
      InsertWithKey(s[0], SortDesc(s[1..], key), key, k);
    }
  }

  /** The first `n` elements, all of them when there are fewer
      (`head(n)`). */
  function Take<T>(s: seq<T>, n: nat): (r: seq<T>)
    ensures |r| == if |s| < n then |s| else n
    ensures forall k :: 0 <= k < |r| ==> r[k] == s[k]
  {
    if |s| <= n then s else s[..n]
  }

  /** The `n` largest by `key`: ordered, taken from the input, and nothing
      left out beats the last one kept. */
  lemma {:induction false} TopByKey<T>(s: seq<T>, key: T -> real, n: nat)
    requires n > 0
    ensures SortedDesc(Take(SortDesc(s, key), n), key)
    ensures multiset(Take(SortDesc(s, key), n)) <= multiset(s)
    ensures |s| <= n ==> multiset(Take(SortDesc(s, key), n)) == multiset(s)
    ensures forall x :: x in multiset(s) - multiset(Take(SortDesc(s, key), n)) ==>
              key(x) <= key(Take(SortDesc(s, key), n)[n - 1])
  {
    var sorted := SortDesc(s, key);
    SortDescSorted(s, key);
    PrefixOfSorted(sorted, key, n);
  }

  lemma {:induction false} PrefixOfSorted<T>(sorted: seq<T>, key: T -> real, n: nat)
    requires n > 0 && SortedDesc(sorted, key)
    ensures SortedDesc(Take(sorted, n), key)
    ensures multiset(Take(sorted, n)) <= multiset(sorted)
    ensures |sorted| <= n ==> Take(sorted, n) == sorted
    ensures forall x :: x in multiset(sorted) - multiset(Take(sorted, n)) ==>
              key(x) <= key(Take(sorted, n)[n - 1])
  {
    if |sorted| > n {
      var r := sorted[..n];
      var rest := sorted[n..];
      assert sorted == r + rest;
      assert multiset(sorted) == multiset(r) + multiset(rest);
      forall x | x in multiset(sorted) - multiset(r) ensures key(x) <= key(r[n - 1]) {
        assert x in multiset(rest);
        var m :| 0 <= m < |rest| && rest[m] == x;
        assert sorted[n + m] == x && sorted[n - 1] == r[n - 1];
      }
    }
  }
}

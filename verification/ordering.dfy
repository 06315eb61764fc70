/**
 * Ordering of the catalog by `menuOrder` (a missing value counts as 0).
 * Both copies of `sortWorksByMenuOrder` call JavaScript's `Array.prototype.sort`
 * with the comparator `orderA - orderB`; that sort is stable, so the result is
 * the stable sort by key, defined here once as an insertion sort.
 */
module Ordering {
  import opened Values
  import opened Works

  ghost predicate SortedByMenuOrder(s: seq<Work>) {
    forall i, j :: 0 <= i < j < |s| ==> MenuKey(s[i]) <= MenuKey(s[j])
  }

  /** The works of `s` whose key is `k`, in their order in `s`. */
  function WithKey(s: seq<Work>, k: int): seq<Work>
    decreases |s|
  {
    if |s| == 0 then []
    else WithKey(s[..|s| - 1], k) + (if MenuKey(s[|s| - 1]) == k then [s[|s| - 1]] else [])
  }

  /** Places `x` into the sorted `t` after every work whose key is at most its own. */
  function InsertAfter(t: seq<Work>, x: Work): seq<Work>
    decreases |t|
  {
    if |t| == 0 || MenuKey(t[|t| - 1]) <= MenuKey(x) then t + [x]
    else InsertAfter(t[..|t| - 1], x) + [t[|t| - 1]]
  }

  /** The stable sort of `s` by `menuOrder`. */
  function MenuOrderSorted(s: seq<Work>): (r: seq<Work>)
    ensures |r| == |s|
    decreases |s|
  {
    if |s| == 0 then []
    else
      var t := MenuOrderSorted(s[..|s| - 1]);
      InsertAfterPermutes(t, s[|s| - 1]);
      InsertAfter(t, s[|s| - 1])
  }

  lemma {:induction false} InsertAfterPermutes(t: seq<Work>, x: Work)
    ensures multiset(InsertAfter(t, x)) == multiset(t) + multiset{x}
    ensures |InsertAfter(t, x)| == |t| + 1
    decreases |t|
  {
    if |t| > 0 && MenuKey(t[|t| - 1]) > MenuKey(x) {
      InsertAfterPermutes(t[..|t| - 1], x);
      assert t == t[..|t| - 1] + [t[|t| - 1]];
    }
  }

  /** The sort returns a permutation of its input, in non-decreasing key order. */
  lemma {:induction false} SortSortsAndPermutes(s: seq<Work>)
    ensures SortedByMenuOrder(MenuOrderSorted(s))
    ensures multiset(MenuOrderSorted(s)) == multiset(s)
    decreases |s|
  {
    if |s| > 0 {
      var t := MenuOrderSorted(s[..|s| - 1]);
      SortSortsAndPermutes(s[..|s| - 1]);
      InsertAfterSorted(t, s[|s| - 1]);
      InsertAfterPermutes(t, s[|s| - 1]);
      assert s == s[..|s| - 1] + [s[|s| - 1]];
    }
  }

  /** `sortWorksByMenuOrder` of app/all-works/page.js: a sorted copy of the
      input, or the empty list when the input is not an array (None). */
  function SortWorksByMenuOrder(input: Option<seq<Work>>): (r: seq<Work>)
    ensures input.None? ==> r == []
    ensures input.Some? ==> SortedByMenuOrder(r) && multiset(r) == multiset(input.value)
  {
    match input
    case None => []
    case Some(ws) => SortSortsAndPermutes(ws); MenuOrderSorted(ws)
  }

  lemma {:induction false} InsertAfterSorted(t: seq<Work>, x: Work)
    requires SortedByMenuOrder(t)
    ensures SortedByMenuOrder(InsertAfter(t, x))
    decreases |t|
  {
    if |t| > 0 && MenuKey(t[|t| - 1]) > MenuKey(x) {
      var t' := t[..|t| - 1];
      var last := t[|t| - 1];
      InsertAfterSorted(t', x);
      var u := InsertAfter(t', x);
      InsertAfterPermutes(t', x);
      LastIsLargest(t);
      KeysBelow(t', x, u, MenuKey(last));
      SortedSnoc(u, last);
      assert InsertAfter(t, x) == u + [last];
    }
  }

  /** Keys bounded on `t` and `x` stay bounded on a permutation of `t + [x]`. */
  lemma KeysBelow(t: seq<Work>, x: Work, u: seq<Work>, bound: int)
    requires multiset(u) == multiset(t) + multiset{x}
    requires MenuKey(x) <= bound
    requires forall y :: y in t ==> MenuKey(y) <= bound
    ensures forall k :: 0 <= k < |u| ==> MenuKey(u[k]) <= bound
  {
    forall k | 0 <= k < |u| ensures MenuKey(u[k]) <= bound {
      var y := u[k];
      assert y in multiset(u);
      if y != x {
        assert y in multiset(t);
      }
    }
  }

  /** A sorted list followed by a work whose key bounds them all is sorted. */
  lemma SortedSnoc(u: seq<Work>, last: Work)
    requires SortedByMenuOrder(u)
    requires forall k :: 0 <= k < |u| ==> MenuKey(u[k]) <= MenuKey(last)
    ensures SortedByMenuOrder(u + [last])
  {
    var r := u + [last];
    forall i, j | 0 <= i < j < |r| ensures MenuKey(r[i]) <= MenuKey(r[j]) {
      assert r[i] == u[i];
      if j < |u| {
        assert r[j] == u[j];
      } else {
        assert r[j] == last;
      }
    }
  }

  /** In a sorted list no work before the last has a larger key. */
  lemma LastIsLargest(t: seq<Work>)
    requires SortedByMenuOrder(t) && |t| > 0
    ensures forall y :: y in t[..|t| - 1] ==> MenuKey(y) <= MenuKey(t[|t| - 1])
  {
    forall y | y in t[..|t| - 1] ensures MenuKey(y) <= MenuKey(t[|t| - 1]) {
      var m :| 0 <= m < |t| - 1 && t[..|t| - 1][m] == y;
      assert t[m] == y;
    }
  }

  lemma {:induction false} WithKeyAppend(a: seq<Work>, b: seq<Work>, k: int)
    ensures WithKey(a + b, k) == WithKey(a, k) + WithKey(b, k)
    decreases |b|
  {
    if |b| > 0 {
      assert (a + b)[..|a + b| - 1] == a + b[..|b| - 1];
      WithKeyAppend(a, b[..|b| - 1], k);
    } else {
      assert a + b == a;
    }
  }

  lemma WithKeySingle(w: Work, k: int)
    ensures WithKey([w], k) == if MenuKey(w) == k then [w] else []
  {
    assert [w][..0] == [];
  }

  lemma KeysApartCommute(x: Work, y: Work, k: int)
    requires MenuKey(x) < MenuKey(y)
    ensures WithKey([x], k) + WithKey([y], k) == WithKey([y], k) + WithKey([x], k)
  {
    WithKeySingle(x, k);
    WithKeySingle(y, k);
  }

  lemma {:induction false} InsertAfterStable(t: seq<Work>, x: Work, k: int)
    requires SortedByMenuOrder(t)
    ensures WithKey(InsertAfter(t, x), k) == WithKey(t + [x], k)
    decreases |t|
  {
    if |t| > 0 && MenuKey(t[|t| - 1]) > MenuKey(x) {
      var t' := t[..|t| - 1];
      var last := t[|t| - 1];
      var u := InsertAfter(t', x);
      assert InsertAfter(t, x) == u + [last];
      assert t' + [last] == t;
      InsertAfterStable(t', x, k);
      WithKeyAppend(u, [last], k);
      WithKeyAppend(t', [x], k);
      WithKeyAppend(t', [last], k);
      WithKeyAppend(t, [x], k);
      KeysApartCommute(x, last, k);
      var wt, wx, wl := WithKey(t', k), WithKey([x], k), WithKey([last], k);
      calc {
        WithKey(InsertAfter(t, x), k);
        WithKey(u, k) + wl;
        (wt + wx) + wl;
        wt + (wx + wl);
        wt + (wl + wx);
        (wt + wl) + wx;
        WithKey(t + [x], k);
      }
    }
  }

  /** Stability: for every key, the works with that key keep their input order. */
  lemma {:induction false} SortIsStable(s: seq<Work>, k: int)
    ensures WithKey(MenuOrderSorted(s), k) == WithKey(s, k)
    decreases |s|
  {
    if |s| > 0 {
      var s' := s[..|s| - 1];
      var x := s[|s| - 1];
      var t := MenuOrderSorted(s');
      assert MenuOrderSorted(s) == InsertAfter(t, x);
      assert s' + [x] == s;
      SortIsStable(s', k);
      SortSortsAndPermutes(s');
      InsertAfterStable(t, x, k);
      WithKeyAppend(t, [x], k);
      WithKeyAppend(s', [x], k);
    }
  }

  /** Sorting a list that is already in order leaves it unchanged. */
  lemma {:induction false} SortOfSortedIsIdentity(s: seq<Work>)
    requires SortedByMenuOrder(s)
    ensures MenuOrderSorted(s) == s
    decreases |s|
  {
    if |s| > 0 {
      SortOfSortedIsIdentity(s[..|s| - 1]);
      assert s[..|s| - 1] + [s[|s| - 1]] == s;
    }
  }

  /** Sorting is idempotent. */
  lemma SortIdempotent(s: seq<Work>)
    ensures MenuOrderSorted(MenuOrderSorted(s)) == MenuOrderSorted(s)
  {
    SortSortsAndPermutes(s);
    SortOfSortedIsIdentity(MenuOrderSorted(s));
  }

  /**
   * `sortWorksByMenuOrder` of components/FetchLowerLayer/WorkOther.js:
   * `works.sort(...)` reorders the given array in place and returns it.
   */
  method SortInPlace(a: array<Work>) returns (b: array<Work>)
    modifies a
    ensures b == a
    ensures a[..] == MenuOrderSorted(old(a[..]))
  {
    ghost var s := a[..];
    for i := 0 to a.Length
      invariant a[..i] == MenuOrderSorted(s[..i])
      invariant a[i..] == s[i..]
    {
      assert a[i] == s[i];
      InsertIntoPrefix(a, i);
      assert s[..i + 1][..i] == s[..i];
      assert MenuOrderSorted(s[..i + 1]) == InsertAfter(MenuOrderSorted(s[..i]), s[i]);
    }
    assert s[..a.Length] == s;
    return a;
  }

  /** Where `InsertAfter` puts `x`: after the last work whose key is at most its own. */
  lemma {:induction false} InsertAfterAt(t: seq<Work>, x: Work, j: nat)
    requires j <= |t|
    requires forall m :: j <= m < |t| ==> MenuKey(t[m]) > MenuKey(x)
    requires j == 0 || MenuKey(t[j - 1]) <= MenuKey(x)
    ensures InsertAfter(t, x) == t[..j] + [x] + t[j..]
    decreases |t|
  {
    if |t| > j {
      var t' := t[..|t| - 1];
      InsertAfterAt(t', x, j);
      assert t'[..j] == t[..j];
      assert t'[j..] + [t[|t| - 1]] == t[j..];
    }
  }

  /** One pass of the insertion sort: shifts the works of `a[..i]` whose key
      exceeds that of `a[i]` one place right and drops `a[i]` into the gap. */
  method InsertIntoPrefix(a: array<Work>, i: nat)
    requires i < a.Length
    modifies a
    ensures a[..i + 1] == InsertAfter(old(a[..i]), old(a[i]))
    ensures a[i + 1..] == old(a[i + 1..])
  {
    ghost var t := a[..i];
    var x := a[i];
    var j := ShiftGreater(a, i, x);
    a[j] := x;
    InsertAfterAt(t, x, j);
    assert a[..j] == t[..j];
    assert a[j + 1..i + 1] == t[j..];
    assert a[..i + 1] == a[..j] + [a[j]] + a[j + 1..i + 1];
  }

  /** The shifting loop of one insertion pass: moves right, by one place, the
      run of works just before position `i` whose key exceeds that of `x`,
      and returns the start of the gap it leaves. */
  method ShiftGreater(a: array<Work>, i: nat, x: Work) returns (j: nat)
    requires i < a.Length
    modifies a
    ensures j <= i
    ensures forall m :: 0 <= m < j ==> a[m] == old(a[m])
    ensures forall m :: j < m <= i ==> a[m] == old(a[m - 1])
    ensures forall m :: i < m < a.Length ==> a[m] == old(a[m])
    ensures forall m :: j <= m < i ==> MenuKey(old(a[m])) > MenuKey(x)
    ensures j == 0 || MenuKey(old(a[j - 1])) <= MenuKey(x)
  {
    j := i;
    while j > 0 && MenuKey(a[j - 1]) > MenuKey(x)
      invariant 0 <= j <= i
      invariant forall m :: 0 <= m < j ==> a[m] == old(a[m])
      invariant forall m :: j < m <= i ==> a[m] == old(a[m - 1])
      invariant forall m :: i < m < a.Length ==> a[m] == old(a[m])
      invariant forall m :: j <= m < i ==> MenuKey(old(a[m])) > MenuKey(x)
    {
      a[j] := a[j - 1];
      j := j - 1;
    }
  }
}

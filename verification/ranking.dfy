/**
 A stable sort by a real-valued key in descending order: the model of
 Python's `sorted(xs, key=k, reverse=True)`, which keeps items with equal keys
 in their input order.

 A list is a stable descending sort of `s` when it is sorted non-increasingly
 and, for every key value `k`, the items with key `k` appear in the same
 order as in `s` (`WithKey`). `SortDesc` has that property, and it is the only
 list that does (`StableSortUnique`).
 */
module Ranking {
  import opened Seqs

  /** Keys never increase from left to right. */
  predicate SortedDesc<T>(s: seq<T>, key: T -> real)
  {
    forall i, j :: 0 <= i < j < |s| ==> key(s[i]) >= key(s[j])
  }

  /** The items of `s` whose key is `k`, in their order in `s`. */
  function WithKey<T(!new)>(s: seq<T>, key: T -> real, k: real): seq<T>
  {
    Filter(s, x => key(x) == k)
  }

  /** `r` is `s` rearranged non-increasingly by key, equal keys kept in input order. */
  ghost predicate IsStableSortDesc<T(!new)>(r: seq<T>, s: seq<T>, key: T -> real)
  {
    && SortedDesc(r, key)
    && forall k :: WithKey(r, key, k) == WithKey(s, key, k)
  }

  /**
   Places `x` in front of the first item whose key is not greater than its
   own, so it lands after every strictly greater key and before equal ones.
   */
  function Insert<T>(x: T, t: seq<T>, key: T -> real): (r: seq<T>)
    ensures multiset(r) == multiset(t) + multiset{x}
    decreases |t|
  {
    if |t| == 0 || key(t[0]) <= key(x) then
      [x] + t
    else
      assert t == [t[0]] + t[1..];
      [t[0]] + Insert(x, t[1..], key)
  }

  /** Putting an item in front of a sorted list whose keys it bounds keeps it sorted. */
  lemma ConsSorted<T>(y: T, t: seq<T>, key: T -> real)
    requires SortedDesc(t, key)
    requires forall j :: 0 <= j < |t| ==> key(t[j]) <= key(y)
    ensures SortedDesc([y] + t, key)
  {
    var r := [y] + t;
    forall i, j | 0 <= i < j < |r| ensures key(r[i]) >= key(r[j]) {
      assert r[j] == t[j - 1];
      if i > 0 {
        assert r[i] == t[i - 1];
      }
    }
  }

  /** Inserting into a sorted list yields a sorted list. */
  lemma {:induction false} InsertKeepsSorted<T>(x: T, t: seq<T>, key: T -> real)
    requires SortedDesc(t, key)
    ensures SortedDesc(Insert(x, t, key), key)
    decreases |t|
  {
    if |t| == 0 || key(t[0]) <= key(x) {
      ConsSorted(x, t, key);
    } else {
      var tail := t[1..];
      var rest := Insert(x, tail, key);
      assert SortedDesc(tail, key) by {
        forall i, j | 0 <= i < j < |tail| ensures key(tail[i]) >= key(tail[j]) {
          assert tail[i] == t[i + 1] && tail[j] == t[j + 1];
        }
      }
      InsertKeepsSorted(x, tail, key);
      forall j | 0 <= j < |rest| ensures key(rest[j]) <= key(t[0]) {
        var y := rest[j];
        assert y in multiset(rest);
        if y != x {
          assert y in multiset(tail);
          var m :| 0 <= m < |tail| && tail[m] == y;
          assert t[m + 1] == y;
        }
      }
      ConsSorted(t[0], rest, key);
    }
  }

  /** Insertion sort, inserting items from the back so earlier items end up first among equals. */
  function SortDesc<T>(s: seq<T>, key: T -> real): (r: seq<T>)
    ensures multiset(r) == multiset(s)
    ensures |r| == |s|
    ensures SortedDesc(r, key)
    decreases |s|
  {
    if |s| == 0 then
      []
    else
      assert s == [s[0]] + s[1..];
      var sortedRest := SortDesc(s[1..], key);
      InsertKeepsSorted(s[0], sortedRest, key);
      Insert(s[0], sortedRest, key)
  }

  /** Inserting `x` adds it at the front of its own key class and leaves every other class alone. */
  lemma {:induction false} InsertWithKey<T(!new)>(x: T, t: seq<T>, key: T -> real, k: real)
    requires SortedDesc(t, key)
    ensures WithKey(Insert(x, t, key), key, k) == (if key(x) == k then [x] else []) + WithKey(t, key, k)
    decreases |t|
  {
    var p := (y: T) => key(y) == k;
    if |t| == 0 || key(t[0]) <= key(x) {
      FilterCons(x, t, p);
    } else {
      InsertWithKey(x, t[1..], key, k);
      FilterCons(t[0], Insert(x, t[1..], key), p);
      FilterCons(t[0], t[1..], p);
      assert t == [t[0]] + t[1..];
    }
  }

  /** Sorting keeps the items of each key class in their input order. */
  lemma {:induction false} SortIsStable<T(!new)>(s: seq<T>, key: T -> real, k: real)
    ensures WithKey(SortDesc(s, key), key, k) == WithKey(s, key, k)
    decreases |s|
  {
    if |s| > 0 {
      SortIsStable(s[1..], key, k);
      InsertWithKey(s[0], SortDesc(s[1..], key), key, k);
      FilterCons(s[0], s[1..], (y: T) => key(y) == k);
      assert s == [s[0]] + s[1..];
    }
  }

  /** `SortDesc` meets the definition of a stable descending sort. */
  lemma SortDescIsStableSort<T(!new)>(s: seq<T>, key: T -> real)
    ensures IsStableSortDesc(SortDesc(s, key), s, key)
  {
    forall k ensures WithKey(SortDesc(s, key), key, k) == WithKey(s, key, k) {
      SortIsStable(s, key, k);
    }
  }

  /** The first item of a non-empty list is the first item of its own key class. */
  lemma HeadOfClass<T(!new)>(a: seq<T>, key: T -> real)
    requires |a| > 0
    ensures WithKey(a, key, key(a[0])) == [a[0]] + WithKey(a[1..], key, key(a[0]))
  {
    assert a == [a[0]] + a[1..];
    FilterCons(a[0], a[1..], (y: T) => key(y) == key(a[0]));
  }

  /** Every item of a list belongs to its own key class. */
  lemma InOwnClass<T(!new)>(a: seq<T>, key: T -> real, i: int)
    requires 0 <= i < |a|
    ensures a[i] in WithKey(a, key, key(a[i]))
  {
    assert a[i] in a;
  }

  /** Two sorted lists with the same key classes start with the same item. */
  lemma HeadsAgree<T(!new)>(a: seq<T>, b: seq<T>, key: T -> real)
    requires |a| > 0 && |b| > 0
    requires SortedDesc(a, key) && SortedDesc(b, key)
    requires WithKey(a, key, key(a[0])) == WithKey(b, key, key(a[0]))
    requires WithKey(a, key, key(b[0])) == WithKey(b, key, key(b[0]))
    ensures a[0] == b[0]
  {
    var ka, kb := key(a[0]), key(b[0]);
    InOwnClass(a, key, 0);
    var i :| 0 <= i < |b| && b[i] == a[0];
    InOwnClass(b, key, 0);
    var j :| 0 <= j < |a| && a[j] == b[0];
    assert ka == kb;
    HeadOfClass(a, key);
    HeadOfClass(b, key);
    assert WithKey(a, key, ka)[0] == a[0];
    assert WithKey(b, key, kb)[0] == b[0];
  }

  /** Removing a common head keeps the key classes equal. */
  lemma TailClassesAgree<T(!new)>(a: seq<T>, b: seq<T>, key: T -> real, k: real)
    requires |a| > 0 && |b| > 0 && a[0] == b[0]
    requires WithKey(a, key, k) == WithKey(b, key, k)
    ensures WithKey(a[1..], key, k) == WithKey(b[1..], key, k)
  {
    var p := (y: T) => key(y) == k;
    assert a == [a[0]] + a[1..];
    assert b == [b[0]] + b[1..];
    FilterCons(a[0], a[1..], p);
    FilterCons(b[0], b[1..], p);
    var wa, wb := WithKey(a[1..], key, k), WithKey(b[1..], key, k);
    if key(a[0]) == k {
      assert wa == ([a[0]] + wa)[1..];
      assert wb == ([b[0]] + wb)[1..];
    }
  }

  lemma SortedTail<T>(a: seq<T>, key: T -> real)
    requires |a| > 0 && SortedDesc(a, key)
    ensures SortedDesc(a[1..], key)
  {
    forall i, j | 0 <= i < j < |a[1..]| ensures key(a[1..][i]) >= key(a[1..][j]) {
      assert a[1..][i] == a[i + 1] && a[1..][j] == a[j + 1];
    }
  }

  /**
   Two lists that are both sorted non-increasingly and agree on every key
   class are the same list.
   */
  lemma {:induction false} SortedClassesDetermineList<T(!new)>(a: seq<T>, b: seq<T>, key: T -> real)
    requires SortedDesc(a, key) && SortedDesc(b, key)
    requires forall k :: WithKey(a, key, k) == WithKey(b, key, k)
    ensures a == b
    decreases |a|
  {
    if |a| == 0 || |b| == 0 {
      if |a| > 0 {
        InOwnClass(a, key, 0);
      } else if |b| > 0 {
        InOwnClass(b, key, 0);
      }
    } else {
      HeadsAgree(a, b, key);
      forall k ensures WithKey(a[1..], key, k) == WithKey(b[1..], key, k) {
        TailClassesAgree(a, b, key, k);
      }
      SortedTail(a, key);
      SortedTail(b, key);
      SortedClassesDetermineList(a[1..], b[1..], key);
      assert a == [a[0]] + a[1..];
      assert b == [b[0]] + b[1..];
    }
  }

  /** A stable descending sort of `s` can only be `SortDesc(s, key)`. */
  lemma StableSortUnique<T(!new)>(r: seq<T>, s: seq<T>, key: T -> real)
    requires IsStableSortDesc(r, s, key)
    ensures r == SortDesc(s, key)
  {
    SortDescIsStableSort(s, key);
    SortedClassesDetermineList(r, SortDesc(s, key), key);
  }
}

/**
 Sequence helpers shared by the recommendation pipeline: order-preserving
 filtering (a list comprehension with an `if` clause), sub-sequences,
 duplicate-freedom and the cardinality facts that relate a list to the set
 of its elements.
 */
module Seqs {

  /** The elements of `s` that satisfy `p`, in their original order. */
  function Filter<T(!new)>(s: seq<T>, p: T -> bool): (r: seq<T>)
    ensures |r| <= |s|
    ensures forall x :: x in r <==> x in s && p(x)
    decreases |s|
  {
    if |s| == 0 then []
    else if p(s[0]) then [s[0]] + Filter(s[1..], p)
    else Filter(s[1..], p)
  }

  /** Filtering a list that starts with `a` decides `a` first and then filters the rest. */
  lemma FilterCons<T(!new)>(a: T, s: seq<T>, p: T -> bool)
    ensures Filter([a] + s, p) == (if p(a) then [a] else []) + Filter(s, p)
  {
    assert ([a] + s)[0] == a;
    assert ([a] + s)[1..] == s;
  }

  /**
   Filtering keeps every occurrence of an element that satisfies `p` and
   drops every occurrence of one that does not.
   */
  lemma {:induction false} FilterCounts<T(!new)>(s: seq<T>, p: T -> bool)
    ensures forall x :: multiset(Filter(s, p))[x] == if p(x) then multiset(s)[x] else 0
    decreases |s|
  {
    if |s| > 0 {
      FilterCounts(s[1..], p);
      assert s == [s[0]] + s[1..];
    }
  }

  /** `a` is obtained from `b` by deleting some elements, keeping the order of the rest. */
  predicate IsSubsequence<T(==)>(a: seq<T>, b: seq<T>)
    decreases |b|
  {
    if |a| == 0 then true
    else if |b| == 0 then false
    else (a[0] == b[0] && IsSubsequence(a[1..], b[1..])) || IsSubsequence(a, b[1..])
  }

  /** No element occurs twice. */
  predicate Distinct<T(==)>(s: seq<T>)
  {
    forall i, j :: 0 <= i < j < |s| ==> s[i] != s[j]
  }

  /** The set of the elements of a list (Python's `set(list)`). */
  function ToSet<T(!new)>(s: seq<T>): (r: set<T>)
    ensures forall x :: x in r <==> x in s
  {
    set x | x in s
  }

  lemma {:induction false} FilterIsSubsequence<T(!new)>(s: seq<T>, p: T -> bool)
    ensures IsSubsequence(Filter(s, p), s)
    decreases |s|
  {
    if |s| == 0 {
    } else {
      FilterIsSubsequence(s[1..], p);
      var rest := Filter(s[1..], p);
      if p(s[0]) {
        assert Filter(s, p) == [s[0]] + rest;
        assert ([s[0]] + rest)[1..] == rest;
      } else {
        SubsequenceOfTail(rest, s);
      }
    }
  }

  /** A sub-sequence of the tail is a sub-sequence of the whole list. */
  lemma SubsequenceOfTail<T>(a: seq<T>, b: seq<T>)
    requires |b| > 0
    requires IsSubsequence(a, b[1..])
    ensures IsSubsequence(a, b)
  {
  }

  lemma {:induction false} SubsequenceMembers<T>(a: seq<T>, b: seq<T>)
    requires IsSubsequence(a, b)
    ensures forall x :: x in a ==> x in b
    decreases |b|
  {
    if |a| == 0 {
    } else if a[0] == b[0] && IsSubsequence(a[1..], b[1..]) {
      SubsequenceMembers(a[1..], b[1..]);
      forall x | x in a ensures x in b {
        if x != a[0] {
          assert x in a[1..];
        }
      }
    } else {
      SubsequenceMembers(a, b[1..]);
    }
  }

  lemma {:induction false} SubsequenceDistinct<T>(a: seq<T>, b: seq<T>)
    requires IsSubsequence(a, b)
    requires Distinct(b)
    ensures Distinct(a)
    decreases |b|
  {
    if |a| == 0 {
    } else if a[0] == b[0] && IsSubsequence(a[1..], b[1..]) {
      SubsequenceDistinct(a[1..], b[1..]);
      SubsequenceMembers(a[1..], b[1..]);
      forall i, j | 0 <= i < j < |a| ensures a[i] != a[j] {
        if i == 0 {
          assert a[j] in a[1..];
          assert a[j] in b[1..];
        } else {
          assert a[i] == a[1..][i - 1] && a[j] == a[1..][j - 1];
        }
      }
    } else {
      SubsequenceDistinct(a, b[1..]);
    }
  }

  /** Filtering keeps a duplicate-free list duplicate-free. */
  lemma FilterDistinct<T(!new)>(s: seq<T>, p: T -> bool)
    ensures Distinct(s) ==> Distinct(Filter(s, p))
  {
    if Distinct(s) {
      FilterIsSubsequence(s, p);
      SubsequenceDistinct(Filter(s, p), s);
    }
  }

  /**
   Filtering is the only way to pick, out of a duplicate-free list, exactly
   the elements satisfying `p` while keeping their order: any sub-sequence
   with that membership IS the filtered list.
   */
  lemma {:induction false} FilterUnique<T(!new)>(s: seq<T>, p: T -> bool, r: seq<T>)
    requires Distinct(s)
    requires IsSubsequence(r, s)
    requires forall x :: x in r <==> x in s && p(x)
    ensures r == Filter(s, p)
    decreases |s|
  {
    if |s| == 0 {
    } else {
      var t := s[1..];
      assert Distinct(t) by {
        forall i, j | 0 <= i < j < |t| ensures t[i] != t[j] {
          assert t[i] == s[i + 1] && t[j] == s[j + 1];
        }
      }
      assert s[0] !in t by {
        forall i | 0 <= i < |t| ensures t[i] != s[0] {
          assert t[i] == s[i + 1];
        }
      }
      SubsequenceDistinct(r, s);
      if |r| > 0 && r[0] == s[0] && IsSubsequence(r[1..], t) {
        // the head is kept; the remainder picks from the tail
        assert p(s[0]);
        forall x ensures x in r[1..] <==> x in t && p(x) {
          if x in r[1..] {
            var k :| 0 <= k < |r[1..]| && r[1..][k] == x;
            assert r[k + 1] == x;
            assert x != s[0];
          }
          if x in t && p(x) {
            assert x in r;
            var k :| 0 <= k < |r| && r[k] == x;
            assert k != 0;
            assert r[1..][k - 1] == x;
          }
        }
        FilterUnique(t, p, r[1..]);
        assert r == [r[0]] + r[1..];
      } else {
        // the head is dropped, so `r` picks only from the tail
        assert IsSubsequence(r, t);
        SubsequenceMembers(r, t);
        assert !p(s[0]);
        forall x ensures x in r <==> x in t && p(x) {
          if x in t {
            assert x in s;
          }
        }
        FilterUnique(t, p, r);
      }
    }
  }

  /** A list has at least as many positions as distinct elements. */
  lemma {:induction false} ToSetSize<T(!new)>(s: seq<T>)
    ensures |ToSet(s)| <= |s|
    ensures Distinct(s) ==> |ToSet(s)| == |s|
    decreases |s|
  {
    if |s| == 0 {
      assert ToSet(s) == {};
    } else {
      var t := s[1..];
      ToSetSize(t);
      assert ToSet(s) == ToSet(t) + {s[0]} by {
        forall x ensures x in ToSet(s) <==> x in ToSet(t) + {s[0]} {
          if x in s && x != s[0] {
            var k :| 0 <= k < |s| && s[k] == x;
            assert t[k - 1] == x;
          }
        }
      }
      if Distinct(s) {
        assert Distinct(t) by {
          forall i, j | 0 <= i < j < |t| ensures t[i] != t[j] {
            assert t[i] == s[i + 1] && t[j] == s[j + 1];
          }
        }
        assert s[0] !in t by {
          forall i | 0 <= i < |t| ensures t[i] != s[0] {
            assert t[i] == s[i + 1];
          }
        }
      }
    }
  }

  /** A subset has no more elements than its superset. */
  lemma SubsetSize<T>(a: set<T>, b: set<T>)
    requires a <= b
    ensures |a| <= |b|
  {
    assert b == a + (b - a);
  }

  /**
   A duplicate-free list whose elements all occur in `b` is no longer than
   `b`; if it holds every element of a duplicate-free `b`, it is exactly as long.
   */
  lemma DistinctWithin<T(!new)>(a: seq<T>, b: seq<T>)
    requires Distinct(a)
    requires forall x :: x in a ==> x in b
    ensures |a| <= |b|
    ensures Distinct(b) && (forall x :: x in b ==> x in a) ==> |a| == |b|
  {
    ToSetSize(a);
    ToSetSize(b);
    SubsetSize(ToSet(a), ToSet(b));
    if Distinct(b) && (forall x :: x in b ==> x in a) {
      assert ToSet(a) == ToSet(b);
    }
  }

  /** The position of an element known to occur in the list. */
  function IndexOf<T(==)>(s: seq<T>, x: T): (i: nat)
    requires x in s
    ensures i < |s| && s[i] == x
    decreases |s|
  {
    if s[0] == x then 0 else 1 + IndexOf(s[1..], x)
  }
}

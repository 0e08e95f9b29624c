/**
 * `Array.prototype.sort` with a numeric comparator `(a, b) => key(a) - key(b)`
 * (ascending) or `key(b) - key(a)` (descending), and the database's
 * `order(column, { ascending })`: a stable insertion sort by an integer key.
 */
module Sorting {

  predicate InOrder(a: int, b: int, ascending: bool) {
    if ascending then a <= b else a >= b
  }

  predicate SortedBy<T>(s: seq<T>, key: T -> int, ascending: bool) {
    forall i, j :: 0 <= i < j < |s| ==> InOrder(key(s[i]), key(s[j]), ascending)
  }

  /** `x` placed before the first element that may follow it. */
  function Insert<T>(x: T, s: seq<T>, key: T -> int, ascending: bool): (r: seq<T>)
    requires SortedBy(s, key, ascending)
    ensures SortedBy(r, key, ascending)
    ensures multiset(r) == multiset(s) + multiset{x}
  {
    if s == [] then [x]
    else if InOrder(key(x), key(s[0]), ascending) then
      assert forall j :: 0 < j < |[x] + s| ==> ([x] + s)[j] == s[j - 1];
      [x] + s
    else
      var t := Insert(x, s[1..], key, ascending);
      assert s == [s[0]] + s[1..];
      forall j | 0 <= j < |t| ensures InOrder(key(s[0]), key(t[j]), ascending) {
        assert t[j] in multiset(t);
        if t[j] != x {
          assert t[j] in multiset(s[1..]);
          var k :| 0 <= k < |s[1..]| && s[1..][k] == t[j];
          assert s[k + 1] == t[j];
        }
      }
      assert forall j :: 0 < j < |[s[0]] + t| ==> ([s[0]] + t)[j] == t[j - 1];
      [s[0]] + t
  }

  /** The elements of `s` ordered by `key`, ascending or descending. */
  function SortBy<T>(s: seq<T>, key: T -> int, ascending: bool): (r: seq<T>)
    ensures SortedBy(r, key, ascending)
    ensures multiset(r) == multiset(s)
    ensures |r| == |s|
  {
    if s == [] then []
    else
      assert s == [s[0]] + s[1..];
      Insert(s[0], SortBy(s[1..], key, ascending), key, ascending)
  }

  /** The first `n` elements (a query's `limit(n)`). */
  function Take<T(==)>(s: seq<T>, n: nat): (r: seq<T>)
    ensures |r| == if |s| <= n then |s| else n
    ensures IsPrefixOf(r, s)
  {
    if |s| <= n then s else s[..n]
  }

  predicate IsPrefixOf<T(==)>(p: seq<T>, s: seq<T>) {
    |p| <= |s| && s[..|p|] == p
  }

  /** The elements of `s` that satisfy `p`, in order (`Array.prototype.filter`). */
  function Filter<T>(s: seq<T>, p: T -> bool): (r: seq<T>)
    ensures |r| <= |s|
    ensures forall i :: 0 <= i < |r| ==> p(r[i])
    ensures multiset(r) <= multiset(s)
    ensures forall x :: x in s && p(x) ==> x in r
  {
    if s == [] then []
    else
      assert s == [s[0]] + s[1..];
      if p(s[0]) then [s[0]] + Filter(s[1..], p) else Filter(s[1..], p)
  }

  /** Filtering twice is filtering once by the conjunction. */
  lemma {:induction false} FilterFilter<T>(s: seq<T>, p: T -> bool, q: T -> bool)
    ensures Filter(Filter(s, p), q) == Filter(s, x => p(x) && q(x))
  {
    if s != [] {
      FilterFilter(s[1..], p, q);
    }
  }

  /** A filter that keeps everything changes nothing. */
  lemma {:induction false} FilterAll<T>(s: seq<T>, p: T -> bool)
    requires forall x :: x in s ==> p(x)
    ensures Filter(s, p) == s
  {
    if s != [] {
      assert s == [s[0]] + s[1..];
      FilterAll(s[1..], p);
    }
  }

  /** How many elements satisfy `p`: `s.filter(p).length`. */
  function Count<T>(s: seq<T>, p: T -> bool): nat {
    |Filter(s, p)|
  }

  /** Every element is counted on exactly one side of `p`; `q` is its negation. */
  lemma {:induction false} CountSplit<T>(s: seq<T>, p: T -> bool, q: T -> bool)
    requires forall x :: q(x) == !p(x)
    ensures Count(s, p) + Count(s, q) == |s|
  {
    if s != [] {
      CountSplit(s[1..], p, q);
    }
  }

  /** Filters by predicates that agree on every element of `s` give the same result. */
  lemma {:induction false} FilterEquiv<T>(s: seq<T>, p: T -> bool, q: T -> bool)
    requires forall x :: x in s ==> p(x) == q(x)
    ensures Filter(s, p) == Filter(s, q)
  {
    if s != [] {
      assert s == [s[0]] + s[1..];
      FilterEquiv(s[1..], p, q);
    }
  }

  /** Filtering by `p` then by `q` is filtering by any `r` that is their conjunction. */
  lemma {:induction false} FilterThen<T>(s: seq<T>, p: T -> bool, q: T -> bool, r: T -> bool)
    requires forall x :: r(x) == (p(x) && q(x))
    ensures Filter(Filter(s, p), q) == Filter(s, r)
  {
    if s != [] {
      FilterThen(s[1..], p, q, r);
      if p(s[0]) {
        assert ([s[0]] + Filter(s[1..], p))[1..] == Filter(s[1..], p);
      }
    }
  }

  /** `s` has exactly one position whose element satisfies `p`, and it is `i`. */
  ghost predicate OnlyAt<T>(s: seq<T>, p: T -> bool, i: int) {
    0 <= i < |s| && p(s[i]) && forall j :: 0 <= j < |s| && p(s[j]) ==> j == i
  }

  /** A filter keeps every accepted element as many times as it occurs. */
  lemma {:induction false} FilterCounts<T>(s: seq<T>, p: T -> bool)
    ensures forall x :: x in s && p(x) ==> multiset(Filter(s, p))[x] == multiset(s)[x]
  {
    if s != [] {
      FilterCounts(s[1..], p);
      assert s == [s[0]] + s[1..];
    }
  }

  /** A filter keeps nothing exactly when no element is accepted. */
  lemma FilterEmpty<T>(s: seq<T>, p: T -> bool)
    ensures Filter(s, p) == [] <==> forall j :: 0 <= j < |s| ==> !p(s[j])
  {
    var r := Filter(s, p);
    if r != [] {
      assert r[0] in multiset(s);
      var j :| 0 <= j < |s| && s[j] == r[0];
    }
    if exists j :: 0 <= j < |s| && p(s[j]) {
      var j :| 0 <= j < |s| && p(s[j]);
      assert s[j] in s;
    }
  }

  /** A filter keeps exactly one element exactly when one position is accepted. */
  lemma {:induction false} FilterOne<T>(s: seq<T>, p: T -> bool)
    ensures |Filter(s, p)| == 1 <==> exists i :: OnlyAt(s, p, i)
    decreases |s|
  {
    if s != [] {
      var t := s[1..];
      FilterOne(t, p);
      FilterEmpty(t, p);
      assert forall j :: 0 <= j < |t| ==> t[j] == s[j + 1];
      if |Filter(s, p)| == 1 {
        if p(s[0]) {
          assert OnlyAt(s, p, 0) by {
            forall j | 0 < j < |s| ensures !p(s[j]) {
              assert t[j - 1] == s[j];
            }
          }
        } else {
          var i :| OnlyAt(t, p, i);
          assert OnlyAt(s, p, i + 1) by {
            forall j | 0 <= j < |s| && p(s[j]) ensures j == i + 1 {
              assert j > 0 && t[j - 1] == s[j];
            }
          }
        }
      }
      if exists i :: OnlyAt(s, p, i) {
        var i :| OnlyAt(s, p, i);
        if p(s[0]) {
          forall j | 0 <= j < |t| ensures !p(t[j]) {
            assert t[j] == s[j + 1];
          }
        } else {
          assert OnlyAt(t, p, i - 1) by {
            forall j | 0 <= j < |t| && p(t[j]) ensures j == i - 1 {
              assert t[j] == s[j + 1];
            }
          }
        }
      }
    }
  }
}

/**
 * `Array.prototype.filter` and the stable `Array.prototype.sort` with a comparator.
 * A comparator `cmp` is represented by the relation `le(a, b) == (cmp(a, b) <= 0)`;
 * the stable sort is given by insertion, which puts each element after everything
 * that came before it in the input and compares equal to it.
 */
module Sorting {

  ghost predicate TotalPreorder<T(!new)>(le: (T, T) -> bool) {
    && (forall x, y :: le(x, y) || le(y, x))
    && (forall x, y, z :: le(x, y) && le(y, z) ==> le(x, z))
  }

  ghost predicate Sorted<T>(s: seq<T>, le: (T, T) -> bool) {
    forall i, j :: 0 <= i < j < |s| ==> le(s[i], s[j])
  }

  /** Places `x` in front of the first element it is `le` to. */
  function Insert<T>(x: T, s: seq<T>, le: (T, T) -> bool): seq<T> {
    if s == [] || le(x, s[0]) then [x] + s else [s[0]] + Insert(x, s[1..], le)
  }

  /** The result of a stable sort of `s` under `le`. */
  function SortBy<T>(s: seq<T>, le: (T, T) -> bool): seq<T> {
    if s == [] then [] else Insert(s[0], SortBy(s[1..], le), le)
  }

  /** The elements of `s` that satisfy `p`, in their order in `s`. */
  function Filter<T>(s: seq<T>, p: T -> bool): (r: seq<T>)
    ensures |r| <= |s|
  {
    if s == [] then [] else (if p(s[0]) then [s[0]] else []) + Filter(s[1..], p)
  }

  /** An element is kept by the filter exactly when it is in `s` and satisfies `p`. */
  lemma {:induction false} FilterMembers<T>(s: seq<T>, p: T -> bool, x: T)
    ensures x in Filter(s, p) <==> x in s && p(x)
  {
    if s != [] {
      FilterMembers(s[1..], p, x);
      assert s == [s[0]] + s[1..];
    }
  }

  lemma {:induction false} InsertPermutes<T>(x: T, s: seq<T>, le: (T, T) -> bool)
    ensures multiset(Insert(x, s, le)) == multiset(s) + multiset{x}
  {
    if s != [] && !le(x, s[0]) {
      InsertPermutes(x, s[1..], le);
      assert s == [s[0]] + s[1..];
    }
  }

  /** Sorting only reorders: the result is a permutation of the input. */
  lemma {:induction false} SortByPermutes<T>(s: seq<T>, le: (T, T) -> bool)
    ensures multiset(SortBy(s, le)) == multiset(s)
  {
    if s != [] {
      SortByPermutes(s[1..], le);
      InsertPermutes(s[0], SortBy(s[1..], le), le);
      assert s == [s[0]] + s[1..];
    }
  }

  lemma {:induction false} InsertSorted<T(!new)>(x: T, s: seq<T>, le: (T, T) -> bool)
    requires TotalPreorder(le) && Sorted(s, le)
    ensures Sorted(Insert(x, s, le), le)
  {
    if s != [] && !le(x, s[0]) {
      var t := Insert(x, s[1..], le);
      InsertSorted(x, s[1..], le);
      InsertPermutes(x, s[1..], le);
      forall y | y in t ensures le(s[0], y) {
        assert y in multiset(t);
        if y != x {
          assert y in multiset(s[1..]);
          var j :| 0 <= j < |s[1..]| && s[1..][j] == y;
          assert s[j + 1] == y;
        }
      }
      var r := [s[0]] + t;
      forall i, j | 0 <= i < j < |r| ensures le(r[i], r[j]) {
        if i == 0 {
          assert r[j] == t[j - 1] && r[j] in t;
        } else {
          assert r[i] == t[i - 1] && r[j] == t[j - 1];
        }
      }
    }
  }

  /** The result of sorting is in `le` order. */
  lemma {:induction false} SortBySorted<T(!new)>(s: seq<T>, le: (T, T) -> bool)
    requires TotalPreorder(le)
    ensures Sorted(SortBy(s, le), le)
  {
    if s != [] {
      SortBySorted(s[1..], le);
      InsertSorted(s[0], SortBy(s[1..], le), le);
    }
  }

  /** Sorting a list that is already in order leaves it as it is. */
  lemma {:induction false} SortBySortedIsIdentity<T>(s: seq<T>, le: (T, T) -> bool)
    requires Sorted(s, le)
    ensures SortBy(s, le) == s
  {
    if s != [] {
      assert Sorted(s[1..], le) by {
        forall i, j | 0 <= i < j < |s[1..]| ensures le(s[1..][i], s[1..][j]) {
          assert s[1..][i] == s[i + 1] && s[1..][j] == s[j + 1];
        }
      }
      SortBySortedIsIdentity(s[1..], le);
      assert s == [s[0]] + s[1..];
    }
  }

  /** `q` picks elements that `le` relates both ways, such as those equivalent to one element. */
  ghost predicate Tied<T(!new)>(q: T -> bool, le: (T, T) -> bool) {
    forall a, b :: q(a) && q(b) ==> le(a, b)
  }

  lemma FilterCons<T>(x: T, s: seq<T>, q: T -> bool)
    ensures Filter([x] + s, q) == (if q(x) then [x] else []) + Filter(s, q)
  {
    assert ([x] + s)[1..] == s;
  }

  lemma {:induction false} InsertStable<T(!new)>(y: T, s: seq<T>, le: (T, T) -> bool, q: T -> bool)
    requires Tied(q, le)
    ensures Filter(Insert(y, s, le), q) == (if q(y) then [y] else []) + Filter(s, q)
  {
    if s == [] || le(y, s[0]) {
      FilterCons(y, s, q);
    } else {
      var rest := Insert(y, s[1..], le);
      InsertStable(y, s[1..], le, q);
      FilterCons(s[0], rest, q);
      FilterCons(s[0], s[1..], q);
      assert [s[0]] + s[1..] == s;
      assert !(q(s[0]) && q(y));
    }
  }

  /**
   * The sort is stable: elements that `le` cannot tell apart keep their relative
   * order. Together with `SortByPermutes` and `SortBySorted` this determines the result.
   */
  lemma {:induction false} SortByStable<T(!new)>(s: seq<T>, le: (T, T) -> bool, q: T -> bool)
    requires Tied(q, le)
    ensures Filter(SortBy(s, le), q) == Filter(s, q)
  {
    if s != [] {
      SortByStable(s[1..], le, q);
      InsertStable(s[0], SortBy(s[1..], le), le, q);
    }
  }

  /** Filtering keeps an ordered list ordered. */
  lemma {:induction false} FilterSorted<T>(s: seq<T>, p: T -> bool, le: (T, T) -> bool)
    requires Sorted(s, le)
    ensures Sorted(Filter(s, p), le)
  {
    if s != [] {
      var t := Filter(s[1..], p);
      assert Sorted(s[1..], le) by {
        forall i, j | 0 <= i < j < |s[1..]| ensures le(s[1..][i], s[1..][j]) {
          assert s[1..][i] == s[i + 1] && s[1..][j] == s[j + 1];
        }
      }
      FilterSorted(s[1..], p, le);
      if p(s[0]) {
        var r := [s[0]] + t;
        forall i, j | 0 <= i < j < |r| ensures le(r[i], r[j]) {
          if i == 0 {
            assert r[j] == t[j - 1] && r[j] in t;
            FilterMembers(s[1..], p, r[j]);
            var k :| 0 <= k < |s[1..]| && s[1..][k] == r[j];
            assert s[k + 1] == r[j];
          } else {
            assert r[i] == t[i - 1] && r[j] == t[j - 1];
          }
        }
      }
    }
  }

  /** Filtering by `p` and by its complement `q` splits `s`: every element lands on exactly one side. */
  lemma {:induction false} FilterPartition<T>(s: seq<T>, p: T -> bool, q: T -> bool)
    requires forall x :: q(x) == !p(x)
    ensures multiset(Filter(s, p)) + multiset(Filter(s, q)) == multiset(s)
  {
    if s != [] {
      var x, rest := s[0], s[1..];
      FilterPartition(rest, p, q);
      FilterCons(x, rest, p);
      FilterCons(x, rest, q);
      assert s == [x] + rest;
      assert q(x) == !p(x);
      calc {
        multiset(Filter(s, p)) + multiset(Filter(s, q));
        multiset([x]) + multiset(Filter(rest, p)) + multiset(Filter(rest, q));
        multiset([x]) + multiset(rest);
        multiset(s);
      }
    }
  }

  /** A filter that every element passes keeps the whole list. */
  lemma {:induction false} FilterAll<T>(s: seq<T>, p: T -> bool)
    requires forall x :: x in s ==> p(x)
    ensures Filter(s, p) == s
  {
    if s != [] {
      FilterAll(s[1..], p);
      assert s == [s[0]] + s[1..];
    }
  }
}

/**
 * Occurrence counts over flattened rasters, and the two ways the pipeline
 * enumerates the distinct values of an array: `collections.Counter`
 * (first-occurrence order) and `np.unique` (ascending order).
 */
module Counting {

  /** Number of positions of `s` holding `v`. */
  function Count<T(==)>(s: seq<T>, v: T): (n: nat)
    ensures n <= |s|
  {
    if |s| == 0 then 0
    else Count(s[..|s| - 1], v) + (if s[|s| - 1] == v then 1 else 0)
  }

  /** A value is counted at least once exactly when it occurs. */
  lemma {:induction false} CountPositive<T>(s: seq<T>, v: T)
    ensures Count(s, v) > 0 <==> v in s
  {
    if |s| > 0 {
      var init := s[..|s| - 1];
      CountPositive(init, v);
      assert s == init + [s[|s| - 1]];
    }
  }

  /** Appending a sample raises its own count by one and no other. */
  lemma CountSnoc<T>(s: seq<T>, x: T, v: T)
    ensures Count(s + [x], v) == Count(s, v) + (if x == v then 1 else 0)
  {
    assert (s + [x])[..|s|] == s;
  }

  /** Number of positions of `s` whose value is listed in `u`. */
  function CountIn<T(==)>(s: seq<T>, u: seq<T>): (n: nat)
    ensures n <= |s|
    ensures (forall x :: x in s ==> x in u) ==> n == |s|
  {
    if |s| == 0 then 0
    else CountIn(s[..|s| - 1], u) + (if s[|s| - 1] in u then 1 else 0)
  }

  /** Sum of `Count(s, u[i])` over the entries of `u`. */
  function SumCounts<T(==)>(u: seq<T>, s: seq<T>): nat
  {
    if |u| == 0 then 0 else Count(s, u[0]) + SumCounts(u[1..], s)
  }

  /** The total of a column of counts. */
  function Sum(xs: seq<nat>): nat
  {
    if |xs| == 0 then 0 else xs[0] + Sum(xs[1..])
  }

  /** One field of every row, as a column of counts. */
  function Column<R>(rows: seq<R>, field: R -> nat): (col: seq<nat>)
    ensures |col| == |rows|
    ensures forall i :: 0 <= i < |rows| ==> col[i] == field(rows[i])
  {
    seq(|rows|, i requires 0 <= i < |rows| => field(rows[i]))
  }

  /** A column that gives, for each value of `u`, its number of occurrences
      in `s` adds up to `SumCounts(u, s)`. */
  lemma {:induction false} SumIsSumCounts<T>(xs: seq<nat>, u: seq<T>, s: seq<T>)
    requires |xs| == |u|
    requires forall i :: 0 <= i < |u| ==> xs[i] == Count(s, u[i])
    ensures Sum(xs) == SumCounts(u, s)
  {
    if |xs| > 0 {
      SumIsSumCounts(xs[1..], u[1..], s);
    }
  }

  predicate NoDup<T(==)>(u: seq<T>) {
    forall i, j :: 0 <= i < j < |u| ==> u[i] != u[j]
  }

  predicate StrictlyIncreasing(u: seq<int>) {
    forall i, j :: 0 <= i < j < |u| ==> u[i] < u[j]
  }

  /** The values of `s` other than `v`, in order (`a[a != v]`). */
  function Without<T(==,!new)>(s: seq<T>, v: T): (r: seq<T>)
    ensures |r| + Count(s, v) == |s|
    ensures forall x :: x in r <==> x in s && x != v
    ensures forall x :: x != v ==> Count(r, x) == Count(s, x)
  {
    if |s| == 0 then []
    else
      var init := Without(s[..|s| - 1], v);
      if s[|s| - 1] == v then init
      else
        assert (init + [s[|s| - 1]])[..|init|] == init;
        init + [s[|s| - 1]]
  }

  /** Adding one sample to `s` raises the per-value counts over a
      duplicate-free `u` by one in total exactly when the sample is listed. */
  lemma {:induction false} SumCountsSnoc<T>(u: seq<T>, s: seq<T>, x: T)
    requires NoDup(u)
    ensures SumCounts(u, s + [x]) == SumCounts(u, s) + (if x in u then 1 else 0)
  {
    assert (s + [x])[..|s|] == s;
    if |u| > 0 {
      assert NoDup(u[1..]) by {
        forall i, j | 0 <= i < j < |u[1..]| ensures u[1..][i] != u[1..][j] {
          assert u[1..][i] == u[i + 1] && u[1..][j] == u[j + 1];
        }
      }
      SumCountsSnoc(u[1..], s, x);
      assert x in u <==> x == u[0] || x in u[1..] by {
        assert u == [u[0]] + u[1..];
      }
      if x == u[0] {
        assert x !in u[1..] by {
          forall k | 0 <= k < |u[1..]| ensures u[1..][k] != x {
            assert u[1..][k] == u[k + 1];
          }
        }
      }
    }
  }

  /** Count conservation: the per-value counts over a duplicate-free list sum
      to the number of samples whose value is listed. */
  lemma {:induction false} SumCountsIsCountIn<T>(u: seq<T>, s: seq<T>)
    requires NoDup(u)
    ensures SumCounts(u, s) == CountIn(s, u)
  {
    if |s| == 0 {
      SumCountsEmpty(u, s);
    } else {
      var init := s[..|s| - 1];
      assert s == init + [s[|s| - 1]];
      SumCountsIsCountIn(u, init);
      SumCountsSnoc(u, init, s[|s| - 1]);
    }
  }

  lemma {:induction false} SumCountsEmpty<T>(u: seq<T>, s: seq<T>)
    requires |s| == 0
    ensures SumCounts(u, s) == 0
  {
    if |u| > 0 {
      SumCountsEmpty(u[1..], s);
    }
  }

  /** When every sample's value is listed once, the counts sum to |s|. */
  lemma CountsCoverAll<T>(u: seq<T>, s: seq<T>)
    requires NoDup(u)
    requires forall x :: x in s ==> x in u
    ensures SumCounts(u, s) == |s|
  {
    SumCountsIsCountIn(u, s);
  }

  /** The distinct values of `s` in order of first occurrence: the key order
      of `collections.Counter(s)`. */
  function Distinct<T(==,!new)>(s: seq<T>): (u: seq<T>)
    ensures NoDup(u)
    ensures forall x :: x in u <==> x in s
  {
    if |s| == 0 then []
    else
      var d := Distinct(s[..|s| - 1]);
      var x := s[|s| - 1];
      assert forall y :: y in s <==> y in s[..|s| - 1] || y == x by {
        assert s == s[..|s| - 1] + [x];
      }
      if x in d then d else d + [x]
  }

  /** `x` occurs in `s` at a position where `y` has not yet occurred. */
  ghost predicate OccursBefore<T>(s: seq<T>, x: T, y: T) {
    exists p :: 0 <= p < |s| && s[p] == x && y !in s[..p + 1]
  }

  /** Counter keys come out in the order their values first occur. */
  lemma {:induction false} DistinctFirstOccurrenceOrder<T(!new)>(s: seq<T>)
    ensures forall i, j :: 0 <= i < j < |Distinct(s)| ==> OccursBefore(s, Distinct(s)[i], Distinct(s)[j])
  {
    if |s| > 0 {
      var init := s[..|s| - 1];
      var x := s[|s| - 1];
      var d := Distinct(init);
      DistinctFirstOccurrenceOrder(init);
      forall i, j | 0 <= i < j < |d| ensures OccursBefore(s, d[i], d[j]) {
        var p :| 0 <= p < |init| && init[p] == d[i] && d[j] !in init[..p + 1];
        assert s[..p + 1] == init[..p + 1];
      }
      if x !in d {
        var u := d + [x];
        forall i | 0 <= i < |d| ensures OccursBefore(s, d[i], x) {
          assert d[i] in init;
          var p :| 0 <= p < |init| && init[p] == d[i];
          assert x !in init;
          var seen := s[..p + 1];
          assert seen == init[..p + 1];
          assert x !in seen by {
            forall k | 0 <= k < |seen| ensures seen[k] != x {
              assert seen[k] == init[k];
            }
          }
        }
        assert forall i, j :: 0 <= i < j < |u| ==> OccursBefore(s, u[i], u[j]) by {
          forall i, j | 0 <= i < j < |u| ensures OccursBefore(s, u[i], u[j]) {
            if j < |d| {
              assert u[i] == d[i] && u[j] == d[j];
            } else {
              assert u[i] == d[i] && u[j] == x;
            }
          }
        }
      }
    }
  }

  /** Dropping every `v` keeps the relative order of the other values: one
      that comes first in `Without(s, v)` already came first in `s`. */
  lemma {:induction false} OccursBeforeWithout<T(!new)>(s: seq<T>, v: T, x: T, y: T)
    requires x != v && y != v
    requires OccursBefore(Without(s, v), x, y)
    ensures OccursBefore(s, x, y)
  {
    var n := |s|;
    var init := s[..n - 1];
    var last := s[n - 1];
    var w := Without(s, v);
    var wi := Without(init, v);
    var p :| 0 <= p < |w| && w[p] == x && y !in w[..p + 1];
    if last == v || p < |wi| {
      assert w[..p + 1] == wi[..p + 1];
      OccursBeforeWithout(init, v, x, y);
      var q :| 0 <= q < |init| && init[q] == x && y !in init[..q + 1];
      assert s[..q + 1] == init[..q + 1];
    } else {
      assert w == wi + [last] && p == |wi|;
      assert w[..p + 1] == w;
      assert y !in init;
      assert s[..n] == s;
    }
  }

  /** `x` placed into the ascending, duplicate-free `u`. */
  function Insert(u: seq<int>, x: int): (r: seq<int>)
    requires StrictlyIncreasing(u)
    ensures StrictlyIncreasing(r)
    ensures forall y :: y in r <==> y in u || y == x
  {
    if |u| == 0 then [x]
    else if x < u[0] then [x] + u
    else if x == u[0] then u
    else
      var rest := Insert(u[1..], x);
      var r := [u[0]] + rest;
      assert forall i :: 1 <= i < |r| ==> r[i] == rest[i - 1];
      assert forall i :: 0 <= i < |rest| ==> u[0] < rest[i] by {
        forall i | 0 <= i < |rest| ensures u[0] < rest[i] {
          assert rest[i] in rest;
          if rest[i] != x {
            var k :| 0 <= k < |u[1..]| && u[1..][k] == rest[i];
            assert u[1..][k] == u[k + 1];
          }
        }
      }
      r
  }

  /** The sorted distinct values of `s`: the `unique` array of `np.unique(s)`. */
  function SortedDistinct(s: seq<int>): (u: seq<int>)
    ensures StrictlyIncreasing(u)
    ensures forall x :: x in u <==> x in s
  {
    if |s| == 0 then []
    else
      assert forall y :: y in s <==> y in s[..|s| - 1] || y == s[|s| - 1] by {
        assert s == s[..|s| - 1] + [s[|s| - 1]];
      }
      Insert(SortedDistinct(s[..|s| - 1]), s[|s| - 1])
  }

  /** An ascending sequence lists each value once. */
  lemma IncreasingHasNoDup(u: seq<int>)
    requires StrictlyIncreasing(u)
    ensures NoDup(u)
  {
  }
}

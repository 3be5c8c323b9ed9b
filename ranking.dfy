/**
 * Ordering stations by distance. Both the place search and the nearby list
 * sort with Kotlin's `sortBy`/`sortedBy`, which are stable: entries at the
 * same distance keep the order they had. `SortByDistance` is that sort,
 * written as an insertion sort, and the lemmas below give its contract:
 * ascending, a permutation, and stable.
 */
module Ranking {
  /** An entry paired with its distance in metres. */
  datatype Ranked<T> = Ranked(item: T, distance: nat)

  predicate SortedByDistance<T>(s: seq<Ranked<T>>) {
    forall i, j :: 0 <= i < j < |s| ==> s[i].distance <= s[j].distance
  }

  /** `x` put in front of the first entry that is not closer than it. */
  function InsertByDistance<T>(x: Ranked<T>, s: seq<Ranked<T>>): (r: seq<Ranked<T>>)
    ensures |r| == |s| + 1
  {
    if s == [] || x.distance <= s[0].distance then [x] + s
    else [s[0]] + InsertByDistance(x, s[1..])
  }

  /** `sortBy { distance }`. */
  function SortByDistance<T>(s: seq<Ranked<T>>): (r: seq<Ranked<T>>)
    ensures |r| == |s|
  {
    if s == [] then [] else InsertByDistance(s[0], SortByDistance(s[1..]))
  }

  /** The entries at distance `d`, in their order. */
  function AtDistance<T>(s: seq<Ranked<T>>, d: nat): seq<Ranked<T>> {
    if s == [] then []
    else (if s[0].distance == d then [s[0]] else []) + AtDistance(s[1..], d)
  }

  /** The first `n` entries, or all when there are fewer (`take(n)`). */
  function Take<T>(s: seq<T>, n: nat): (r: seq<T>)
    ensures |r| <= n && |r| <= |s| && r == s[..|r|]
    ensures |r| == if |s| < n then |s| else n
  {
    if |s| <= n then s else s[..n]
  }

  lemma {:induction false} InsertSorted<T>(x: Ranked<T>, s: seq<Ranked<T>>)
    requires SortedByDistance(s)
    ensures SortedByDistance(InsertByDistance(x, s))
    ensures InsertByDistance(x, s)[0] == x || InsertByDistance(x, s)[0] == s[0]
    decreases |s|
  {
    if s != [] && x.distance > s[0].distance {
      var t := InsertByDistance(x, s[1..]);
      InsertSorted(x, s[1..]);
      var r := [s[0]] + t;
      forall i, j | 0 <= i < j < |r|
        ensures r[i].distance <= r[j].distance
      {
        if i == 0 {
          if s[1..] != [] && t[j - 1] != x {
            assert t[j - 1] in s[1..] by {
              InsertMultiset(x, s[1..]);
              assert t[j - 1] in multiset(t);
            }
          }
        }
      }
    }
  }

  lemma {:induction false} InsertMultiset<T>(x: Ranked<T>, s: seq<Ranked<T>>)
    ensures multiset(InsertByDistance(x, s)) == multiset(s) + multiset{x}
    decreases |s|
  {
    if s != [] && x.distance > s[0].distance {
      InsertMultiset(x, s[1..]);
      assert s == [s[0]] + s[1..];
    }
  }

  /** The sort puts the entries in ascending order of distance. */
  lemma {:induction false} SortSorted<T>(s: seq<Ranked<T>>)
    ensures SortedByDistance(SortByDistance(s))
    decreases |s|
  {
    if s != [] {
      SortSorted(s[1..]);
      InsertSorted(s[0], SortByDistance(s[1..]));
    }
  }

  /** The sort keeps every entry, as often as it occurs. */
  lemma {:induction false} SortMultiset<T>(s: seq<Ranked<T>>)
    ensures multiset(SortByDistance(s)) == multiset(s)
    decreases |s|
  {
    if s != [] {
      SortMultiset(s[1..]);
      InsertMultiset(s[0], SortByDistance(s[1..]));
      assert s == [s[0]] + s[1..];
    }
  }

  lemma {:induction false} InsertAtDistance<T>(x: Ranked<T>, s: seq<Ranked<T>>, d: nat)
    ensures AtDistance(InsertByDistance(x, s), d) ==
            (if x.distance == d then [x] else []) + AtDistance(s, d)
    decreases |s|
  {
    var mine: seq<Ranked<T>> := if x.distance == d then [x] else [];
    if s == [] || x.distance <= s[0].distance {
      assert ([x] + s)[1..] == s;
    } else {
      var t := InsertByDistance(x, s[1..]);
      var first: seq<Ranked<T>> := if s[0].distance == d then [s[0]] else [];
      InsertAtDistance(x, s[1..], d);
      assert ([s[0]] + t)[1..] == t;
      assert AtDistance([s[0]] + t, d) == first + AtDistance(t, d);
      assert AtDistance(s, d) == first + AtDistance(s[1..], d);
      // `x` is farther than `s[0]`, so at most one of the two is at distance `d`.
      assert first == [] || mine == [];
      assert first + (mine + AtDistance(s[1..], d)) == mine + (first + AtDistance(s[1..], d));
    }
  }

  /** The sort is stable: the entries at any one distance keep their order. */
  lemma {:induction false} SortStable<T>(s: seq<Ranked<T>>, d: nat)
    ensures AtDistance(SortByDistance(s), d) == AtDistance(s, d)
    decreases |s|
  {
    if s != [] {
      SortStable(s[1..], d);
      InsertAtDistance(s[0], SortByDistance(s[1..]), d);
    }
  }

  /**
   * The first `k` entries of the sorted list are sorted, come from `s`, and
   * are no farther than any entry left out.
   */
  lemma NearestFirst<T>(s: seq<Ranked<T>>, k: nat)
    ensures var r := SortByDistance(s);
            var top := Take(r, k);
            SortedByDistance(top) && multiset(top) <= multiset(s) &&
            (forall x, y :: x in top && y in r[|top|..] ==> x.distance <= y.distance)
  {
    var r := SortByDistance(s);
    SortSorted(s);
    SortMultiset(s);
    var top := Take(r, k);
    assert r == top + r[|top|..];
    assert multiset(r) == multiset(top) + multiset(r[|top|..]);
    forall x, y | x in top && y in r[|top|..]
      ensures x.distance <= y.distance
    {
      var i :| 0 <= i < |top| && top[i] == x;
      var j :| 0 <= j < |r| - |top| && r[|top|..][j] == y;
      assert r[i] == x && r[|top| + j] == y;
    }
  }
}

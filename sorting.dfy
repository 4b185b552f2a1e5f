/** Ordering result rows as an ORDER BY clause does, by a total preorder `before`
    ("may come before"). Ties keep their input order. */
module Sorting {

  /** `before` is total and transitive, as a lexicographic ORDER BY key is. */
  ghost predicate IsTotalPreorder<T(!new)>(before: (T, T) -> bool)
  {
    && (forall a, b :: before(a, b) || before(b, a))
    && (forall a, b, c :: before(a, b) && before(b, c) ==> before(a, c))
  }

  /** Every element of `s` may come before every later one. */
  predicate Sorted<T>(s: seq<T>, before: (T, T) -> bool)
  {
    forall i, j :: 0 <= i < j < |s| ==> before(s[i], s[j])
  }

  /** Inserts `x` into sorted `s` ahead of the first element it may come before. */
  function Insert<T(!new)>(x: T, s: seq<T>, before: (T, T) -> bool): (r: seq<T>)
    requires IsTotalPreorder(before)
    requires Sorted(s, before)
    ensures Sorted(r, before)
    ensures multiset(r) == multiset(s) + multiset{x}
  {
    if s == [] then [x]
    else if before(x, s[0]) then
      assert forall j :: 0 <= j < |s| ==> before(x, s[j]) by {
        forall j | 0 <= j < |s| ensures before(x, s[j]) {
          if j > 0 {
            assert before(s[0], s[j]);
          }
        }
      }
      [x] + s
    else
      var rest := Insert(x, s[1..], before);
      assert s == [s[0]] + s[1..];
      assert before(s[0], x);
      assert forall k :: 0 <= k < |rest| ==> before(s[0], rest[k]) by {
        forall k | 0 <= k < |rest| ensures before(s[0], rest[k]) {
          assert rest[k] in multiset(rest);
          assert rest[k] == x || rest[k] in multiset(s[1..]);
          if rest[k] != x {
            assert rest[k] in s[1..];
            var j :| 0 <= j < |s[1..]| && s[1..][j] == rest[k];
            assert s[j + 1] == rest[k];
          }
        }
      }
      [s[0]] + rest
  }

  /** Insertion sort: sorted, and a permutation of its input. */
  function SortBy<T(!new)>(s: seq<T>, before: (T, T) -> bool): (r: seq<T>)
    requires IsTotalPreorder(before)
    ensures Sorted(r, before)
    ensures multiset(r) == multiset(s)
    ensures |r| == |s|
  {
    if s == [] then []
    else
      assert s == [s[0]] + s[1..];
      Insert(s[0], SortBy(s[1..], before), before)
  }

  /** Sorting an already sorted sequence changes nothing, so applying the same
      ORDER BY a second time yields the same rows. */
  lemma {:induction false} SortBySorted<T(!new)>(s: seq<T>, before: (T, T) -> bool)
    requires IsTotalPreorder(before)
    requires Sorted(s, before)
    ensures SortBy(s, before) == s
  {
    if s != [] {
      assert Sorted(s[1..], before);
      SortBySorted(s[1..], before);
      if |s| > 1 {
        assert before(s[0], s[1]);
      }
      assert s == [s[0]] + s[1..];
    }
  }
}

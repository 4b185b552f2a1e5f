/** First-seen-wins collapsing of a sequence by a key: the policy the network
    builder applies both to nodes (keyed by id, through an insertion-ordered
    dictionary) and to edges (keyed by their endpoint pair, through a set of
    seen keys). */
module FirstSeen {

  /** The keys of the elements of `s`. */
  function Keys<T, K(==)>(s: seq<T>, key: T -> K): set<K>
  {
    set i | 0 <= i < |s| :: key(s[i])
  }

  /** Element `i` of `s` is the first one carrying its key. */
  predicate IsFirstAt<T, K(==)>(s: seq<T>, i: int, key: T -> K)
    requires 0 <= i < |s|
  {
    key(s[i]) !in Keys(s[..i], key)
  }

  /** No two elements of `s` share a key. */
  predicate DistinctKeys<T, K(==)>(s: seq<T>, key: T -> K)
  {
    forall i, j :: 0 <= i < j < |s| ==> key(s[i]) != key(s[j])
  }

  /** The elements of `s` that are the first to carry their key, in order. */
  function FirstOccurrences<T, K(==)>(s: seq<T>, key: T -> K): (r: seq<T>)
    ensures |r| <= |s|
  {
    if s == [] then []
    else
      var n := |s| - 1;
      FirstOccurrences(s[..n], key) + (if key(s[n]) in Keys(s[..n], key) then [] else [s[n]])
  }

  lemma KeysSnoc<T, K>(s: seq<T>, x: T, key: T -> K)
    ensures Keys(s + [x], key) == Keys(s, key) + {key(x)}
  {
    var t := s + [x];
    assert t[|s|] == x;
    forall k | k in Keys(s, key) ensures k in Keys(t, key) {
      var i :| 0 <= i < |s| && key(s[i]) == k;
      assert t[i] == s[i];
    }
  }

  lemma KeysConcat<T, K>(a: seq<T>, b: seq<T>, key: T -> K)
    ensures Keys(a + b, key) == Keys(a, key) + Keys(b, key)
  {
    var t := a + b;
    forall k | k in Keys(a, key) ensures k in Keys(t, key) {
      var i :| 0 <= i < |a| && key(a[i]) == k;
      assert t[i] == a[i];
    }
    forall k | k in Keys(b, key) ensures k in Keys(t, key) {
      var i :| 0 <= i < |b| && key(b[i]) == k;
      assert t[|a| + i] == b[i];
    }
  }

  /** Visiting one more element adds it exactly when its key is new. */
  lemma FirstOccurrencesSnoc<T, K>(s: seq<T>, x: T, key: T -> K)
    ensures FirstOccurrences(s + [x], key)
         == FirstOccurrences(s, key) + (if key(x) in Keys(s, key) then [] else [x])
  {
    assert (s + [x])[..|s|] == s;
  }

  /** Collapsing keeps every key and introduces none. */
  lemma {:induction false} FirstOccurrencesKeys<T, K>(s: seq<T>, key: T -> K)
    ensures Keys(FirstOccurrences(s, key), key) == Keys(s, key)
  {
    if s != [] {
      var n := |s| - 1;
      assert s == s[..n] + [s[n]];
      FirstOccurrencesKeys(s[..n], key);
      FirstOccurrencesSnoc(s[..n], s[n], key);
      KeysSnoc(s[..n], s[n], key);
      if key(s[n]) !in Keys(s[..n], key) {
        KeysSnoc(FirstOccurrences(s[..n], key), s[n], key);
        assert FirstOccurrences(s, key) == FirstOccurrences(s[..n], key) + [s[n]];
      } else {
        assert FirstOccurrences(s, key) == FirstOccurrences(s[..n], key);
      }
    }
  }

  /** After collapsing, no two elements share a key. */
  lemma {:induction false} FirstOccurrencesDistinct<T, K>(s: seq<T>, key: T -> K)
    ensures DistinctKeys(FirstOccurrences(s, key), key)
  {
    if s != [] {
      var n := |s| - 1;
      var prev := FirstOccurrences(s[..n], key);
      FirstOccurrencesDistinct(s[..n], key);
      FirstOccurrencesKeys(s[..n], key);
      if key(s[n]) !in Keys(s[..n], key) {
        var r := prev + [s[n]];
        forall i, j | 0 <= i < j < |r| ensures key(r[i]) != key(r[j]) {
          if j == |prev| {
            assert key(r[i]) in Keys(prev, key);
          }
        }
      }
    }
  }

  /** The collapsed sequence is exactly the subsequence of `s` at the positions
      that are first occurrences of their key: it lists those elements in their
      original order and misses none of them. */
  lemma {:induction false} FirstOccurrencesPositions<T, K>(s: seq<T>, key: T -> K) returns (idx: seq<int>)
    ensures |idx| == |FirstOccurrences(s, key)|
    ensures forall k :: 0 <= k < |idx| ==>
      0 <= idx[k] < |s| && IsFirstAt(s, idx[k], key) && FirstOccurrences(s, key)[k] == s[idx[k]]
    ensures forall k, l :: 0 <= k < l < |idx| ==> idx[k] < idx[l]
    ensures forall j :: 0 <= j < |s| && IsFirstAt(s, j, key) ==> j in idx
  {
    if s == [] {
      idx := [];
    } else {
      var n := |s| - 1;
      var init := s[..n];
      var prev := FirstOccurrencesPositions(init, key);
      var fo, fi := FirstOccurrences(s, key), FirstOccurrences(init, key);
      assert s[..n] == init;
      forall j | 0 <= j < n ensures s[..j] == init[..j] && s[j] == init[j] && (IsFirstAt(s, j, key) <==> IsFirstAt(init, j, key)) {
      }
      if key(s[n]) in Keys(init, key) {
        idx := prev;
        assert fo == fi;
      } else {
        idx := prev + [n];
        assert fo == fi + [s[n]];
        forall k | 0 <= k < |idx|
          ensures 0 <= idx[k] < |s| && IsFirstAt(s, idx[k], key) && fo[k] == s[idx[k]]
        {
          if k < |prev| {
            assert idx[k] == prev[k] && fo[k] == fi[k];
          }
        }
      }
    }
  }

  /** The first element always survives collapsing. */
  lemma FirstOccurrencesHead<T, K>(s: seq<T>, key: T -> K)
    requires s != []
    ensures FirstOccurrences(s, key) != [] && FirstOccurrences(s, key)[0] == s[0]
  {
    var idx := FirstOccurrencesPositions(s, key);
    assert s[..0] == [];
    assert IsFirstAt(s, 0, key);
    assert 0 in idx;
    var k :| 0 <= k < |idx| && idx[k] == 0;
  }

  /** Every element of the collapsed sequence comes from `s`. */
  lemma FirstOccurrencesFrom<T, K>(s: seq<T>, key: T -> K)
    ensures forall x :: x in FirstOccurrences(s, key) ==> x in s
  {
    var idx := FirstOccurrencesPositions(s, key);
    forall x | x in FirstOccurrences(s, key) ensures x in s {
      var k :| 0 <= k < |FirstOccurrences(s, key)| && FirstOccurrences(s, key)[k] == x;
      assert s[idx[k]] == x;
    }
  }
}

/**
 * lodash's `uniqBy`: keep the first element for each key, in the order the
 * keys first occur. `uniq` is the special case whose key is the element itself.
 */
module Uniq {

  /** The keys that occur in xs. */
  function KeySet<T, K>(xs: seq<T>, key: T -> K): set<K> {
    set i | 0 <= i < |xs| :: key(xs[i])
  }

  /** The position of the first element of xs whose key is k. */
  ghost function FirstIndex<T, K>(xs: seq<T>, key: T -> K, k: K): (i: nat)
    requires k in KeySet(xs, key)
    ensures i < |xs| && key(xs[i]) == k
    ensures forall j :: 0 <= j < i ==> key(xs[j]) != k
  {
    if key(xs[0]) == k then 0
    else
      assert k in KeySet(xs[1..], key) by {
        var i :| 0 <= i < |xs| && key(xs[i]) == k;
        assert key(xs[1..][i - 1]) == k;
      }
      1 + FirstIndex(xs[1..], key, k)
  }

  lemma KeySetCons<T, K>(xs: seq<T>, key: T -> K)
    requires xs != []
    ensures KeySet(xs, key) == {key(xs[0])} + KeySet(xs[1..], key)
  {
    forall k | k in KeySet(xs, key) ensures k in {key(xs[0])} + KeySet(xs[1..], key) {
      var i :| 0 <= i < |xs| && key(xs[i]) == k;
      if i > 0 { assert key(xs[1..][i - 1]) == k; }
    }
    forall k | k in KeySet(xs[1..], key) ensures k in KeySet(xs, key) {
      var i :| 0 <= i < |xs[1..]| && key(xs[1..][i]) == k;
      assert key(xs[i + 1]) == k;
    }
  }

  /** The left-to-right scan of `uniqBy`, with the keys already seen. */
  function UniqFrom<T, K(==)>(xs: seq<T>, key: T -> K, seen: set<K>): seq<T> {
    if xs == [] then []
    else if key(xs[0]) in seen then UniqFrom(xs[1..], key, seen)
    else [xs[0]] + UniqFrom(xs[1..], key, seen + {key(xs[0])})
  }

  /** The scan keeps only unseen keys, each once, and every unseen key of xs. */
  lemma {:induction false} UniqFromSpec<T, K>(xs: seq<T>, key: T -> K, seen: set<K>)
    ensures |UniqFrom(xs, key, seen)| <= |xs|
    ensures forall i :: 0 <= i < |UniqFrom(xs, key, seen)| ==> key(UniqFrom(xs, key, seen)[i]) !in seen
    ensures forall i, j :: 0 <= i < j < |UniqFrom(xs, key, seen)| ==> key(UniqFrom(xs, key, seen)[i]) != key(UniqFrom(xs, key, seen)[j])
    ensures KeySet(UniqFrom(xs, key, seen), key) == KeySet(xs, key) - seen
  {
    if xs != [] {
      KeySetCons(xs, key);
      if key(xs[0]) in seen {
        UniqFromSpec(xs[1..], key, seen);
      } else {
        var rest := UniqFrom(xs[1..], key, seen + {key(xs[0])});
        UniqFromSpec(xs[1..], key, seen + {key(xs[0])});
        KeySetCons([xs[0]] + rest, key);
        assert ([xs[0]] + rest)[1..] == rest;
        var r := [xs[0]] + rest;
        forall i, j | 0 <= i < j < |r| ensures key(r[i]) != key(r[j]) {
          assert r[j] == rest[j - 1];
          if i > 0 { assert r[i] == rest[i - 1]; }
        }
      }
    }
  }

  /** `_.uniqBy(xs, key)`: the first element of xs for each key, in first-occurrence order. */
  function UniqBy<T, K(==)>(xs: seq<T>, key: T -> K): seq<T> {
    UniqFrom(xs, key, {})
  }

  /**
   * `uniqBy` keeps one element per key, no key twice and no key lost; each
   * kept element is the first of its key, and the kept elements are in the
   * order their keys first occur.
   */
  lemma UniqBySpec<T, K>(xs: seq<T>, key: T -> K)
    ensures |UniqBy(xs, key)| <= |xs|
    ensures forall i, j :: 0 <= i < j < |UniqBy(xs, key)| ==> key(UniqBy(xs, key)[i]) != key(UniqBy(xs, key)[j])
    ensures KeySet(UniqBy(xs, key), key) == KeySet(xs, key)
    ensures forall i :: 0 <= i < |UniqBy(xs, key)| ==> UniqBy(xs, key)[i] == xs[FirstIndex(xs, key, key(UniqBy(xs, key)[i]))]
    ensures forall i, j :: 0 <= i < j < |UniqBy(xs, key)| ==>
              FirstIndex(xs, key, key(UniqBy(xs, key)[i])) < FirstIndex(xs, key, key(UniqBy(xs, key)[j]))
  {
    UniqFromSpec(xs, key, {});
    UniqFromFirsts(xs, key, {});
    UniqFromOrdered(xs, key, {});
  }

  /** Past the head, a key other than the head's is first found one position later in xs than in its tail. */
  lemma FirstIndexTail<T, K>(xs: seq<T>, key: T -> K, k: K)
    requires xs != [] && k in KeySet(xs[1..], key) && k != key(xs[0])
    ensures k in KeySet(xs, key) && FirstIndex(xs, key, k) == 1 + FirstIndex(xs[1..], key, k)
  {
    KeySetCons(xs, key);
  }

  /** Each element UniqFrom keeps is the first of its key in xs. */
  lemma {:induction false} UniqFromFirsts<T, K>(xs: seq<T>, key: T -> K, seen: set<K>)
    ensures forall i :: 0 <= i < |UniqFrom(xs, key, seen)| ==>
              key(UniqFrom(xs, key, seen)[i]) in KeySet(xs, key) &&
              UniqFrom(xs, key, seen)[i] == xs[FirstIndex(xs, key, key(UniqFrom(xs, key, seen)[i]))]
  {
    if xs != [] {
      var r := UniqFrom(xs, key, seen);
      var k0, tail := key(xs[0]), xs[1..];
      var seen' := if k0 in seen then seen else seen + {k0};
      var rest := UniqFrom(tail, key, seen');
      UniqFromSpec(tail, key, seen');
      UniqFromFirsts(tail, key, seen');
      forall i | 0 <= i < |rest|
        ensures key(rest[i]) in KeySet(xs, key) && rest[i] == xs[FirstIndex(xs, key, key(rest[i]))]
      {
        assert key(rest[i]) in KeySet(rest, key);
        FirstIndexTail(xs, key, key(rest[i]));
      }
      if k0 !in seen {
        assert r == [xs[0]] + rest;
        KeySetCons(xs, key);
        assert FirstIndex(xs, key, k0) == 0;
        forall i | 0 < i < |r| ensures r[i] == rest[i - 1] {
        }
      }
    }
  }

  /** The elements UniqFrom keeps are in the order of the first occurrences of their keys in xs. */
  lemma {:induction false} UniqFromOrdered<T, K>(xs: seq<T>, key: T -> K, seen: set<K>)
    ensures forall i :: 0 <= i < |UniqFrom(xs, key, seen)| ==> key(UniqFrom(xs, key, seen)[i]) in KeySet(xs, key)
    ensures forall i, j :: 0 <= i < j < |UniqFrom(xs, key, seen)| ==>
              FirstIndex(xs, key, key(UniqFrom(xs, key, seen)[i])) < FirstIndex(xs, key, key(UniqFrom(xs, key, seen)[j]))
  {
    UniqFromSpec(xs, key, seen);
    var r := UniqFrom(xs, key, seen);
    forall i | 0 <= i < |r| ensures key(r[i]) in KeySet(xs, key) {
      assert key(r[i]) in KeySet(r, key);
    }
    if xs != [] {
      var k0, tail := key(xs[0]), xs[1..];
      var seen' := if k0 in seen then seen else seen + {k0};
      var rest := UniqFrom(tail, key, seen');
      UniqFromSpec(tail, key, seen');
      UniqFromOrdered(tail, key, seen');
      forall i | 0 <= i < |rest|
        ensures key(rest[i]) != k0 && FirstIndex(xs, key, key(rest[i])) == 1 + FirstIndex(tail, key, key(rest[i]))
      {
        assert key(rest[i]) in KeySet(rest, key);
        FirstIndexTail(xs, key, key(rest[i]));
      }
      if k0 !in seen {
        assert r == [xs[0]] + rest;
        KeySetCons(xs, key);
        assert FirstIndex(xs, key, k0) == 0;
        forall i, j | 0 <= i < j < |r|
          ensures FirstIndex(xs, key, key(r[i])) < FirstIndex(xs, key, key(r[j]))
        {
          assert r[j] == rest[j - 1];
          if i > 0 {
            assert r[i] == rest[i - 1];
          }
        }
      }
    }
  }

  /** A sequence whose keys are pairwise distinct has as many keys as elements. */
  lemma {:induction false} DistinctKeysCount<T, K>(xs: seq<T>, key: T -> K)
    requires forall i, j :: 0 <= i < j < |xs| ==> key(xs[i]) != key(xs[j])
    ensures |KeySet(xs, key)| == |xs|
  {
    if xs != [] {
      KeySetCons(xs, key);
      DistinctKeysCount(xs[1..], key);
      assert key(xs[0]) !in KeySet(xs[1..], key);
    }
  }
}

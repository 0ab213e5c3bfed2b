/**
 * The keyed data join that drawNodes and drawLinks perform with
 * `selection.data(items, d => d.id)`, `enter().append(...)` and
 * `exit().remove()`: existing elements are matched to the new data by key,
 * unmatched data get new elements, unmatched elements are removed.
 */
module Reconcile {
  import opened Maybe
  import opened Uniq

  /** A rendered element: its own identity (uid), the key it is joined on and the datum bound to it. */
  datatype Element<K, T> = Element(uid: nat, key: K, datum: T)

  function ElementKey<K, T>(e: Element<K, T>): K {
    e.key
  }

  function DatumKey<K, T>(d: (K, T)): K {
    d.0
  }

  /** No two elements share an identity. */
  ghost predicate DistinctUids<K, T>(elements: seq<Element<K, T>>) {
    forall i, j :: 0 <= i < j < |elements| ==> elements[i].uid != elements[j].uid
  }

  /** Every element was created before the counter reached next. */
  ghost predicate UidsBelow<K, T>(elements: seq<Element<K, T>>, next: nat) {
    forall i :: 0 <= i < |elements| ==> elements[i].uid < next
  }

  /** The uids of the elements carrying key k. */
  ghost function UidsWithKey<K, T>(elements: seq<Element<K, T>>, k: K): set<nat> {
    set i | 0 <= i < |elements| && elements[i].key == k :: elements[i].uid
  }

  ghost function Uids<K, T>(elements: seq<Element<K, T>>): set<nat> {
    set i | 0 <= i < |elements| :: elements[i].uid
  }

  /** The first element of the pool carrying key k, if any. */
  function Find<K(==), T>(pool: seq<Element<K, T>>, k: K): (found: Option<Element<K, T>>)
    ensures found.Some? ==> exists i :: 0 <= i < |pool| && pool[i] == found.value && found.value.key == k
    ensures found.None? ==> forall i :: 0 <= i < |pool| ==> pool[i].key != k
  {
    if pool == [] then None
    else if pool[0].key == k then Some(pool[0])
    else
      var found := Find(pool[1..], k);
      assert found.Some? ==> exists i :: 0 <= i < |pool| && pool[i] == found.value && found.value.key == k by {
        if found.Some? {
          var i :| 0 <= i < |pool[1..]| && pool[1..][i] == found.value;
          assert pool[i + 1] == found.value;
        }
      }
      found
  }

  /** The pool without the elements carrying key k. */
  function Without<K(==), T>(pool: seq<Element<K, T>>, k: K): (rest: seq<Element<K, T>>)
    ensures forall i :: 0 <= i < |rest| ==> rest[i] in pool && rest[i].key != k
    ensures DistinctUids(pool) ==> DistinctUids(rest)
  {
    if pool == [] then []
    else
      var tail := Without(pool[1..], k);
      assert forall i :: 1 <= i < |pool| ==> pool[i] == pool[1..][i - 1];
      if pool[0].key == k then tail
      else
        assert forall i :: 0 <= i < |tail| ==> tail[i] in pool[1..];
        assert DistinctUids(pool) ==> forall i :: 0 <= i < |tail| ==> tail[i].uid != pool[0].uid by {
          if DistinctUids(pool) {
            forall i | 0 <= i < |tail| ensures tail[i].uid != pool[0].uid {
              var j :| 0 <= j < |pool[1..]| && pool[1..][j] == tail[i];
              assert pool[j + 1] == tail[i];
            }
          }
        }
        [pool[0]] + tail
  }

  /**
   * Bind data to elements in data order: a datum whose key is still in the
   * pool takes that element over (update); any other datum gets a new
   * element whose uid is next plus its position (enter).
   */
  function Bind<K(==), T>(pool: seq<Element<K, T>>, data: seq<(K, T)>, next: nat): (bound: seq<Element<K, T>>)
    ensures |bound| == |data|
    ensures forall i :: 0 <= i < |bound| ==> bound[i].key == data[i].0 && bound[i].datum == data[i].1
    decreases |data|
  {
    if data == [] then []
    else
      var k := data[0].0;
      var found := Find(pool, k);
      if found.Some? then
        [Element(found.value.uid, k, data[0].1)] + Bind(Without(pool, k), data[1..], next + 1)
      else
        [Element(next, k, data[0].1)] + Bind(pool, data[1..], next + 1)
  }

  /** Bind reuses an element only for its own key and gives every entering datum the uid next plus its position. */
  lemma {:induction false} BindOrigins<K, T>(pool: seq<Element<K, T>>, data: seq<(K, T)>, next: nat, bound: seq<Element<K, T>>)
    requires UidsBelow(pool, next)
    requires bound == Bind(pool, data, next)
    ensures forall i :: 0 <= i < |bound| ==> bound[i].uid < next || bound[i].uid == next + i
    ensures forall i :: 0 <= i < |bound| && bound[i].uid < next ==> bound[i].uid in UidsWithKey(pool, bound[i].key)
    decreases |data|
  {
    if data != [] {
      var k := data[0].0;
      var found := Find(pool, k);
      if found.Some? {
        var pool' := Without(pool, k);
        WithoutBelow(pool, k, next + 1);
        var rest := Bind(pool', data[1..], next + 1);
        BindOrigins(pool', data[1..], next + 1, rest);
        assert bound == [Element(found.value.uid, k, data[0].1)] + rest;
        var q :| 0 <= q < |pool| && pool[q] == found.value;
        assert bound[0].uid in UidsWithKey(pool, k);
        WithoutKeyedUids(pool, k, rest);
      } else {
        var rest := Bind(pool, data[1..], next + 1);
        BindOrigins(pool, data[1..], next + 1, rest);
        assert bound == [Element(next, k, data[0].1)] + rest;
      }
    }
  }

  /** A uid the pool without key k holds under some key, the whole pool holds under that key. */
  lemma WithoutKeyedUids<K, T>(pool: seq<Element<K, T>>, k: K, rest: seq<Element<K, T>>)
    ensures forall i :: 0 <= i < |rest| && rest[i].uid in UidsWithKey(Without(pool, k), rest[i].key) ==>
              rest[i].uid in UidsWithKey(pool, rest[i].key)
  {
    var pool' := Without(pool, k);
    forall i | 0 <= i < |rest| && rest[i].uid in UidsWithKey(pool', rest[i].key)
      ensures rest[i].uid in UidsWithKey(pool, rest[i].key)
    {
      var j :| 0 <= j < |pool'| && pool'[j].key == rest[i].key && pool'[j].uid == rest[i].uid;
      var p :| 0 <= p < |pool| && pool[p] == pool'[j];
    }
  }

  lemma WithoutBelow<K, T>(pool: seq<Element<K, T>>, k: K, next: nat)
    requires UidsBelow(pool, next)
    ensures UidsBelow(Without(pool, k), next)
  {
    var rest := Without(pool, k);
    forall i | 0 <= i < |rest| ensures rest[i].uid < next {
      var p :| 0 <= p < |pool| && pool[p] == rest[i];
    }
  }

  /** Removing a key removes the uid of every element carrying it. */
  lemma WithoutDropsUid<K, T>(pool: seq<Element<K, T>>, k: K, q: nat)
    requires DistinctUids(pool) && q < |pool| && pool[q].key == k
    ensures forall j :: 0 <= j < |Without(pool, k)| ==> Without(pool, k)[j].uid != pool[q].uid
  {
    var rest := Without(pool, k);
    forall j | 0 <= j < |rest| ensures rest[j].uid != pool[q].uid {
      var p :| 0 <= p < |pool| && pool[p] == rest[j];
      assert p != q;
    }
  }

  lemma SeparateHead<K, T>(bound: seq<Element<K, T>>, rest: seq<Element<K, T>>)
    requires |bound| == |rest| + 1 && bound[1..] == rest
    requires DistinctUids(rest)
    requires forall i :: 0 <= i < |rest| ==> rest[i].uid != bound[0].uid
    ensures DistinctUids(bound)
  {
    forall i, j | 0 <= i < j < |bound| ensures bound[i].uid != bound[j].uid {
      assert bound[j] == rest[j - 1];
      if i > 0 { assert bound[i] == rest[i - 1]; }
    }
  }

  /** Bind never binds one element to two data. */
  lemma {:induction false} BindDistinct<K, T>(pool: seq<Element<K, T>>, data: seq<(K, T)>, next: nat, bound: seq<Element<K, T>>)
    requires DistinctUids(pool) && UidsBelow(pool, next)
    requires bound == Bind(pool, data, next)
    ensures DistinctUids(bound)
    decreases |data|, 1
  {
    if data != [] {
      if Find(pool, data[0].0).Some? {
        BindDistinctReuse(pool, data, next, bound);
      } else {
        BindDistinctEnter(pool, data, next, bound);
      }
    }
  }

  lemma {:induction false} BindDistinctReuse<K, T>(pool: seq<Element<K, T>>, data: seq<(K, T)>, next: nat, bound: seq<Element<K, T>>)
    requires DistinctUids(pool) && UidsBelow(pool, next)
    requires data != [] && Find(pool, data[0].0).Some?
    requires bound == Bind(pool, data, next)
    ensures DistinctUids(bound)
    decreases |data|, 0
  {
    var k := data[0].0;
    var pool' := Without(pool, k);
    var rest := Bind(pool', data[1..], next + 1);
    WithoutBelow(pool, k, next + 1);
    BindDistinct(pool', data[1..], next + 1, rest);
    ReusedUidIsFree(pool, data, next, rest);
    assert bound[1..] == rest;
    SeparateHead(bound, rest);
  }

  /** The element a datum takes over is not taken again by any later datum. */
  lemma ReusedUidIsFree<K, T>(pool: seq<Element<K, T>>, data: seq<(K, T)>, next: nat, rest: seq<Element<K, T>>)
    requires DistinctUids(pool) && UidsBelow(pool, next)
    requires data != [] && Find(pool, data[0].0).Some?
    requires rest == Bind(Without(pool, data[0].0), data[1..], next + 1)
    ensures forall i :: 0 <= i < |rest| ==> rest[i].uid != Find(pool, data[0].0).value.uid
  {
    var k := data[0].0;
    var e := Find(pool, k).value;
    var pool' := Without(pool, k);
    WithoutBelow(pool, k, next + 1);
    BindOrigins(pool', data[1..], next + 1, rest);
    var q :| 0 <= q < |pool| && pool[q] == e;
    WithoutDropsUid(pool, k, q);
    forall i | 0 <= i < |rest| ensures rest[i].uid != e.uid {
      if rest[i].uid < next + 1 {
        assert rest[i].uid in UidsWithKey(pool', rest[i].key);
      }
    }
  }

  lemma {:induction false} BindDistinctEnter<K, T>(pool: seq<Element<K, T>>, data: seq<(K, T)>, next: nat, bound: seq<Element<K, T>>)
    requires DistinctUids(pool) && UidsBelow(pool, next)
    requires data != [] && Find(pool, data[0].0).None?
    requires bound == Bind(pool, data, next)
    ensures DistinctUids(bound)
    decreases |data|, 0
  {
    var rest := Bind(pool, data[1..], next + 1);
    BindOrigins(pool, data[1..], next + 1, rest);
    BindDistinct(pool, data[1..], next + 1, rest);
    assert bound == [Element(next, data[0].0, data[0].1)] + rest;
    forall i | 0 <= i < |rest| ensures rest[i].uid != next {
      if rest[i].uid < next + 1 {
        var j :| 0 <= j < |pool| && pool[j].key == rest[i].key && pool[j].uid == rest[i].uid;
      }
    }
    SeparateHead(bound, rest);
  }

  /**
   * One reconciliation pass: existing elements are joined on their key (the
   * first element per key; later ones with the same key are dropped), then
   * bound to the new data.
   */
  function Join<K(==), T>(elements: seq<Element<K, T>>, data: seq<(K, T)>, next: nat): seq<Element<K, T>> {
    Bind(UniqBy(elements, ElementKey), data, next)
  }

  /**
   * A join yields one element per datum, in data order, each carrying its
   * datum's key and value; the elements stay distinct, and each one is either
   * an existing element with the datum's key or a new one whose uid the
   * counter hands out.
   */
  lemma JoinSpec<K, T>(elements: seq<Element<K, T>>, data: seq<(K, T)>, next: nat)
    requires DistinctUids(elements) && UidsBelow(elements, next)
    ensures |Join(elements, data, next)| == |data|
    ensures forall i :: 0 <= i < |data| ==> Join(elements, data, next)[i].key == data[i].0 && Join(elements, data, next)[i].datum == data[i].1
    ensures DistinctUids(Join(elements, data, next)) && UidsBelow(Join(elements, data, next), next + |data|)
    ensures forall i :: 0 <= i < |data| ==>
              Join(elements, data, next)[i].uid == next + i || Join(elements, data, next)[i].uid in UidsWithKey(elements, data[i].0)
  {
    var pool := UniqBy(elements, ElementKey);
    PoolIsDistinct(elements);
    var joined := Bind(pool, data, next);
    BindOrigins(pool, data, next, joined);
    BindDistinct(pool, data, next, joined);
    forall i | 0 <= i < |data| && joined[i].uid < next ensures joined[i].uid in UidsWithKey(elements, data[i].0) {
      var p :| 0 <= p < |pool| && pool[p].key == joined[i].key && pool[p].uid == joined[i].uid;
      var q :| 0 <= q < |elements| && elements[q] == pool[p];
    }
  }

  /** The pool of a join is drawn from the existing elements and keeps their uids apart. */
  lemma PoolIsDistinct<K, T>(elements: seq<Element<K, T>>)
    requires DistinctUids(elements)
    ensures forall i :: 0 <= i < |UniqBy(elements, ElementKey)| ==> UniqBy(elements, ElementKey)[i] in elements
    ensures DistinctUids(UniqBy(elements, ElementKey))
    ensures DistinctKeys(UniqBy(elements, ElementKey))
  {
    var pool := UniqBy(elements, ElementKey);
    UniqBySpec(elements, ElementKey);
    forall i, j | 0 <= i < j < |pool| ensures pool[i].uid != pool[j].uid {
      var a := FirstIndex(elements, ElementKey, pool[i].key);
      var b := FirstIndex(elements, ElementKey, pool[j].key);
      assert a != b;
    }
  }

  /** No two elements share a key. */
  ghost predicate DistinctKeys<K, T>(elements: seq<Element<K, T>>) {
    forall i, j :: 0 <= i < j < |elements| ==> elements[i].key != elements[j].key
  }

  /** Removing one key keeps every element with another key. */
  lemma {:induction false} WithoutKeeps<K, T>(pool: seq<Element<K, T>>, k: K)
    ensures forall p :: 0 <= p < |pool| && pool[p].key != k ==> pool[p] in Without(pool, k)
  {
    if pool != [] {
      WithoutKeeps(pool[1..], k);
      forall p | 0 < p < |pool| && pool[p].key != k ensures pool[p] in Without(pool, k) {
        assert pool[1..][p - 1] == pool[p];
      }
    }
  }

  /** Removing one key keeps the remaining keys apart. */
  lemma {:induction false} WithoutKeepsKeysApart<K, T>(pool: seq<Element<K, T>>, k: K)
    requires DistinctKeys(pool)
    ensures DistinctKeys(Without(pool, k))
  {
    if pool != [] {
      assert DistinctKeys(pool[1..]) by {
        forall i, j | 0 <= i < j < |pool[1..]| ensures pool[1..][i].key != pool[1..][j].key {
          assert pool[1..][i] == pool[i + 1] && pool[1..][j] == pool[j + 1];
        }
      }
      WithoutKeepsKeysApart(pool[1..], k);
      var tail := Without(pool[1..], k);
      if pool[0].key != k {
        forall i | 0 <= i < |tail| ensures tail[i].key != pool[0].key {
          var j :| 0 <= j < |pool[1..]| && pool[1..][j] == tail[i];
          assert pool[j + 1] == tail[i];
        }
        assert Without(pool, k) == [pool[0]] + tail;
      }
    }
  }

  /** A pooled element whose key is among the data is taken over by some datum. */
  lemma {:induction false} BindReusesPool<K, T>(pool: seq<Element<K, T>>, data: seq<(K, T)>, next: nat, bound: seq<Element<K, T>>, e: Element<K, T>)
    requires DistinctKeys(pool) && e in pool
    requires e.key in KeySet(data, DatumKey)
    requires bound == Bind(pool, data, next)
    ensures e.uid in Uids(bound)
    decreases |data|
  {
    var k := data[0].0;
    var found := Find(pool, k);
    if e.key == k {
      var q :| 0 <= q < |pool| && pool[q] == found.value && found.value.key == k;
      var p :| 0 <= p < |pool| && pool[p] == e;
      assert q == p;
      assert bound[0].uid == e.uid;
    } else {
      var pool' := if found.Some? then Without(pool, k) else pool;
      var rest := Bind(pool', data[1..], next + 1);
      assert bound[1..] == rest;
      WithoutKeeps(pool, k);
      if found.Some? {
        WithoutKeepsKeysApart(pool, k);
      }
      KeySetCons(data, DatumKey);
      BindReusesPool(pool', data[1..], next + 1, rest, e);
      var i :| 0 <= i < |rest| && rest[i].uid == e.uid;
      assert bound[i + 1].uid == e.uid;
    }
  }

  /** The first element with a key that the new data carry is kept (update). */
  lemma JoinKeepsFirst<K, T>(elements: seq<Element<K, T>>, data: seq<(K, T)>, next: nat, j: nat)
    requires DistinctUids(elements) && UidsBelow(elements, next)
    requires j < |elements|
    requires forall i :: 0 <= i < j ==> elements[i].key != elements[j].key
    requires elements[j].key in KeySet(data, DatumKey)
    ensures elements[j].uid in Uids(Join(elements, data, next))
  {
    var pool := UniqBy(elements, ElementKey);
    PoolIsDistinct(elements);
    UniqBySpec(elements, ElementKey);
    var k := elements[j].key;
    assert ElementKey(elements[j]) == k;
    assert k in KeySet(pool, ElementKey);
    var p :| 0 <= p < |pool| && ElementKey(pool[p]) == k;
    assert FirstIndex(elements, ElementKey, k) == j;
    assert pool[p] == elements[j];
    BindReusesPool(pool, data, next, Join(elements, data, next), elements[j]);
  }

  /** An element that is still bound after a join was the first with its key, and the new data carry that key. */
  lemma JoinKeepsOnlyMatched<K, T>(elements: seq<Element<K, T>>, data: seq<(K, T)>, next: nat, j: nat)
    requires DistinctUids(elements) && UidsBelow(elements, next)
    requires j < |elements|
    requires elements[j].uid in Uids(Join(elements, data, next))
    ensures forall i :: 0 <= i < j ==> elements[i].key != elements[j].key
    ensures elements[j].key in KeySet(data, DatumKey)
  {
    var pool := UniqBy(elements, ElementKey);
    var joined := Join(elements, data, next);
    assert joined == Bind(pool, data, next);
    PoolIsDistinct(elements);
    assert UidsBelow(pool, next);
    BindOrigins(pool, data, next, joined);
    var i :| 0 <= i < |joined| && joined[i].uid == elements[j].uid;
    assert joined[i].uid in UidsWithKey(pool, joined[i].key);
    var p :| 0 <= p < |pool| && pool[p].key == joined[i].key && pool[p].uid == joined[i].uid;
    PooledIsFirst(elements, pool, p, j);
    assert DatumKey(data[i]) == elements[j].key;
  }

  /** A pooled element is the first existing element with its key. */
  lemma PooledIsFirst<K, T>(elements: seq<Element<K, T>>, pool: seq<Element<K, T>>, p: nat, j: nat)
    requires DistinctUids(elements)
    requires pool == UniqBy(elements, ElementKey)
    requires p < |pool| && j < |elements| && pool[p].uid == elements[j].uid
    ensures pool[p] == elements[j]
    ensures forall i :: 0 <= i < j ==> elements[i].key != elements[j].key
  {
    UniqBySpec(elements, ElementKey);
    var g := FirstIndex(elements, ElementKey, ElementKey(pool[p]));
    assert pool[p] == elements[g];
    assert g == j;
  }

  /**
   * Update and exit: after a join, an existing element is still there exactly
   * when it was the first element with its key and that key is among the new
   * data; every other existing element has been removed.
   */
  lemma JoinKeepsMatchedElements<K, T>(elements: seq<Element<K, T>>, data: seq<(K, T)>, next: nat)
    requires DistinctUids(elements) && UidsBelow(elements, next)
    ensures forall j :: 0 <= j < |elements| ==>
              (elements[j].uid in Uids(Join(elements, data, next)) <==>
                 (forall i :: 0 <= i < j ==> elements[i].key != elements[j].key) &&
                 elements[j].key in KeySet(data, DatumKey))
  {
    forall j | 0 <= j < |elements|
      ensures elements[j].uid in Uids(Join(elements, data, next)) <==>
                (forall i :: 0 <= i < j ==> elements[i].key != elements[j].key) &&
                elements[j].key in KeySet(data, DatumKey)
    {
      if elements[j].uid in Uids(Join(elements, data, next)) {
        JoinKeepsOnlyMatched(elements, data, next, j);
      }
      if (forall i :: 0 <= i < j ==> elements[i].key != elements[j].key) && elements[j].key in KeySet(data, DatumKey) {
        JoinKeepsFirst(elements, data, next, j);
      }
    }
  }
}

/**
 * lodash's `orderBy(xs, d => d.flowCount)`: a stable ascending sort in which
 * an absent count (`undefined`) sorts after every number.
 */
module StableOrder {
  import opened Maybe

  /** A flowCount as seen by the sort: a number, or absent. */
  type Count = Option<nat>

  /** Ascending order of counts; an absent count comes after every present one. */
  predicate CountLe(a: Count, b: Count) {
    match a
    case None => b.None?
    case Some(x) => b.None? || x <= b.value
  }

  ghost predicate Sorted<T>(xs: seq<T>, key: T -> Count) {
    forall i, j :: 0 <= i < j < |xs| ==> CountLe(key(xs[i]), key(xs[j]))
  }

  /** The elements of xs whose count is c, in their order in xs. */
  function WithCount<T>(xs: seq<T>, key: T -> Count, c: Count): seq<T> {
    if xs == [] then []
    else (if key(xs[0]) == c then [xs[0]] else []) + WithCount(xs[1..], key, c)
  }

  lemma WithCountCons<T>(a: T, s: seq<T>, key: T -> Count, c: Count)
    ensures WithCount([a] + s, key, c) == (if key(a) == c then [a] else []) + WithCount(s, key, c)
  {
    assert ([a] + s)[1..] == s;
  }

  /** Put x before the first element whose count is not below its own. */
  function Insert<T>(x: T, s: seq<T>, key: T -> Count): (r: seq<T>)
    ensures multiset(r) == multiset(s) + multiset{x}
  {
    if s == [] then [x]
    else if CountLe(key(x), key(s[0])) then [x] + s
    else
      assert s == [s[0]] + s[1..];
      [s[0]] + Insert(x, s[1..], key)
  }

  lemma {:induction false} InsertSorted<T>(x: T, s: seq<T>, key: T -> Count)
    requires Sorted(s, key)
    ensures Sorted(Insert(x, s, key), key)
  {
    if s != [] && !CountLe(key(x), key(s[0])) {
      var rest := Insert(x, s[1..], key);
      InsertSorted(x, s[1..], key);
      forall y | y in rest ensures CountLe(key(s[0]), key(y)) {
        assert y in multiset(rest);
      }
    }
  }

  /** Inserting x puts it first among the elements with its count and leaves every other count group alone. */
  lemma {:induction false} InsertWithCount<T>(x: T, s: seq<T>, key: T -> Count, c: Count)
    ensures WithCount(Insert(x, s, key), key, c)
         == if key(x) == c then [x] + WithCount(s, key, c) else WithCount(s, key, c)
  {
    if s == [] {
      WithCountCons(x, [], key, c);
    } else if CountLe(key(x), key(s[0])) {
      WithCountCons(x, s, key, c);
    } else {
      var head, tail := s[0], s[1..];
      assert s == [head] + tail;
      assert key(head) != key(x);
      var rest := Insert(x, tail, key);
      assert Insert(x, s, key) == [head] + rest;
      InsertWithCount(x, tail, key, c);
      WithCountCons(head, rest, key, c);
      WithCountCons(head, tail, key, c);
    }
  }

  /** orderBy: insert each element, from the last to the first, into the sorted rest. */
  function OrderBy<T>(xs: seq<T>, key: T -> Count): seq<T> {
    if xs == [] then [] else Insert(xs[0], OrderBy(xs[1..], key), key)
  }

  /**
   * The result of orderBy holds the same elements as its input, ascending by
   * count, and elements with equal counts keep their original relative order.
   */
  lemma {:induction false} OrderBySpec<T>(xs: seq<T>, key: T -> Count)
    ensures multiset(OrderBy(xs, key)) == multiset(xs)
    ensures Sorted(OrderBy(xs, key), key)
    ensures forall c :: WithCount(OrderBy(xs, key), key, c) == WithCount(xs, key, c)
  {
    if xs != [] {
      var rest := OrderBy(xs[1..], key);
      OrderBySpec(xs[1..], key);
      assert xs == [xs[0]] + xs[1..];
      InsertSorted(xs[0], rest, key);
      forall c ensures WithCount(Insert(xs[0], rest, key), key, c) == WithCount(xs, key, c) {
        InsertWithCount(xs[0], rest, key, c);
        WithCountCons(xs[0], xs[1..], key, c);
      }
    }
  }

  /** Re-sorting a sorted sequence changes nothing, so enriching twice orders the entities as once. */
  lemma {:induction false} OrderByIdempotent<T>(xs: seq<T>, key: T -> Count)
    requires Sorted(xs, key)
    ensures OrderBy(xs, key) == xs
  {
    if xs != [] {
      assert Sorted(xs[1..], key);
      OrderByIdempotent(xs[1..], key);
      assert xs == [xs[0]] + xs[1..];
    }
  }
}

/**
 * The order both controllers sort by. A record is compared with another by one
 * integer key only (an account's balance, a person's age), through the key type's
 * own `CompareTo`, which answers -1, 0 or 1.
 */
module Ordering {

  /** `x.CompareTo(y)` on the key type: the sign of `x - y`. */
  function CompareKeys(x: int, y: int): (r: int)
    ensures -1 <= r <= 1
    ensures r < 0 <==> x < y
    ensures r == 0 <==> x == y
    ensures r > 0 <==> x > y
  {
    if x < y then -1 else if x == y then 0 else 1
  }

  /** Non-decreasing by key. */
  ghost predicate Sorted<T>(s: seq<T>, key: T -> int) {
    forall i, j :: 0 <= i < j < |s| ==> key(s[i]) <= key(s[j])
  }

  /** The records of `s` whose key is `k`, in their order in `s`. */
  function WithKey<T>(s: seq<T>, key: T -> int, k: int): seq<T> {
    if s == [] then []
    else (if key(s[0]) == k then [s[0]] else []) + WithKey(s[1..], key, k)
  }

  /**
   * `r` keeps the records of `s` that share a key in the order they have in `s`:
   * the definition of a stable rearrangement.
   */
  ghost predicate Stable<T>(s: seq<T>, r: seq<T>, key: T -> int) {
    forall k :: WithKey(r, key, k) == WithKey(s, key, k)
  }

  /** Every record of `WithKey(s, key, k)` comes from `s` and has key `k`. */
  lemma {:induction false} WithKeyMembers<T>(s: seq<T>, key: T -> int, k: int)
    ensures forall x :: x in WithKey(s, key, k) <==> x in s && key(x) == k
  {
    if s != [] {
      WithKeyMembers(s[1..], key, k);
      assert s == [s[0]] + s[1..];
    }
  }

  /** Putting a record in front keeps it for its own key only. */
  lemma WithKeyCons<T>(x: T, s: seq<T>, key: T -> int, k: int)
    ensures WithKey([x] + s, key, k) == (if key(x) == k then [x] else []) + WithKey(s, key, k)
  {
    assert ([x] + s)[0] == x;
    assert ([x] + s)[1..] == s;
  }

  /** The records of one key in `a + b` are those of `a` followed by those of `b`. */
  lemma {:induction false} WithKeyConcat<T>(a: seq<T>, b: seq<T>, key: T -> int, k: int)
    ensures WithKey(a + b, key, k) == WithKey(a, key, k) + WithKey(b, key, k)
  {
    if a == [] {
      assert a + b == b;
    } else {
      var head: seq<T> := if key(a[0]) == k then [a[0]] else [];
      assert a + b == [a[0]] + (a[1..] + b);
      WithKeyCons(a[0], a[1..] + b, key, k);
      WithKeyConcat(a[1..], b, key, k);
      assert WithKey(a, key, k) == head + WithKey(a[1..], key, k);
      ConcatAssoc(head, WithKey(a[1..], key, k), WithKey(b, key, k));
    }
  }

  lemma ConcatAssoc<T>(a: seq<T>, b: seq<T>, c: seq<T>)
    ensures a + (b + c) == (a + b) + c
  {
  }

  /** A sequence with no record of key `k` has nothing to keep for `k`. */
  lemma {:induction false} WithKeyNone<T>(s: seq<T>, key: T -> int, k: int)
    requires forall i :: 0 <= i < |s| ==> key(s[i]) != k
    ensures WithKey(s, key, k) == []
  {
    if s != [] {
      WithKeyNone(s[1..], key, k);
    }
  }

  lemma WithKeyOfHead<T>(s: seq<T>, key: T -> int)
    ensures s != [] ==> WithKey(s, key, key(s[0])) != []
  {
  }

  /**
   * Two sorted rearrangements that keep the same order within every key are
   * the same sequence: a stable sort has exactly one possible result.
   */
  lemma {:induction false} SortedStableUnique<T>(r1: seq<T>, r2: seq<T>, key: T -> int)
    requires Sorted(r1, key) && Sorted(r2, key)
    requires forall k :: WithKey(r1, key, k) == WithKey(r2, key, k)
    ensures r1 == r2
    decreases |r1|
  {
    // an empty side has nothing to keep for the other's first key
    WithKeyOfHead(r1, key);
    WithKeyOfHead(r2, key);
    if r1 != [] && r2 != [] {
      var m1, m2 := key(r1[0]), key(r2[0]);
      // r2 holds a record of key m1, and r2[0] is its least: m2 <= m1; symmetrically m1 <= m2
      WithKeyMembers(r1, key, m2);
      WithKeyMembers(r2, key, m1);
      assert WithKey(r1, key, m1) != [];
      assert r2[0] in WithKey(r2, key, m2);
      assert m1 == m2 by {
        var x :| x in WithKey(r2, key, m1);
        var y :| y in WithKey(r1, key, m2);
        assert x in r2 && key(x) == m1;
        assert y in r1 && key(y) == m2;
      }
      assert r1[0] == r2[0] by {
        assert WithKey(r1, key, m1)[0] == r1[0];
        assert WithKey(r2, key, m1)[0] == r2[0];
      }
      forall k
        ensures WithKey(r1[1..], key, k) == WithKey(r2[1..], key, k)
      {
        var head: seq<T> := if m1 == k then [r1[0]] else [];
        assert WithKey(r1, key, k) == head + WithKey(r1[1..], key, k);
        assert WithKey(r2, key, k) == head + WithKey(r2[1..], key, k);
        assert (head + WithKey(r1[1..], key, k))[|head|..] == WithKey(r1[1..], key, k);
        assert (head + WithKey(r2[1..], key, k))[|head|..] == WithKey(r2[1..], key, k);
      }
      SortedStableUnique(r1[1..], r2[1..], key);
      assert r1 == [r1[0]] + r1[1..];
      assert r2 == [r2[0]] + r2[1..];
    }
  }
}

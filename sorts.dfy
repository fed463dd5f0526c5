/**
 * The two sorting algorithms of the sorting controllers, written once over any
 * record type `T` ordered by an integer `key`. Each controller's records compare
 * through `CompareKeys(key(x), key(y))`, which is what their `CompareTo` answers
 * for a present (non-null) other record.
 */
module Sorts {
  import opened Ordering

  /**
   * Selection sort, in place: for each position i up to n - 2, find the first
   * least record of the unsorted suffix and swap it into position i.
   */
  method SelectionSort<T>(a: array<T>, key: T -> int)
    modifies a
    ensures Sorted(a[..], key)
    ensures multiset(a[..]) == multiset(old(a[..]))
    ensures a.Length <= 1 ==> a[..] == old(a[..])
  {
    var n := a.Length;
    var i := 0;
    while i < n - 1
      invariant 0 <= i <= n
      invariant Settled(a[..], i, key)
      invariant multiset(a[..]) == multiset(old(a[..]))
    {
      ghost var before := a[..];
      var minIndex := i;
      var j := i + 1;
      while j < n
        invariant i < j <= n
        invariant i <= minIndex < j
        invariant forall k :: i <= k < j ==> key(before[minIndex]) <= key(before[k])
        invariant a[..] == before
      {
        if CompareKeys(key(a[j]), key(a[minIndex])) < 0 {
          minIndex := j;
        }
        j := j + 1;
      }
      a[i], a[minIndex] := a[minIndex], a[i];
      SwapSettles(before, a[..], i, minIndex, key);
      i := i + 1;
    }
    SettledSorted(a[..], i, key);
    if n <= 1 {
      PermutationOfOne(a[..], old(a[..]));
    }
  }

  /** A rearrangement of at most one record is that record. */
  lemma PermutationOfOne<T>(s: seq<T>, t: seq<T>)
    requires |s| <= 1 && multiset(s) == multiset(t)
    ensures s == t
  {
    assert |t| == |multiset(t)| == |s|;
    if |s| == 1 {
      assert s[0] in multiset(t);
    }
  }

  /**
   * The first i positions of `s` hold, in order, records whose keys are no
   * greater than any key after them.
   */
  ghost predicate Settled<T>(s: seq<T>, i: int, key: T -> int) {
    forall p, q :: 0 <= p < i && p < q < |s| ==> key(s[p]) <= key(s[q])
  }

  /** Swapping a least record of the suffix from i into position i settles one more position. */
  lemma SwapSettles<T>(before: seq<T>, after: seq<T>, i: int, m: int, key: T -> int)
    requires 0 <= i <= m < |before|
    requires after == before[i := before[m]][m := before[i]]
    requires Settled(before, i, key)
    requires forall k :: i <= k < |before| ==> key(before[m]) <= key(before[k])
    ensures Settled(after, i + 1, key)
    ensures multiset(after) == multiset(before)
  {
    forall p, q | 0 <= p < i + 1 && p < q < |after|
      ensures key(after[p]) <= key(after[q])
    {
      var q' := if q == m then i else if q == i then m else q;
      assert after[q] == before[q'];
      if p < i {
        assert after[p] == before[p] && p < q';
      } else {
        assert after[p] == before[m] && i <= q';
      }
    }
  }

  lemma SettledSorted<T>(s: seq<T>, i: int, key: T -> int)
    requires Settled(s, i, key) && i >= |s| - 1
    ensures Sorted(s, key)
  {
  }

  /**
   * What `Merge` computes: repeatedly take the front record of `left` when its key
   * compares less than or equal to the front of `right`, else the front of `right`;
   * when one side runs out, the rest of the other follows.
   */
  function Merged<T>(left: seq<T>, right: seq<T>, key: T -> int): seq<T>
    decreases |left| + |right|
  {
    if left == [] then right
    else if right == [] then left
    else if CompareKeys(key(left[0]), key(right[0])) <= 0 then [left[0]] + Merged(left[1..], right, key)
    else [right[0]] + Merged(left, right[1..], key)
  }

  /** Merging loses and invents no record; in particular its length is the sum of the two. */
  lemma {:induction false} MergedPermutation<T>(left: seq<T>, right: seq<T>, key: T -> int)
    ensures multiset(Merged(left, right, key)) == multiset(left) + multiset(right)
    ensures |Merged(left, right, key)| == |left| + |right|
    decreases |left| + |right|
  {
    if left != [] && right != [] {
      if CompareKeys(key(left[0]), key(right[0])) <= 0 {
        MergedPermutation(left[1..], right, key);
        MultisetCons(left);
      } else {
        MergedPermutation(left, right[1..], key);
        MultisetCons(right);
      }
    }
  }

  lemma MultisetCons<T>(s: seq<T>)
    requires s != []
    ensures multiset(s) == multiset{s[0]} + multiset(s[1..])
  {
    assert s == [s[0]] + s[1..];
  }

  /** The merge of two sorted sequences is sorted. */
  lemma {:induction false} MergedSorted<T>(left: seq<T>, right: seq<T>, key: T -> int)
    requires Sorted(left, key) && Sorted(right, key)
    ensures Sorted(Merged(left, right, key), key)
    decreases |left| + |right|
  {
    if left != [] && right != [] {
      if CompareKeys(key(left[0]), key(right[0])) <= 0 {
        var least := key(left[0]);
        SortedFrom(left, key, least);
        SortedFrom(right, key, least);
        MergedSorted(left[1..], right, key);
        MergedFrom(left[1..], right, key, least);
        SortedCons(left[0], Merged(left[1..], right, key), key);
      } else {
        var least := key(right[0]);
        SortedFrom(left, key, least);
        SortedFrom(right, key, least);
        MergedSorted(left, right[1..], key);
        MergedFrom(left, right[1..], key, least);
        SortedCons(right[0], Merged(left, right[1..], key), key);
      }
    }
  }

  /** No key of `s` is below `b`. */
  ghost predicate From<T>(s: seq<T>, key: T -> int, b: int) {
    forall i :: 0 <= i < |s| ==> b <= key(s[i])
  }

  /** A sorted sequence whose first key is at least `b` has no key below `b`, nor has its tail. */
  lemma SortedFrom<T>(s: seq<T>, key: T -> int, b: int)
    requires Sorted(s, key)
    requires s != [] ==> b <= key(s[0])
    ensures From(s, key, b)
    ensures s != [] ==> From(s[1..], key, b)
  {
    if s != [] {
      assert forall i :: 0 <= i < |s| - 1 ==> s[1..][i] == s[i + 1];
    }
  }

  /** Merging two sequences with no key below `b` gives one with no key below `b`. */
  lemma {:induction false} MergedFrom<T>(left: seq<T>, right: seq<T>, key: T -> int, b: int)
    requires From(left, key, b) && From(right, key, b)
    ensures From(Merged(left, right, key), key, b)
    decreases |left| + |right|
  {
    if left != [] && right != [] {
      if CompareKeys(key(left[0]), key(right[0])) <= 0 {
        assert forall i :: 0 <= i < |left| - 1 ==> left[1..][i] == left[i + 1];
        MergedFrom(left[1..], right, key, b);
      } else {
        assert forall i :: 0 <= i < |right| - 1 ==> right[1..][i] == right[i + 1];
        MergedFrom(left, right[1..], key, b);
      }
    }
  }

  lemma SortedCons<T>(x: T, s: seq<T>, key: T -> int)
    requires Sorted(s, key)
    requires From(s, key, key(x))
    ensures Sorted([x] + s, key)
  {
    forall i, j | 0 <= i < j < |s| + 1
      ensures key(([x] + s)[i]) <= key(([x] + s)[j])
    {
      assert ([x] + s)[j] == s[j - 1];
    }
  }

  /**
   * On a tie the merge takes the left record first, so, for two sorted inputs,
   * the records of each key come out as those of `left` followed by those of `right`.
   */
  lemma {:induction false} MergedKeepsOrder<T>(left: seq<T>, right: seq<T>, key: T -> int, k: int)
    requires Sorted(left, key) && Sorted(right, key)
    ensures WithKey(Merged(left, right, key), key, k) == WithKey(left, key, k) + WithKey(right, key, k)
    decreases |left| + |right|
  {
    if left == [] {
      assert WithKey(left, key, k) == [];
    } else if right == [] {
      assert WithKey(right, key, k) == [];
    } else if CompareKeys(key(left[0]), key(right[0])) <= 0 {
      var rest := Merged(left[1..], right, key);
      var head: seq<T> := if key(left[0]) == k then [left[0]] else [];
      assert Merged(left, right, key) == [left[0]] + rest;
      WithKeyCons(left[0], rest, key, k);
      MergedKeepsOrder(left[1..], right, key, k);
      assert WithKey(left, key, k) == head + WithKey(left[1..], key, k);
      ConcatAssoc(head, WithKey(left[1..], key, k), WithKey(right, key, k));
    } else {
      var rest := Merged(left, right[1..], key);
      assert Merged(left, right, key) == [right[0]] + rest;
      WithKeyCons(right[0], rest, key, k);
      MergedKeepsOrder(left, right[1..], key, k);
      assert WithKey(right, key, k) == (if key(right[0]) == k then [right[0]] else []) + WithKey(right[1..], key, k);
      if key(right[0]) == k {
        // every record of left has a key above k, so none of them is kept for k
        SortedFrom(left, key, key(left[0]));
        WithKeyNone(left, key, k);
        assert [] + WithKey(right[1..], key, k) == WithKey(right[1..], key, k);
      }
    }
  }

  /** `Merge`: an index loop that appends the chosen record to a fresh result. */
  method Merge<T>(left: seq<T>, right: seq<T>, key: T -> int) returns (result: seq<T>)
    ensures result == Merged(left, right, key)
    ensures |result| == |left| + |right|
    ensures multiset(result) == multiset(left) + multiset(right)
    ensures Sorted(left, key) && Sorted(right, key) ==> Sorted(result, key)
  {
    result := [];
    var i, j := 0, 0;
    while i < |left| && j < |right|
      invariant 0 <= i <= |left| && 0 <= j <= |right|
      invariant result + Merged(left[i..], right[j..], key) == Merged(left, right, key)
      decreases |left| - i + |right| - j
    {
      MergedFront(left, right, i, j, key);
      if CompareKeys(key(left[i]), key(right[j])) <= 0 {
        ConcatAssoc(result, [left[i]], Merged(left[i + 1..], right[j..], key));
        result := result + [left[i]];
        i := i + 1;
      } else {
        ConcatAssoc(result, [right[j]], Merged(left[i..], right[j + 1..], key));
        result := result + [right[j]];
        j := j + 1;
      }
    }
    MergedRest(left, right, i, j, key);
    ghost var merged := result;
    result := result + left[i..];
    result := result + right[j..];
    assert result == merged + (left[i..] + right[j..]);
    MergedPermutation(left, right, key);
    if Sorted(left, key) && Sorted(right, key) {
      MergedSorted(left, right, key);
    }
  }

  /** One step of the merge loop, at positions i and j: which record `Merged` puts next. */
  lemma MergedFront<T>(left: seq<T>, right: seq<T>, i: int, j: int, key: T -> int)
    requires 0 <= i < |left| && 0 <= j < |right|
    ensures CompareKeys(key(left[i]), key(right[j])) <= 0 ==>
              Merged(left[i..], right[j..], key) == [left[i]] + Merged(left[i + 1..], right[j..], key)
    ensures CompareKeys(key(left[i]), key(right[j])) > 0 ==>
              Merged(left[i..], right[j..], key) == [right[j]] + Merged(left[i..], right[j + 1..], key)
  {
    assert left[i..][0] == left[i] && left[i..][1..] == left[i + 1..];
    assert right[j..][0] == right[j] && right[j..][1..] == right[j + 1..];
  }

  /** Once one side is used up, the merge of the rests is what is left of the other side. */
  lemma MergedRest<T>(left: seq<T>, right: seq<T>, i: int, j: int, key: T -> int)
    requires 0 <= i <= |left| && 0 <= j <= |right|
    requires i == |left| || j == |right|
    ensures Merged(left[i..], right[j..], key) == left[i..] + right[j..]
  {
    if i == |left| {
      assert left[i..] == [];
      assert left[i..] + right[j..] == right[j..];
    } else {
      assert right[j..] == [];
      assert left[i..] + right[j..] == left[i..];
    }
  }

  /**
   * Merge sort: a sequence of at most one record is returned as it is; otherwise
   * the first |s| / 2 records and the rest are sorted separately and merged.
   */
  method MergeSort<T>(s: seq<T>, key: T -> int) returns (r: seq<T>)
    ensures Sorted(r, key)
    ensures multiset(r) == multiset(s)
    ensures Stable(s, r, key)
    ensures |s| <= 1 ==> r == s
    decreases |s|
  {
    if |s| <= 1 {
      return s;
    }
    var middle := |s| / 2;
    var left := s[..middle];
    var right := s[middle..];
    var sortedLeft := MergeSort(left, key);
    var sortedRight := MergeSort(right, key);
    r := Merge(sortedLeft, sortedRight, key);
    assert s == left + right;
    forall k ensures WithKey(r, key, k) == WithKey(s, key, k) {
      MergedKeepsOrder(sortedLeft, sortedRight, key, k);
      WithKeyConcat(left, right, key, k);
    }
  }
}

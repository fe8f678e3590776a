/**
  Generic facts about sequences that the three components share: an
  order-preserving filter (JavaScript's `Array.prototype.filter`), the
  subsequence relation it establishes, and permutations of index ranges
  (the order in which asynchronous work completes).
 */
module Seqs {

  /** `a` can be obtained from `b` by deleting elements, keeping the order of the rest. */
  ghost predicate IsSubsequence<T>(a: seq<T>, b: seq<T>)
    decreases |b|
  {
    if |a| == 0 then true
    else if |b| == 0 then false
    else (a[0] == b[0] && IsSubsequence(a[1..], b[1..])) || IsSubsequence(a, b[1..])
  }

  /** Every element of a subsequence is an element of the whole. */
  lemma {:induction false} SubsequenceElements<T>(a: seq<T>, b: seq<T>)
    requires IsSubsequence(a, b)
    ensures forall x :: x in a ==> x in b
    decreases |b|
  {
    if |a| > 0 && |b| > 0 {
      if a[0] == b[0] && IsSubsequence(a[1..], b[1..]) {
        SubsequenceElements(a[1..], b[1..]);
        assert a == [a[0]] + a[1..];
        assert b == [b[0]] + b[1..];
      } else {
        SubsequenceElements(a, b[1..]);
        assert b == [b[0]] + b[1..];
      }
    }
  }

  /** Every sequence is a subsequence of itself. */
  lemma SubsequenceReflexive<T>(s: seq<T>)
    ensures IsSubsequence(s, s)
  {
    FilterKeepsAll(s, (x: T) => true);
    FilterIsSubsequence(s, (x: T) => true);
  }

  /** No two elements of `s` have the same key: `key` identifies the elements of `s`. */
  ghost predicate DistinctKeys<T, K>(s: seq<T>, key: T -> K) {
    forall i, j :: 0 <= i < j < |s| ==> key(s[i]) != key(s[j])
  }

  /** Deleting elements keeps keys distinct. */
  lemma {:induction false} SubsequenceKeepsDistinctKeys<T, K>(a: seq<T>, b: seq<T>, key: T -> K)
    requires IsSubsequence(a, b) && DistinctKeys(b, key)
    ensures DistinctKeys(a, key)
    decreases |b|
  {
    if |a| > 0 && |b| > 0 {
      if a[0] == b[0] && IsSubsequence(a[1..], b[1..]) {
        SubsequenceKeepsDistinctKeys(a[1..], b[1..], key);
        SubsequenceElements(a[1..], b[1..]);
        forall j | 0 < j < |a|
          ensures key(a[0]) != key(a[j])
        {
          assert a[j] == a[1..][j - 1];
          assert a[j] in a[1..];
          var k :| 0 <= k < |b[1..]| && b[1..][k] == a[j];
          assert b[k + 1] == a[j];
        }
      } else {
        SubsequenceKeepsDistinctKeys(a, b[1..], key);
      }
    }
  }

  /** The elements of `s` that satisfy `p`, in their original order. */
  function Filter<T>(s: seq<T>, p: T -> bool): (r: seq<T>)
    ensures |r| <= |s|
    ensures forall i :: 0 <= i < |r| ==> p(r[i])
    decreases |s|
  {
    if |s| == 0 then []
    else if p(s[0]) then [s[0]] + Filter(s[1..], p)
    else Filter(s[1..], p)
  }

  /** Filter keeps every element that satisfies `p` as often as it occurs, and drops the others. */
  lemma {:induction false} FilterMultiset<T>(s: seq<T>, p: T -> bool, x: T)
    ensures multiset(Filter(s, p))[x] == if p(x) then multiset(s)[x] else 0
    ensures x in Filter(s, p) <==> x in s && p(x)
    decreases |s|
  {
    if |s| > 0 {
      FilterMultiset(s[1..], p, x);
      assert s == [s[0]] + s[1..];
      assert multiset(s) == multiset{s[0]} + multiset(s[1..]);
    }
  }

  /** Filter keeps the relative order of the elements it keeps. */
  lemma {:induction false} FilterIsSubsequence<T>(s: seq<T>, p: T -> bool)
    ensures IsSubsequence(Filter(s, p), s)
    decreases |s|
  {
    if |s| > 0 {
      FilterIsSubsequence(s[1..], p);
      var r := Filter(s, p);
      if p(s[0]) {
        assert r[0] == s[0] && r[1..] == Filter(s[1..], p);
      }
    }
  }

  /** Membership in the filtered sequence, for every element at once. */
  lemma FilterMembers<T(!new)>(s: seq<T>, p: T -> bool)
    ensures forall x :: x in Filter(s, p) <==> x in s && p(x)
    ensures forall x :: multiset(Filter(s, p))[x] == if p(x) then multiset(s)[x] else 0
  {
    forall x
      ensures x in Filter(s, p) <==> x in s && p(x)
      ensures multiset(Filter(s, p))[x] == if p(x) then multiset(s)[x] else 0
    {
      FilterMultiset(s, p, x);
    }
  }

  /** Filtering a sequence extended by one element. */
  lemma {:induction false} FilterAppend<T>(s: seq<T>, x: T, p: T -> bool)
    ensures Filter(s + [x], p) == Filter(s, p) + (if p(x) then [x] else [])
    decreases |s|
  {
    if |s| == 0 {
      assert s + [x] == [x];
    } else {
      assert (s + [x])[1..] == s[1..] + [x];
      FilterAppend(s[1..], x, p);
    }
  }

  /** Filtering distributes over concatenation. */
  lemma {:induction false} FilterConcat<T>(a: seq<T>, b: seq<T>, p: T -> bool)
    ensures Filter(a + b, p) == Filter(a, p) + Filter(b, p)
    decreases |a|
  {
    if |a| == 0 {
      assert a + b == b;
    } else {
      assert (a + b)[1..] == a[1..] + b;
      FilterConcat(a[1..], b, p);
    }
  }

  /** Filters by pointwise-equal predicates agree. */
  lemma {:induction false} FilterSamePredicate<T(!new)>(s: seq<T>, p: T -> bool, q: T -> bool)
    requires forall x :: p(x) == q(x)
    ensures Filter(s, p) == Filter(s, q)
    decreases |s|
  {
    if |s| > 0 {
      FilterSamePredicate(s[1..], p, q);
    }
  }

  /** Filtering by a predicate that every element satisfies changes nothing. */
  lemma {:induction false} FilterKeepsAll<T>(s: seq<T>, p: T -> bool)
    requires forall i :: 0 <= i < |s| ==> p(s[i])
    ensures Filter(s, p) == s
    decreases |s|
  {
    if |s| > 0 {
      FilterKeepsAll(s[1..], p);
    }
  }

  /** Filtering by a predicate and by its negation splits `s` into two parts whose sizes add up. */
  lemma {:induction false} FilterPartition<T(!new)>(s: seq<T>, p: T -> bool, q: T -> bool)
    requires forall x :: q(x) == !p(x)
    ensures |Filter(s, p)| + |Filter(s, q)| == |s|
    decreases |s|
  {
    if |s| > 0 {
      FilterPartition(s[1..], p, q);
    }
  }

  /** The indices 0, 1, ..., n-1 in increasing order. */
  function Indices(n: nat): (r: seq<nat>)
    ensures |r| == n
    ensures forall i :: 0 <= i < n ==> r[i] == i
  {
    seq(n, i requires 0 <= i => i as nat)
  }

  /** `order` lists every index below `n` exactly once, in some order. */
  ghost predicate IsPermutationOf(order: seq<nat>, n: nat) {
    multiset(order) == multiset(Indices(n))
  }

  lemma IndicesMultiplicity(n: nat, i: int)
    ensures multiset(Indices(n))[i] == if 0 <= i < n then 1 else 0
  {
    if n > 0 {
      assert Indices(n) == Indices(n - 1) + [n - 1];
      IndicesMultiplicity(n - 1, i);
    }
  }

  /** Every entry of a permutation of `0..n-1` is an index below `n`. */
  lemma PermutationBounds(order: seq<nat>, n: nat)
    requires IsPermutationOf(order, n)
    ensures |order| == n
    ensures forall k :: 0 <= k < |order| ==> order[k] < n
  {
    assert |multiset(order)| == |multiset(Indices(n))|;
    forall k | 0 <= k < |order|
      ensures order[k] < n
    {
      assert order[k] in multiset(order);
      IndicesMultiplicity(n, order[k]);
    }
  }

  /** Every index below `n` occurs exactly once in a permutation of `0..n-1`. */
  lemma PermutationOnce(order: seq<nat>, n: nat, i: nat)
    requires IsPermutationOf(order, n)
    requires i < n
    ensures multiset(order)[i] == 1
  {
    IndicesMultiplicity(n, i);
  }

  /** The elements of `s` taken in the order `order` prescribes. */
  function Permute<T>(s: seq<T>, order: seq<nat>): (r: seq<T>)
    requires forall k :: 0 <= k < |order| ==> order[k] < |s|
    ensures |r| == |order|
    ensures forall k :: 0 <= k < |order| ==> r[k] == s[order[k]]
  {
    seq(|order|, k requires 0 <= k < |order| => s[order[k]])
  }

  lemma PermuteConcat<T>(s: seq<T>, o1: seq<nat>, o2: seq<nat>)
    requires forall k :: 0 <= k < |o1| ==> o1[k] < |s|
    requires forall k :: 0 <= k < |o2| ==> o2[k] < |s|
    ensures Permute(s, o1 + o2) == Permute(s, o1) + Permute(s, o2)
  {
  }

  /** Indices that stay below `m` pick the same elements from `s` and from its prefix of length `m`. */
  lemma PermutePrefix<T>(s: seq<T>, o: seq<nat>, m: nat)
    requires m <= |s|
    requires forall k :: 0 <= k < |o| ==> o[k] < m
    ensures Permute(s, o) == Permute(s[..m], o)
  {
  }

  lemma ConcatBounds(a: seq<nat>, b: seq<nat>, m: nat)
    requires forall j :: 0 <= j < |a + b| ==> (a + b)[j] < m
    ensures forall j :: 0 <= j < |a| ==> a[j] < m
    ensures forall j :: 0 <= j < |b| ==> b[j] < m
  {
    assert forall j :: 0 <= j < |a| ==> a[j] == (a + b)[j];
    assert forall j :: 0 <= j < |b| ==> b[j] == (a + b)[|a| + j];
  }

  /** Deleting the position that holds the largest index `n` from a permutation of `0..n` leaves a permutation of `0..n-1`. */
  lemma DropLargest(order: seq<nat>, n: nat, k: nat)
    requires IsPermutationOf(order, n + 1)
    requires k < |order| && order[k] == n
    ensures IsPermutationOf(order[..k] + order[k + 1..], n)
  {
    assert order == order[..k] + [n] + order[k + 1..];
    assert Indices(n + 1) == Indices(n) + [n];
    calc {
      multiset(order[..k] + order[k + 1..]);
      multiset(order[..k]) + multiset(order[k + 1..]);
      multiset(order) - multiset{n};
      multiset(Indices(n) + [n]) - multiset{n};
      multiset(Indices(n));
    }
  }

  lemma MultisetMiddle<T>(a: seq<T>, x: T, b: seq<T>)
    ensures multiset(a + [x] + b) == multiset(a + b) + multiset{x}
  {
  }

  lemma SplitLast<T>(s: seq<T>)
    requires |s| > 0
    ensures multiset(s) == multiset(s[..|s| - 1]) + multiset{s[|s| - 1]}
  {
    assert s == s[..|s| - 1] + [s[|s| - 1]];
  }

  /** Reordering by `order == front + [n] + back`, where `n` is the last position of `s`, is reordering the prefix by `front + back` around the last element. */
  lemma PermuteAround<T>(s: seq<T>, order: seq<nat>, front: seq<nat>, back: seq<nat>)
    requires |s| > 0 && order == front + [|s| - 1] + back
    requires forall j :: 0 <= j < |front + back| ==> (front + back)[j] < |s| - 1
    ensures forall j :: 0 <= j < |order| ==> order[j] < |s|
    ensures multiset(Permute(s, order)) == multiset(Permute(s[..|s| - 1], front + back)) + multiset{s[|s| - 1]}
  {
    var n := |s| - 1;
    var t := s[..n];
    ConcatBounds(front, back, n);
    assert forall j :: 0 <= j < |order| ==> order[j] < |s| by {
      assert forall j :: 0 <= j < |front| ==> order[j] == front[j];
      assert forall j :: |front| < j < |order| ==> order[j] == back[j - |front| - 1];
    }
    assert Permute(s, order) == Permute(t, front) + [s[n]] + Permute(t, back) by {
      PermuteConcat(s, front + [n], back);
      PermuteConcat(s, front, [n]);
      PermutePrefix(s, front, n);
      PermutePrefix(s, back, n);
      assert Permute(s, [n]) == [s[n]];
    }
    PermuteConcat(t, front, back);
    MultisetMiddle(Permute(t, front), s[n], Permute(t, back));
  }

  /**
    Taking out the position that picks the last element of `s` leaves a
    permutation `rest` of the indices of the shorter sequence, and the
    reordering of `s` holds the elements of the reordering of that
    shorter sequence by `rest`, plus the last element.
   */
  lemma PermuteSplitLast<T>(s: seq<T>, order: seq<nat>) returns (rest: seq<nat>)
    requires IsPermutationOf(order, |s|) && |s| > 0
    ensures IsPermutationOf(rest, |s| - 1)
    ensures forall k :: 0 <= k < |order| ==> order[k] < |s|
    ensures forall k :: 0 <= k < |rest| ==> rest[k] < |s| - 1
    ensures multiset(Permute(s, order)) == multiset(Permute(s[..|s| - 1], rest)) + multiset{s[|s| - 1]}
  {
    var n := |s| - 1;
    PermutationBounds(order, |s|);
    PermutationOnce(order, |s|, n);
    assert n in multiset(order);
    var k :| 0 <= k < |order| && order[k] == n;
    rest := order[..k] + order[k + 1..];
    DropLargest(order, n, k);
    PermutationBounds(rest, n);
    assert order == order[..k] + [n] + order[k + 1..];
    PermuteAround(s, order, order[..k], order[k + 1..]);
  }

  /** Reordering `s` by a permutation of its indices keeps exactly the same elements. */
  lemma {:induction false} PermuteIsPermutation<T>(s: seq<T>, order: seq<nat>)
    requires IsPermutationOf(order, |s|)
    ensures forall k :: 0 <= k < |order| ==> order[k] < |s|
    ensures multiset(Permute(s, order)) == multiset(s)
    decreases |s|
  {
    PermutationBounds(order, |s|);
    if |s| > 0 {
      var rest := PermuteSplitLast(s, order);
      PermuteIsPermutation(s[..|s| - 1], rest);
      SplitLast(s);
    }
  }

  /** Applying `f` to every element of `s`. */
  function Map<T, U>(s: seq<T>, f: T -> U): (r: seq<U>)
    ensures |r| == |s|
    ensures forall i :: 0 <= i < |s| ==> r[i] == f(s[i])
  {
    seq(|s|, i requires 0 <= i < |s| => f(s[i]))
  }

  /** Mapping after reordering is reordering after mapping. */
  lemma MapPermute<T, U>(s: seq<T>, order: seq<nat>, f: T -> U)
    requires forall k :: 0 <= k < |order| ==> order[k] < |s|
    ensures Map(Permute(s, order), f) == Permute(Map(s, f), order)
  {
  }
}

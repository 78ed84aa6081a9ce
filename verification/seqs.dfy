/** Sequence utilities shared by the days: sums, Rust's `slice::sort` on
    naturals, `reverse`, and counting `true` flags. */
module Seqs {

  function Min(a: nat, b: nat): nat {
    if a <= b then a else b
  }

  function Sum(s: seq<nat>): nat {
    if s == [] then 0 else s[0] + Sum(s[1..])
  }

  lemma SumConcat(a: seq<nat>, b: seq<nat>)
    ensures Sum(a + b) == Sum(a) + Sum(b)
  {
    if a == [] {
      assert a + b == b;
    } else {
      assert (a + b)[1..] == a[1..] + b;
      SumConcat(a[1..], b);
    }
  }

  /** A sum does not depend on the order of its terms. */
  lemma {:induction false} SumPermutation(a: seq<nat>, b: seq<nat>)
    requires multiset(a) == multiset(b)
    ensures Sum(a) == Sum(b)
    decreases |a|
  {
    if a == [] {
      assert |b| == |multiset(b)| == 0;
    } else {
      var x := a[0];
      assert x in multiset(b);
      var k :| 0 <= k < |b| && b[k] == x;
      MultisetTail(a);
      MultisetRemove(b, k);
      SumPermutation(a[1..], b[..k] + b[k + 1..]);
      SumRemove(b, k);
    }
  }

  lemma SumRemove(s: seq<nat>, k: nat)
    requires k < |s|
    ensures Sum(s) == s[k] + Sum(s[..k] + s[k + 1..])
  {
    var pre, post := s[..k], s[k + 1..];
    var mid := [s[k]] + post;
    assert s == pre + mid;
    SumConcat(pre, mid);
    assert mid[1..] == post;
    assert Sum(mid) == s[k] + Sum(post);
    SumConcat(pre, post);
  }

  lemma MultisetTail<T>(s: seq<T>)
    requires s != []
    ensures multiset(s[1..]) == multiset(s) - multiset{s[0]}
  {
    assert s == [s[0]] + s[1..];
  }

  lemma MultisetRemove<T>(s: seq<T>, k: nat)
    requires k < |s|
    ensures multiset(s[..k] + s[k + 1..]) == multiset(s) - multiset{s[k]}
  {
    assert s == s[..k] + [s[k]] + s[k + 1..];
    assert multiset(s) == multiset(s[..k]) + multiset{s[k]} + multiset(s[k + 1..]);
  }

  /** Every term is at most the sum. */
  lemma {:induction false} TermAtMostSum(s: seq<nat>, i: nat)
    requires i < |s|
    ensures s[i] <= Sum(s)
    decreases i
  {
    if i > 0 {
      TermAtMostSum(s[1..], i - 1);
    }
  }

  lemma PrefixSumAtMostSum(s: seq<nat>, n: nat)
    requires n <= |s|
    ensures Sum(s[..n]) <= Sum(s)
  {
    assert s == s[..n] + s[n..];
    SumConcat(s[..n], s[n..]);
  }

  predicate Sorted(s: seq<nat>) {
    forall i, j :: 0 <= i < j < |s| ==> s[i] <= s[j]
  }

  predicate Descending(s: seq<nat>) {
    forall i, j :: 0 <= i < j < |s| ==> s[i] >= s[j]
  }

  function Insert(x: nat, s: seq<nat>): (r: seq<nat>)
    requires Sorted(s)
    ensures Sorted(r)
    ensures |r| == |s| + 1
    ensures multiset(r) == multiset(s) + multiset{x}
    ensures r[0] == x || (s != [] && r[0] == s[0])
  {
    if s == [] || x <= s[0] then
      [x] + s
    else
      assert s == [s[0]] + s[1..];
      [s[0]] + Insert(x, s[1..])
  }

  /** `slice::sort` on naturals: an ascending permutation of the input. */
  function Sort(s: seq<nat>): (r: seq<nat>)
    ensures Sorted(r)
    ensures |r| == |s|
    ensures multiset(r) == multiset(s)
  {
    if s == [] then []
    else
      assert s == [s[0]] + s[1..];
      Insert(s[0], Sort(s[1..]))
  }

  /** There is only one ascending permutation of a sequence, so any sorting
      algorithm (Rust's stable merge sort included) agrees with `Sort`. */
  lemma {:induction false} SortedPermutationUnique(a: seq<nat>, b: seq<nat>)
    requires Sorted(a) && Sorted(b) && multiset(a) == multiset(b)
    ensures a == b
    decreases |a|
  {
    assert |a| == |multiset(a)| == |multiset(b)| == |b|;
    if a != [] {
      SameLeast(a, b);
      SortedTail(a);
      SortedTail(b);
      MultisetTail(a);
      MultisetTail(b);
      SortedPermutationUnique(a[1..], b[1..]);
      assert a == [a[0]] + a[1..];
      assert b == [b[0]] + b[1..];
    }
  }

  /** Two ascending permutations of each other start with the same least element. */
  lemma SameLeast(a: seq<nat>, b: seq<nat>)
    requires Sorted(a) && Sorted(b) && multiset(a) == multiset(b) && a != [] && b != []
    ensures a[0] == b[0]
  {
    assert a[0] in multiset(b);
    assert b[0] in multiset(a);
    HeadIsLeast(b, a[0]);
    HeadIsLeast(a, b[0]);
  }

  lemma HeadIsLeast(s: seq<nat>, x: nat)
    requires Sorted(s) && x in s
    ensures s[0] <= x
  {
    var i :| 0 <= i < |s| && s[i] == x;
  }

  lemma SortedTail(s: seq<nat>)
    requires Sorted(s) && s != []
    ensures Sorted(s[1..])
  {
  }

  function Reverse<T>(s: seq<T>): (r: seq<T>)
    ensures |r| == |s|
    ensures forall i :: 0 <= i < |s| ==> r[i] == s[|s| - 1 - i]
  {
    seq(|s|, i requires 0 <= i < |s| => s[|s| - 1 - i])
  }

  /** Reversing a non-empty sequence puts its first element last. */
  lemma ReverseFirstLast<T>(s: seq<T>)
    requires s != []
    ensures Reverse(s) == Reverse(s[1..]) + [s[0]]
  {
  }

  /** The first element of a reversal is the last element, followed by the reversal of the rest. */
  lemma ReverseLastFirst<T>(s: seq<T>)
    requires s != []
    ensures Reverse(s) == [s[|s| - 1]] + Reverse(s[..|s| - 1])
  {
  }

  lemma {:induction false} ReversePermutation<T>(s: seq<T>)
    ensures multiset(Reverse(s)) == multiset(s)
  {
    if s != [] {
      ReversePermutation(s[1..]);
      ReverseFirstLast(s);
      assert s == [s[0]] + s[1..];
    }
  }

  /** Reversing an ascending sequence gives a descending one. */
  lemma ReverseSorted(s: seq<nat>)
    requires Sorted(s)
    ensures Descending(Reverse(s))
  {
  }

  function CountTrue(s: seq<bool>): (n: nat)
    ensures n <= |s|
  {
    if s == [] then 0 else (if s[0] then 1 else 0) + CountTrue(s[1..])
  }

  /** Setting more flags never lowers the count. */
  lemma {:induction false} CountTrueMonotone(a: seq<bool>, b: seq<bool>)
    requires |a| == |b| && forall i :: 0 <= i < |a| && a[i] ==> b[i]
    ensures CountTrue(a) <= CountTrue(b)
    decreases |a|
  {
    if a != [] {
      assert forall i :: 0 <= i < |a| - 1 ==> a[1..][i] == a[i + 1] && b[1..][i] == b[i + 1];
      CountTrueMonotone(a[1..], b[1..]);
    }
  }
}

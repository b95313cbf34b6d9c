/** Array-backed binary max-heaps of row ids under the natural order of ids
    (the order of `Long::compare`), and the two in-place repairs the
    accumulator uses on a group's heap slice: sift-up and sift-down. */
module Heaps {

  /** Index of the parent of node `i` in an array-backed binary heap. */
  function Parent(i: nat): (p: nat)
    requires i > 0
    ensures 2 * p + 1 <= i <= 2 * p + 2
  {
    (i - 1) / 2
  }

  /** Every parent is not better (not smaller) than its children, so the
      root is the worst row kept. */
  ghost predicate IsMaxHeap(s: seq<int>) {
    forall i :: 0 < i < |s| ==> s[Parent(i)] >= s[i]
  }

  /** Ascending order, best row first. */
  ghost predicate Sorted(s: seq<int>) {
    forall i, j :: 0 <= i < j < |s| ==> s[i] <= s[j]
  }

  /** The heap property everywhere except on the edge from `k` to its parent;
      `k`'s grandparent already dominates `k`'s children. */
  ghost predicate HeapExceptUp(s: seq<int>, k: nat) {
    && (forall i :: 0 < i < |s| && i != k ==> s[Parent(i)] >= s[i])
    && (0 < k ==> forall c :: 0 < c < |s| && Parent(c) == k ==> s[Parent(k)] >= s[c])
  }

  /** The heap property everywhere except on the edges from `k` to its
      children; `k`'s parent already dominates `k`'s children. */
  ghost predicate HeapExceptDown(s: seq<int>, k: nat) {
    && (forall i :: 0 < i < |s| && Parent(i) != k ==> s[Parent(i)] >= s[i])
    && (0 < k ==> forall c :: 0 < c < |s| && Parent(c) == k ==> s[Parent(k)] >= s[c])
  }

  /** Following parents from any node up to the root never decreases. */
  lemma {:induction false} RootIsMax(s: seq<int>, i: nat)
    requires IsMaxHeap(s) && i < |s|
    ensures s[i] <= s[0]
    decreases i
  {
    if i > 0 {
      RootIsMax(s, Parent(i));
    }
  }

  /** The root of a non-empty heap is the largest (worst) element it holds. */
  lemma RootIsLargest(s: seq<int>)
    requires IsMaxHeap(s) && |s| > 0
    ensures forall x :: x in s ==> x <= s[0]
  {
    forall x | x in s
      ensures x <= s[0]
    {
      var i :| 0 <= i < |s| && s[i] == x;
      RootIsMax(s, i);
    }
  }

  /** A heap whose elements are known to be bounded by one of them has that
      element at its root. */
  lemma RootIsTheBound(s: seq<int>, m: int)
    requires IsMaxHeap(s) && m in s
    requires forall x :: x in s ==> x <= m
    ensures s[0] == m
  {
    RootIsLargest(s);
    assert s[0] in s;
  }

  /** The first row of an ascending sequence is its smallest. */
  lemma SortedHeadIsSmallest(a: seq<int>)
    requires Sorted(a) && |a| > 0
    ensures forall x :: x in a ==> a[0] <= x
  {
  }

  /** Two ascending sequences holding the same rows are the same sequence. */
  lemma {:induction false} SortedUnique(a: seq<int>, b: seq<int>)
    requires Sorted(a) && Sorted(b) && multiset(a) == multiset(b)
    ensures a == b
    decreases |a|
  {
    assert |a| == |multiset(a)| == |multiset(b)| == |b|;
    if |a| > 0 {
      SortedHeadIsSmallest(a);
      SortedHeadIsSmallest(b);
      assert a[0] in multiset(b) && b[0] in multiset(a);
      assert a[0] == b[0];
      var a', b' := a[1..], b[1..];
      assert a == [a[0]] + a' && b == [b[0]] + b';
      assert multiset(a) == multiset{a[0]} + multiset(a');
      assert multiset(b) == multiset{a[0]} + multiset(b');
      forall x
        ensures multiset(a')[x] == multiset(b')[x]
      {
        assert multiset(a)[x] == multiset{a[0]}[x] + multiset(a')[x];
        assert multiset(b)[x] == multiset{a[0]}[x] + multiset(b')[x];
      }
      assert multiset(a') == multiset(b');
      assert Sorted(a') && Sorted(b');
      SortedUnique(a', b');
    }
  }

  /** Removing the root by moving the last element into its place keeps the
      other rows and leaves a heap broken at most below the new root. */
  lemma PopRoot(s: seq<int>)
    requires IsMaxHeap(s) && |s| > 0
    ensures var t := s[0 := s[|s| - 1]][..|s| - 1];
      && multiset(t) + multiset{s[0]} == multiset(s)
      && HeapExceptDown(t, 0)
  {
    var n := |s|;
    var t := s[0 := s[n - 1]][..n - 1];
    if n > 1 {
      assert s == [s[0]] + s[1..n - 1] + [s[n - 1]];
      assert t == [s[n - 1]] + s[1..n - 1];
    }
  }

  /** One sift-up step: swapping `k` with its smaller parent moves the break
      one level up. */
  lemma SiftUpStep(s: seq<int>, k: nat)
    requires 0 < k < |s| && HeapExceptUp(s, k) && s[Parent(k)] < s[k]
    ensures HeapExceptUp(s[Parent(k) := s[k]][k := s[Parent(k)]], Parent(k))
  {
  }

  /** One sift-down step: swapping `k` with its larger child `c`, which is
      larger than `k`, moves the break one level down. */
  lemma SiftDownStep(s: seq<int>, k: nat, c: nat)
    requires k < c < |s| && (c == 2 * k + 1 || c == 2 * k + 2) && HeapExceptDown(s, k)
    requires s[c] > s[k]
    requires 2 * k + 1 < |s| ==> s[2 * k + 1] <= s[c]
    requires 2 * k + 2 < |s| ==> s[2 * k + 2] <= s[c]
    ensures HeapExceptDown(s[k := s[c]][c := s[k]], c)
  {
    SiftDownStepAbove(s, k, c);
    SiftDownStepBelow(s, k, c);
  }

  /** After the sift-down swap, every edge not leaving `c` is in order. */
  lemma SiftDownStepAbove(s: seq<int>, k: nat, c: nat)
    requires k < c < |s| && (c == 2 * k + 1 || c == 2 * k + 2) && HeapExceptDown(s, k)
    requires s[c] > s[k]
    requires 2 * k + 1 < |s| ==> s[2 * k + 1] <= s[c]
    requires 2 * k + 2 < |s| ==> s[2 * k + 2] <= s[c]
    ensures var t := s[k := s[c]][c := s[k]];
      forall i :: 0 < i < |t| && Parent(i) != c ==> t[Parent(i)] >= t[i]
  {
    var t := s[k := s[c]][c := s[k]];
    forall i | 0 < i < |t| && Parent(i) != c
      ensures t[Parent(i)] >= t[i]
    {
      if i == k {
        assert s[Parent(k)] >= s[c];
      } else if Parent(i) == k {
        assert i == 2 * k + 1 || i == 2 * k + 2;
      }
    }
  }

  /** After the sift-down swap, `c`'s new parent dominates `c`'s children. */
  lemma SiftDownStepBelow(s: seq<int>, k: nat, c: nat)
    requires k < c < |s| && (c == 2 * k + 1 || c == 2 * k + 2) && HeapExceptDown(s, k)
    ensures var t := s[k := s[c]][c := s[k]];
      forall d :: 0 < d < |t| && Parent(d) == c ==> t[Parent(c)] >= t[d]
  {
    var t := s[k := s[c]][c := s[k]];
    forall d | 0 < d < |t| && Parent(d) == c
      ensures t[Parent(c)] >= t[d]
    {
      assert s[c] >= s[d];
    }
  }

  /** A node not smaller than its children closes the break below it. */
  lemma SiftDownDone(s: seq<int>, k: nat)
    requires HeapExceptDown(s, k)
    requires 2 * k + 1 < |s| ==> s[2 * k + 1] <= s[k]
    requires 2 * k + 2 < |s| ==> s[2 * k + 2] <= s[k]
    ensures IsMaxHeap(s)
  {
  }

  /** Swapping two array cells keeps the multiset of the heap slice and the
      cells beyond it. */
  method Swap(a: array<int>, n: nat, i: nat, j: nat)
    requires i < n && j < n && n <= a.Length
    modifies a
    ensures a[..n] == old(a[..n])[i := old(a[j])][j := old(a[i])]
    ensures multiset(a[..n]) == old(multiset(a[..n]))
    ensures a[n..] == old(a[n..])
  {
    a[i], a[j] := a[j], a[i];
  }

  /** Moves the node at `k` up while its parent is smaller, restoring the
      heap property of `a[..n]` after an append at `k`. */
  method SiftUp(a: array<int>, n: nat, k: nat)
    requires k < n <= a.Length
    requires HeapExceptUp(a[..n], k)
    modifies a
    ensures IsMaxHeap(a[..n])
    ensures multiset(a[..n]) == old(multiset(a[..n]))
    ensures a[n..] == old(a[n..])
  {
    var i: nat := k;
    while i > 0 && a[Parent(i)] < a[i]
      invariant i < n
      invariant HeapExceptUp(a[..n], i)
      invariant multiset(a[..n]) == old(multiset(a[..n]))
      invariant a[n..] == old(a[n..])
      decreases i
    {
      var p := Parent(i);
      SiftUpStep(a[..n], i);
      Swap(a, n, p, i);
      i := p;
    }
  }

  /** Moves the node at `k` down, swapping with its larger child while that
      child is larger, restoring the heap property of `a[..n]` after the
      node at `k` was overwritten. */
  method SiftDown(a: array<int>, n: nat, k: nat)
    requires k < n <= a.Length
    requires HeapExceptDown(a[..n], k)
    modifies a
    ensures IsMaxHeap(a[..n])
    ensures multiset(a[..n]) == old(multiset(a[..n]))
    ensures a[n..] == old(a[n..])
  {
    var i: nat := k;
    while 2 * i + 1 < n
      invariant i < n
      invariant HeapExceptDown(a[..n], i)
      invariant multiset(a[..n]) == old(multiset(a[..n]))
      invariant a[n..] == old(a[n..])
      decreases n - i
    {
      var child := 2 * i + 1;
      if child + 1 < n && a[child + 1] > a[child] {
        child := child + 1;
      }
      if a[i] >= a[child] {
        SiftDownDone(a[..n], i);
        return;
      }
      SiftDownStep(a[..n], i, child);
      Swap(a, n, i, child);
      i := child;
    }
    SiftDownDone(a[..n], i);
  }
}

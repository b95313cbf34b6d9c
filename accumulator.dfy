/** The grouped Top-N accumulator behind the row-number-per-partition
    operator: for every group id it keeps at most `topN` row ids in a max-heap
    (the root is the worst row kept), rejects worse candidates without
    materialising them, evicts the root when a better candidate arrives, and
    drains a group in ascending order. */
module TopNAccumulator {
  import opened Heaps
  import opened RowReferences
  import opened TopNReference

  function Max(x: int, y: int): int {
    if x < y then y else x
  }

  /** The eviction callback: receives each evicted row id, in eviction order. */
  class EvictionListener {
    var received: seq<int>

    constructor ()
      ensures received == []
    {
      received := [];
    }

    method Accept(rowId: int)
      modifies this
      ensures received == old(received) + [rowId]
    {
      received := received + [rowId];
    }
  }

  /** The output buffer a group is drained into: an indexable sequence of row
      ids that the drain grows as needed. */
  class LongBigArray {
    var values: seq<int>

    constructor ()
      ensures values == []
    {
      values := [];
    }
  }

  /** Heap-sort style drain of the heap `heap[..n]` into `output.values[..n]`:
      the root (the worst remaining row) is written to the last free output
      position, the last heap element takes its place and is sifted down. */
  method DrainHeap(heap: array<int>, n: nat, output: LongBigArray)
    requires n <= heap.Length && n <= |output.values|
    requires IsMaxHeap(heap[..n])
    modifies heap, output
    ensures |output.values| == old(|output.values|)
    ensures Sorted(output.values[..n])
    ensures multiset(output.values[..n]) == old(multiset(heap[..n]))
    ensures output.values[n..] == old(output.values[n..])
  {
    ghost var kept := heap[..n];
    ghost var outside := output.values;
    var k := n;
    while k > 0
      invariant 0 <= k <= n
      invariant DrainInvariant(heap[..k], output.values, n, multiset(kept), outside)
    {
      DrainNext(heap, k, output, n, multiset(kept), outside);
      k := k - 1;
    }
  }

  /** Midway through a drain: the heap still holds `heap`, the positions of
      the output from `|heap|` to `n` hold the rows drained so far, ascending
      and not better than any row left, and the rest of the output is as it
      was. */
  ghost predicate DrainInvariant(heap: seq<int>, out: seq<int>, n: nat, kept: multiset<int>,
                                 outside: seq<int>)
  {
    && |heap| <= n <= |out| == |outside|
    && IsMaxHeap(heap)
    && Sorted(out[|heap|..n])
    && (|heap| < n ==> forall x :: x in heap ==> x <= out[|heap|])
    && multiset(heap) + multiset(out[|heap|..n]) == kept
    && out[n..] == outside[n..]
  }

  /** One round of the drain: pops the root of `heap[..k]` into output
      position `k - 1`. */
  method DrainNext(heap: array<int>, k: nat, output: LongBigArray, n: nat,
                   ghost kept: multiset<int>, ghost outside: seq<int>)
    requires 0 < k <= heap.Length
    requires DrainInvariant(heap[..k], output.values, n, kept, outside)
    modifies heap, output
    ensures DrainInvariant(heap[..k - 1], output.values, n, kept, outside)
  {
    ghost var before := heap[..k];
    var root := PopInPlace(heap, k);
    DrainStep(before, heap[..k - 1], output.values, n, kept, outside);
    output.values := output.values[k - 1 := root];
  }

  /** Removes the root of the heap `heap[..k]`: the last element takes its
      place and is sifted down, leaving a heap of the other rows in
      `heap[..k - 1]`. */
  method PopInPlace(heap: array<int>, k: nat) returns (root: int)
    requires 0 < k <= heap.Length && IsMaxHeap(heap[..k])
    modifies heap
    ensures root == old(heap[0]) && IsMaxHeap(heap[..k - 1])
    ensures multiset(heap[..k - 1]) + multiset{root} == old(multiset(heap[..k]))
  {
    ghost var before := heap[..k];
    root := heap[0];
    PopRoot(before);
    heap[0] := heap[k - 1];
    assert heap[..k - 1] == before[0 := before[k - 1]][..k - 1];
    if k - 1 > 0 {
      SiftDown(heap, k - 1, 0);
    }
  }

  /** One drain step on the abstract state: the popped root, written just
      before the already drained suffix, keeps that suffix ascending and
      bounds what is left in the heap. */
  lemma DrainStep(before: seq<int>, after: seq<int>, out: seq<int>, n: nat, kept: multiset<int>,
                  outside: seq<int>)
    requires |before| > 0 && DrainInvariant(before, out, n, kept, outside)
    requires IsMaxHeap(after) && multiset(after) + multiset{before[0]} == multiset(before)
    ensures |after| == |before| - 1
    ensures DrainInvariant(after, out[|before| - 1 := before[0]], n, kept, outside)
  {
    assert |after| == |multiset(after)| == |multiset(before)| - 1 == |before| - 1;
    assert before[0] in before;
    var k := |before| - 1;
    var drained := out[k := before[0]];
    DrainStepSorted(before[0], out, k, n);
    DrainStepBound(before, after);
    assert drained[k..n] == [before[0]] + out[k + 1..n];
    assert drained[n..] == out[n..];
  }

  /** Writing a row not worse than an ascending suffix's first row just
      before it extends the suffix. */
  lemma DrainStepSorted(root: int, out: seq<int>, k: nat, n: nat)
    requires k < n <= |out|
    requires Sorted(out[k + 1..n])
    requires k + 1 < n ==> root <= out[k + 1]
    ensures Sorted(out[k := root][k..n])
  {
    var drained := out[k := root];
    forall i, j | k <= i < j < n
      ensures drained[i] <= drained[j]
    {
      if i == k {
        assert out[k + 1..n][0] <= out[k + 1..n][j - k - 1];
      } else {
        assert out[k + 1..n][i - k - 1] <= out[k + 1..n][j - k - 1];
      }
    }
  }

  /** The rows left after popping a heap's root are bounded by it. */
  lemma DrainStepBound(before: seq<int>, after: seq<int>)
    requires |before| > 0 && IsMaxHeap(before)
    requires multiset(after) + multiset{before[0]} == multiset(before)
    ensures forall x :: x in after ==> x <= before[0]
  {
    RootIsLargest(before);
    forall x | x in after
      ensures x <= before[0]
    {
      assert multiset(before)[x] == multiset(after)[x] + multiset{before[0]}[x];
      assert x in multiset(before);
      assert x in before;
    }
  }

  /** Appends `rowId` to the heap `heap[..n]` and sifts it up. */
  method PushInPlace(heap: array<int>, n: nat, rowId: int)
    requires n < heap.Length && IsMaxHeap(heap[..n])
    modifies heap
    ensures IsMaxHeap(heap[..n + 1])
    ensures multiset(heap[..n + 1]) == old(multiset(heap[..n])) + multiset{rowId}
  {
    heap[n] := rowId;
    assert heap[..n + 1] == old(heap[..n]) + [rowId];
    SiftUp(heap, n + 1, n);
  }

  /** Overwrites the root of the heap `heap[..n]` with `rowId` and sifts it
      down. */
  method ReplaceRootInPlace(heap: array<int>, n: nat, rowId: int)
    requires 0 < n <= heap.Length && IsMaxHeap(heap[..n])
    modifies heap
    ensures IsMaxHeap(heap[..n])
    ensures multiset(heap[..n]) == old(multiset(heap[..n])) - multiset{old(heap[0])} + multiset{rowId}
  {
    ghost var before := heap[..n];
    heap[0] := rowId;
    assert heap[..n] == before[0 := rowId];
    SiftDown(heap, n, 0);
  }

  class GroupedTopNRowNumberAccumulator {
    const topN: nat
    const listener: EvictionListener
    /** One heap slice of capacity `topN` per group id. */
    var heaps: seq<array<int>>
    /** The occupied count of each group's slice. */
    var sizes: seq<nat>

    /** The abstract state: the rows each group keeps, in heap order. */
    ghost var Groups: seq<seq<int>>
    ghost var Repr: set<object>

    /** The storage layout: a slice of capacity `topN` per group, no two groups
        sharing a slice, and `Groups` the occupied prefixes. */
    ghost predicate WellFormed()
      reads this, Repr
    {
      && this in Repr && listener !in Repr
      && 1 <= topN
      && |heaps| == |sizes| == |Groups|
      && (forall g :: 0 <= g < |heaps| ==>
            && heaps[g] in Repr
            && heaps[g].Length == topN
            && sizes[g] <= topN
            && Groups[g] == heaps[g][..sizes[g]])
      && (forall g, h :: 0 <= g < h < |heaps| ==> heaps[g] != heaps[h])
    }

    /** The object invariant: the layout, and every group a max-heap. */
    ghost predicate Valid()
      reads this, Repr
    {
      WellFormed() && forall g :: 0 <= g < |Groups| ==> IsMaxHeap(Groups[g])
    }

    constructor (topN: nat, listener: EvictionListener)
      requires topN >= 1
      ensures Valid() && fresh(Repr)
      ensures this.topN == topN && this.listener == listener && Groups == []
    {
      this.topN := topN;
      this.listener := listener;
      heaps := [];
      sizes := [];
      Groups := [];
      Repr := {this};
    }

    /** Grows the group table so that `groupId` exists; every new group
        starts empty. */
    method EnsureGroupExists(groupId: nat)
      requires Valid()
      modifies this
      ensures Valid() && fresh(Repr - old(Repr))
      ensures Groups == WithGroup(old(Groups), groupId)
    {
      while |heaps| <= groupId
        invariant Valid() && fresh(Repr - old(Repr))
        invariant |old(Groups)| <= |Groups| <= Max(|old(Groups)|, groupId + 1)
        invariant Groups[..|old(Groups)|] == old(Groups)
        invariant forall h :: |old(Groups)| <= h < |Groups| ==> Groups[h] == []
        decreases groupId - |heaps|
      {
        var heap := new int[topN];
        heaps := heaps + [heap];
        sizes := sizes + [0];
        Groups := Groups + [[]];
        Repr := Repr + {heap};
      }
      assert Groups == WithGroup(old(Groups), groupId);
    }

    /** Offers the row behind `row` to group `groupId`.  A group that is not
        full accepts it; a full group accepts it only when it is better than
        the root, which is then evicted.  The row id is extracted exactly when
        the row is accepted. */
    method Add(groupId: nat, row: TestingRowReference) returns (accepted: bool)
      requires Valid()
      modifies Repr, row, listener
      ensures Valid() && fresh(Repr - old(Repr))
      ensures |Groups| == |WithGroup(old(Groups), groupId)|
      ensures Groups == WithGroup(old(Groups), groupId)[groupId := Groups[groupId]]
      ensures row.rowId == old(row.rowId)
      ensures accepted <==>
        (|old(GroupOf(Groups, groupId))| < topN || row.rowId < old(GroupOf(Groups, groupId))[0])
      ensures accepted ==> row.rowIdExtracted
      ensures !accepted ==>
        && row.rowIdExtracted == old(row.rowIdExtracted)
        && Groups[groupId] == old(GroupOf(Groups, groupId))
        && listener.received == old(listener.received)
      ensures accepted && |old(GroupOf(Groups, groupId))| < topN ==>
        && multiset(Groups[groupId]) == old(multiset(GroupOf(Groups, groupId))) + multiset{row.rowId}
        && listener.received == old(listener.received)
      ensures accepted && |old(GroupOf(Groups, groupId))| == topN ==>
        && multiset(Groups[groupId]) ==
             old(multiset(GroupOf(Groups, groupId))) - multiset{old(GroupOf(Groups, groupId))[0]}
             + multiset{row.rowId}
        && listener.received == old(listener.received) + [old(GroupOf(Groups, groupId))[0]]
    {
      EnsureGroupExists(groupId);
      assert Groups[groupId] == old(GroupOf(Groups, groupId));
      if sizes[groupId] < topN {
        accepted := AddToOpenGroup(groupId, row);
      } else {
        accepted := OfferToFullGroup(groupId, row);
      }
    }

    /** A group that is not full takes the row: its id is extracted and
        inserted into the group's heap. */
    method AddToOpenGroup(groupId: nat, row: TestingRowReference) returns (accepted: bool)
      requires Valid() && groupId < |Groups| && |Groups[groupId]| < topN
      modifies this, heaps[groupId], row
      ensures Valid() && Repr == old(Repr) && accepted
      ensures |Groups| == old(|Groups|) && Groups == old(Groups)[groupId := Groups[groupId]]
      ensures row.rowId == old(row.rowId) && row.rowIdExtracted
      ensures multiset(Groups[groupId]) == old(multiset(Groups[groupId])) + multiset{row.rowId}
    {
      var id := row.AllocateRowId();
      HeapInsert(groupId, id);
      accepted := true;
    }

    /** A full group takes the row only when it is better than the group's
        worst row, the heap root, which is then evicted to the listener. */
    method OfferToFullGroup(groupId: nat, row: TestingRowReference) returns (accepted: bool)
      requires Valid() && groupId < |Groups| && |Groups[groupId]| == topN
      modifies this, heaps[groupId], row, listener
      ensures Valid() && Repr == old(Repr)
      ensures |Groups| == old(|Groups|) && Groups == old(Groups)[groupId := Groups[groupId]]
      ensures row.rowId == old(row.rowId)
      ensures accepted <==> row.rowId < old(Groups[groupId][0])
      ensures accepted ==>
        && row.rowIdExtracted
        && multiset(Groups[groupId])
           == old(multiset(Groups[groupId])) - multiset{old(Groups[groupId][0])} + multiset{row.rowId}
        && listener.received == old(listener.received) + [old(Groups[groupId][0])]
      ensures !accepted ==>
        && row.rowIdExtracted == old(row.rowIdExtracted)
        && Groups[groupId] == old(Groups[groupId])
        && listener.received == old(listener.received)
    {
      var c := row.CompareTo(heaps[groupId][0]);
      if c < 0 {
        var id := row.AllocateRowId();
        listener.Accept(heaps[groupId][0]);
        HeapReplaceRoot(groupId, id);
        accepted := true;
      } else {
        accepted := false;
      }
    }

    /** Appends `rowId` to a group that is not full and sifts it up. */
    method HeapInsert(groupId: nat, rowId: int)
      requires Valid() && groupId < |Groups| && |Groups[groupId]| < topN
      modifies this, heaps[groupId]
      ensures Valid() && Repr == old(Repr)
      ensures heaps == old(heaps) && |Groups| == old(|Groups|)
      ensures Groups == old(Groups)[groupId := Groups[groupId]]
      ensures multiset(Groups[groupId]) == old(multiset(Groups[groupId])) + multiset{rowId}
    {
      var heap := heaps[groupId];
      var size := sizes[groupId];
      PushInPlace(heap, size, rowId);
      sizes := sizes[groupId := size + 1];
      Groups := Groups[groupId := heap[..size + 1]];
    }

    /** Overwrites the root of a full group with `rowId` and sifts it down. */
    method HeapReplaceRoot(groupId: nat, rowId: int)
      requires Valid() && groupId < |Groups| && |Groups[groupId]| == topN
      modifies this, heaps[groupId]
      ensures Valid() && Repr == old(Repr)
      ensures heaps == old(heaps) && |Groups| == old(|Groups|)
      ensures Groups == old(Groups)[groupId := Groups[groupId]]
      ensures multiset(Groups[groupId]) ==
        old(multiset(Groups[groupId])) - multiset{old(Groups[groupId][0])} + multiset{rowId}
    {
      var heap := heaps[groupId];
      var size := sizes[groupId];
      ReplaceRootInPlace(heap, size, rowId);
      Groups := Groups[groupId := heap[..size]];
    }

    /** Writes the rows of group `groupId` to the front of `output` in
        ascending order and leaves the group empty, returning how many rows
        were written. */
    method DrainTo(groupId: nat, output: LongBigArray) returns (count: nat)
      requires Valid()
      modifies Repr, output
      ensures Valid() && Repr == old(Repr)
      ensures Groups == if groupId < old(|Groups|) then old(Groups)[groupId := []] else old(Groups)
      ensures count == old(|GroupOf(Groups, groupId)|)
      ensures |output.values| == Max(old(|output.values|), count)
      ensures Sorted(output.values[..count])
      ensures multiset(output.values[..count]) == old(multiset(GroupOf(Groups, groupId)))
      ensures forall j :: count <= j < |output.values| ==> output.values[j] == old(output.values[j])
    {
      if groupId >= |heaps| {
        return 0;
      }
      var heap := heaps[groupId];
      count := sizes[groupId];
      if |output.values| < count {
        output.values := output.values + seq(count - |output.values|, _ => 0);
      }
      DrainHeap(heap, count, output);
      sizes := sizes[groupId := 0];
      Groups := Groups[groupId := []];
    }

    /** The diagnostic walk: reports whether every group's slice is a
        max-heap, reading the state and changing nothing. */
    method VerifyIntegrity() returns (ok: bool)
      requires WellFormed()
      ensures ok <==> forall g :: 0 <= g < |Groups| ==> IsMaxHeap(Groups[g])
    {
      ok := true;
      var g := 0;
      while g < |heaps|
        invariant 0 <= g <= |heaps|
        invariant ok <==> forall h :: 0 <= h < g ==> IsMaxHeap(Groups[h])
      {
        var heap, size := heaps[g], sizes[g];
        var groupOk := true;
        var i := 1;
        while i < size
          invariant 1 <= i <= Max(size, 1)
          invariant groupOk <==> forall j :: 0 < j < i ==> heap[Parent(j)] >= heap[j]
        {
          if heap[Parent(i)] < heap[i] {
            groupOk := false;
          }
          i := i + 1;
        }
        assert groupOk <==> IsMaxHeap(Groups[g]);
        ok := ok && groupOk;
        g := g + 1;
      }
    }
  }
}

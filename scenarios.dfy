/** The accumulator's test scenarios, run on the imperative model through
    the testing row handle: each scenario states which adds are accepted,
    which row ids are extracted, what the eviction listener has received
    after every add and what each drain writes, and proves it by replaying
    the scenario's script against the reference run. */
module AccumulatorScenarios {
  import opened RowReferences
  import opened TopNReference
  import opened TopNAccumulator
  import opened AccumulatorRefinement
  import opened ScenarioTraces
  import opened ManyGroupsTrace

  /** A fresh accumulator of capacity `topN` with its own listener, checked
      once before any add. */
  method NewAccumulator(topN: nat) returns (acc: GroupedTopNRowNumberAccumulator, ok: bool)
    requires 1 <= topN
    ensures fresh(acc) && fresh(acc.Repr) && fresh(acc.listener)
    ensures acc.Valid() && acc.topN == topN && acc.Groups == [] && acc.listener.received == []
    ensures ok
  {
    var listener := new EvictionListener();
    acc := new GroupedTopNRowNumberAccumulator(topN, listener);
    ok := acc.VerifyIntegrity();
  }

  /** Capacity 1: row 0 fills the group, row 1 is rejected, row -1 evicts
      row 0, and the drain yields -1. */
  method SingleGroupTopN1()
    returns (accepted: seq<bool>, extracted: seq<bool>, evictions: seq<seq<int>>,
             count: nat, drained: seq<int>, ok: bool)
    ensures accepted == extracted == [true, false, true]
    ensures evictions == [[], [], [0]]
    ensures count == 1 && drained == [-1] && ok
  {
    var acc, created := NewAccumulator(1);
    var row := new TestingRowReference();
    var script := [Offer(0, 0), Offer(0, 1), Offer(0, -1)];
    var replayed;
    accepted, extracted, evictions, replayed := Replay(acc, row, script);
    TopN1Trace(acc.topN, script);
    RunGood(acc.topN, script);
    var output := new LongBigArray();
    var drainedOk;
    count, drainedOk := DrainGroup(acc, 0, output, Run(acc.topN, script).state);
    drained := output.values[..count];
    ok := created && replayed && drainedOk;
  }

  /** Capacity 2: rows 0 and 1 fill the group, row 2 is rejected, row -2
      evicts row 1 and row -1 evicts row 0; the drain yields -2, -1. */
  method SingleGroupTopN2()
    returns (accepted: seq<bool>, extracted: seq<bool>, evictions: seq<seq<int>>,
             count: nat, drained: seq<int>, ok: bool)
    ensures accepted == extracted == [true, true, false, true, true]
    ensures evictions == [[], [], [], [1], [1, 0]]
    ensures count == 2 && drained == [-2, -1] && ok
  {
    var acc, created := NewAccumulator(2);
    var row := new TestingRowReference();
    var script := [Offer(0, 0), Offer(0, 1), Offer(0, 2), Offer(0, -2), Offer(0, -1)];
    var replayed;
    accepted, extracted, evictions, replayed := Replay(acc, row, script);
    TopN2Trace(acc.topN, script);
    RunGood(acc.topN, script);
    var output := new LongBigArray();
    var drainedOk;
    count, drainedOk := DrainGroup(acc, 0, output, Run(acc.topN, script).state);
    drained := output.values[..count];
    ok := created && replayed && drainedOk;
  }

  /** Capacity 2 with one row: the drain yields the one row. */
  method SingleGroupTopN2PartialFill()
    returns (accepted: seq<bool>, extracted: seq<bool>, evictions: seq<seq<int>>,
             count: nat, drained: seq<int>, ok: bool)
    ensures accepted == extracted == [true]
    ensures evictions == [[]]
    ensures count == 1 && drained == [0] && ok
  {
    var acc, created := NewAccumulator(2);
    var row := new TestingRowReference();
    var script := [Offer(0, 0)];
    var replayed;
    accepted, extracted, evictions, replayed := Replay(acc, row, script);
    TopN2PartialFillTrace(acc.topN, script);
    RunGood(acc.topN, script);
    var output := new LongBigArray();
    var drainedOk;
    count, drainedOk := DrainGroup(acc, 0, output, Run(acc.topN, script).state);
    drained := output.values[..count];
    ok := created && replayed && drainedOk;
  }

  /** Capacity 4 with two rows: the drain yields both, ascending. */
  method SingleGroupTopN4PartialFill()
    returns (accepted: seq<bool>, extracted: seq<bool>, evictions: seq<seq<int>>,
             count: nat, drained: seq<int>, ok: bool)
    ensures accepted == extracted == [true, true]
    ensures evictions == [[], []]
    ensures count == 2 && drained == [0, 1] && ok
  {
    var acc, created := NewAccumulator(4);
    var row := new TestingRowReference();
    var script := [Offer(0, 0), Offer(0, 1)];
    var replayed;
    accepted, extracted, evictions, replayed := Replay(acc, row, script);
    TopN4PartialFillTrace(acc.topN, script);
    RunGood(acc.topN, script);
    var output := new LongBigArray();
    var drainedOk;
    count, drainedOk := DrainGroup(acc, 0, output, Run(acc.topN, script).state);
    drained := output.values[..count];
    ok := created && replayed && drainedOk;
  }

  /** Adding to group 1 first makes group 0 exist with no rows: draining it
      writes nothing. */
  method EmptyDrain() returns (added: bool, count: nat, ok: bool)
    ensures added && count == 0 && ok
  {
    var acc, created := NewAccumulator(1);
    var row := new TestingRowReference();
    var script := [Offer(1, 0)];
    var accepted, extracted, evictions, replayed := Replay(acc, row, script);
    EmptyDrainTrace(acc.topN, script);
    added := accepted[0];
    RunGood(acc.topN, script);
    var output := new LongBigArray();
    var drainedOk;
    count, drainedOk := DrainGroup(acc, 0, output, Run(acc.topN, script).state);
    ok := created && replayed && drainedOk;
  }

  /** The ids evicted by the many-groups scenario are the first batch. */
  lemma EvictedDownRange(n: nat, x: int)
    ensures x in EvictedDown(n) <==> 1999 - n < x <= 1999
  {
    if 1999 - n < x <= 1999 {
      assert EvictedDown(n)[1999 - x] == x;
    }
  }

  /** Drains groups `0..groupCount - 1` in turn into one shared buffer, as
      the many-groups scenario does: each drain yields that group's rows,
      ascending. */
  method DrainEvery(acc: GroupedTopNRowNumberAccumulator, groupCount: nat, output: LongBigArray,
                    ghost st: State)
    returns (counts: seq<nat>, drained: seq<seq<int>>, ok: bool)
    requires Agrees(acc, st) && Good(st, acc.topN) && output !in acc.Repr
    requires groupCount == |st.groups|
    modifies acc.Repr, output
    ensures |counts| == |drained| == |st.groups|
    ensures forall g :: 0 <= g < |st.groups| ==> counts[g] == |st.groups[g]| && drained[g] == st.groups[g]
    ensures ok
  {
    counts, drained, ok := [], [], true;
    ghost var cur := st;
    var h := 0;
    while h < groupCount
      invariant 0 <= h <= |st.groups| && output !in acc.Repr && acc.Repr == old(acc.Repr)
      invariant Agrees(acc, cur) && |cur.groups| == |st.groups|
      invariant forall g :: h <= g < |st.groups| ==> cur.groups[g] == st.groups[g]
      invariant |counts| == |drained| == h
      invariant forall g :: 0 <= g < h ==> counts[g] == |st.groups[g]| && drained[g] == st.groups[g]
      invariant ok
    {
      var count, drainedOk := DrainGroup(acc, h, output, cur);
      counts, drained := counts + [count], drained + [output.values[..count]];
      ok := ok && drainedOk;
      cur := cur.(groups := cur.groups[h := []]);
      h := h + 1;
    }
  }

  /** Ten groups of capacity 100 and one shared drain buffer. */
  method MultipleGroups()
    returns (accepted: seq<bool>, extracted: seq<bool>, evictions: seq<seq<int>>,
             evicted: seq<int>, counts: seq<nat>, drained: seq<seq<int>>, ok: bool)
    ensures |accepted| == 3000 && accepted == extracted && |evictions| == 3000
    ensures forall k :: 0 <= k < 3000 ==> (accepted[k] <==> k < 1000 || 2000 <= k)
    ensures forall k :: 0 <= k < 2000 ==> evictions[k] == []
    ensures forall x :: x in evicted <==> 1000 <= x < 2000
    ensures |counts| == 10 && forall h :: 0 <= h < 10 ==> counts[h] == 100
    ensures |drained| == 10 && forall h :: 0 <= h < 10 ==> |drained[h]| == 100
    ensures forall h, j :: 0 <= h < 10 && 0 <= j < 100 ==> drained[h][j] == 10 * j + h
    ensures ok
  {
    var acc, created := NewAccumulator(100);
    var row := new TestingRowReference();
    var script := MultiScript();
    var replayed;
    accepted, extracted, evictions, replayed := Replay(acc, row, script);
    MultiTrace(acc.topN);
    ghost var final := Run(acc.topN, script).state;
    evicted := acc.listener.received;
    forall x
      ensures x in evicted <==> 1000 <= x < 2000
    {
      EvictedDownRange(1000, x);
    }
    forall k | 0 <= k < 2000
      ensures evictions[k] == []
    {
      assert evictions[k] == MultiHistory(k);
    }
    RunGood(acc.topN, script);
    var output := new LongBigArray();
    var drainedOk;
    counts, drained, drainedOk := DrainEvery(acc, 10, output, Run(acc.topN, script).state);
    ok := created && replayed && drainedOk;
  }
}

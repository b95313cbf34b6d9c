/** The imperative accumulator against the reference definition: driving it
    with a script of offers through the testing row handle keeps its groups
    holding exactly the reference's rows, evicts exactly the reference's rows
    in the same order, extracts a row id exactly when the reference accepts
    the row, and drains each group to the reference's ascending rows. */
module AccumulatorRefinement {
  import opened Heaps
  import opened RowReferences
  import opened TopNReference
  import opened TopNAccumulator

  /** The accumulator holds the reference state `st`: the same groups, each
      with the same rows, and the same evictions so far. */
  ghost predicate Agrees(acc: GroupedTopNRowNumberAccumulator, st: State)
    reads acc, acc.Repr, acc.listener
  {
    && acc.Valid()
    && |acc.Groups| == |st.groups|
    && (forall g :: 0 <= g < |st.groups| ==> multiset(acc.Groups[g]) == multiset(st.groups[g]))
    && acc.listener.received == st.evicted
  }

  /** A heap and an ascending sequence holding the same rows agree on the
      worst row: the root of the one is the last of the other. */
  lemma HeapRootIsSortedLast(h: seq<int>, s: seq<int>)
    requires IsMaxHeap(h) && Sorted(s) && multiset(h) == multiset(s) && |s| > 0
    ensures |h| == |s| && h[0] == s[|s| - 1]
  {
    assert |h| == |multiset(h)| == |multiset(s)| == |s|;
    assert s[|s| - 1] in multiset(h);
    forall x | x in h
      ensures x <= s[|s| - 1]
    {
      assert x in multiset(s);
    }
    RootIsTheBound(h, s[|s| - 1]);
  }

  /** Multiset form of the reference's replacement of the worst row. */
  lemma ReplaceWorst(kept: seq<int>, topN: nat, x: int)
    requires 1 <= topN && |kept| == topN && x < kept[|kept| - 1]
    ensures multiset(OfferRow(kept, topN, x).kept)
         == multiset(kept) - multiset{kept[|kept| - 1]} + multiset{x}
  {
    var init := kept[..|kept| - 1];
    assert kept == init + [kept[|kept| - 1]];
  }

  /** The contract of `Add` on one group's heap, against the reference's
      offer to the same rows kept in ascending order: the same decision, the
      same rows afterwards and the same eviction. */
  lemma GroupFollowsOffer(heap: seq<int>, kept: seq<int>, topN: nat, x: int, accepted: bool,
                          afterHeap: seq<int>, evictedBefore: seq<int>, evictedAfter: seq<int>)
    requires 1 <= topN && Sorted(kept) && |kept| <= topN
    requires IsMaxHeap(heap) && multiset(heap) == multiset(kept)
    requires accepted <==> |heap| < topN || x < heap[0]
    requires !accepted ==> afterHeap == heap && evictedAfter == evictedBefore
    requires accepted && |heap| < topN ==>
      multiset(afterHeap) == multiset(heap) + multiset{x} && evictedAfter == evictedBefore
    requires accepted && |heap| == topN ==>
      && multiset(afterHeap) == multiset(heap) - multiset{heap[0]} + multiset{x}
      && evictedAfter == evictedBefore + [heap[0]]
    ensures var out := OfferRow(kept, topN, x);
      && accepted == out.accepted
      && multiset(afterHeap) == multiset(out.kept)
      && evictedAfter == evictedBefore + out.evicted
  {
    var out := OfferRow(kept, topN, x);
    if |kept| > 0 {
      HeapRootIsSortedLast(heap, kept);
    } else {
      assert |heap| == |multiset(heap)| == 0;
    }
    OfferRowEffect(kept, topN, x);
    if out.accepted && |kept| == topN {
      ReplaceWorst(kept, topN, x);
    }
  }

  /** Replacing one group by rows agreeing with the reference's keeps the
      two group tables holding the same rows group by group. */
  lemma SameRowsAfterUpdate(before: seq<seq<int>>, groups: seq<seq<int>>, g0: nat,
                            a: seq<int>, b: seq<int>)
    requires |before| == |groups|
    requires forall g :: 0 <= g < |before| ==> multiset(before[g]) == multiset(groups[g])
    requires multiset(a) == multiset(b)
    ensures var x, y := WithGroup(before, g0)[g0 := a], WithGroup(groups, g0)[g0 := b];
      |x| == |y| && forall g :: 0 <= g < |x| ==> multiset(x[g]) == multiset(y[g])
  {
    var x, y := WithGroup(before, g0)[g0 := a], WithGroup(groups, g0)[g0 := b];
    forall g | 0 <= g < |x|
      ensures multiset(x[g]) == multiset(y[g])
    {
      if g != g0 {
        assert x[g] == GroupOf(before, g) && y[g] == GroupOf(groups, g);
      }
    }
  }

  /** The contract of `Add`, on the abstract state, brings a state that
      agrees with the reference to one that agrees with the reference's
      step. */
  lemma AddFollowsStep(before: seq<seq<int>>, after: seq<seq<int>>, evictedBefore: seq<int>,
                       evictedAfter: seq<int>, st: State, topN: nat, o: Offer, accepted: bool)
    requires 1 <= topN && Good(st, topN)
    requires |before| == |st.groups| && evictedBefore == st.evicted
    requires forall g :: 0 <= g < |before| ==> multiset(before[g]) == multiset(st.groups[g])
    requires IsMaxHeap(GroupOf(before, o.group))
    requires |after| == |WithGroup(before, o.group)|
    requires after == WithGroup(before, o.group)[o.group := after[o.group]]
    requires accepted <==>
      |GroupOf(before, o.group)| < topN || o.rowId < GroupOf(before, o.group)[0]
    requires !accepted ==>
      after[o.group] == GroupOf(before, o.group) && evictedAfter == evictedBefore
    requires accepted && |GroupOf(before, o.group)| < topN ==>
      && multiset(after[o.group]) == multiset(GroupOf(before, o.group)) + multiset{o.rowId}
      && evictedAfter == evictedBefore
    requires accepted && |GroupOf(before, o.group)| == topN ==>
      && multiset(after[o.group])
         == multiset(GroupOf(before, o.group)) - multiset{GroupOf(before, o.group)[0]}
            + multiset{o.rowId}
      && evictedAfter == evictedBefore + [GroupOf(before, o.group)[0]]
    ensures var next := Step(st, topN, o);
      && |after| == |next.groups| && evictedAfter == next.evicted
      && (forall g :: 0 <= g < |after| ==> multiset(after[g]) == multiset(next.groups[g]))
      && accepted == OfferRow(GroupOf(st.groups, o.group), topN, o.rowId).accepted
  {
    var kept := GroupOf(st.groups, o.group);
    assert multiset(GroupOf(before, o.group)) == multiset(kept);
    GroupFollowsOffer(GroupOf(before, o.group), kept, topN, o.rowId, accepted, after[o.group],
                      evictedBefore, evictedAfter);
    var out := OfferRow(kept, topN, o.rowId);
    SameRowsAfterUpdate(before, st.groups, o.group, after[o.group], out.kept);
  }

  /** One offer through the row handle: points the handle at `o.rowId`, adds
      it to group `o.group`, runs the integrity check and reads back whether
      the row id was extracted. */
  method OfferOne(acc: GroupedTopNRowNumberAccumulator, row: TestingRowReference, o: Offer,
                  ghost st: State)
    returns (added: bool, extracted: bool, ok: bool)
    requires Agrees(acc, st) && Good(st, acc.topN) && row !in acc.Repr
    modifies acc.Repr, row, acc.listener
    ensures fresh(acc.Repr - old(acc.Repr)) && row !in acc.Repr
    ensures Agrees(acc, Step(st, acc.topN, o))
    ensures ok && extracted == added
    ensures added == OfferRow(GroupOf(st.groups, o.group), acc.topN, o.rowId).accepted
  {
    ghost var before, evictedBefore := acc.Groups, acc.listener.received;
    assert IsMaxHeap(GroupOf(before, o.group));
    row.SetRowId(o.rowId);
    added := acc.Add(o.group, row);
    ok := acc.VerifyIntegrity();
    extracted := row.IsRowIdExtracted();
    AddFollowsStep(before, acc.Groups, evictedBefore, acc.listener.received, st, acc.topN, o, added);
  }

  /** The `i`-th offer of `script`, taking the accumulator from the
      reference's state after `script[..i]` to its state after
      `script[..i + 1]`. */
  method ReplayStep(acc: GroupedTopNRowNumberAccumulator, row: TestingRowReference,
                    script: seq<Offer>, i: nat)
    returns (added: bool, extracted: bool, evicted: seq<int>, ok: bool)
    requires 1 <= acc.topN && i < |script| && row !in acc.Repr
    requires Agrees(acc, Run(acc.topN, script[..i]).state)
    modifies acc.Repr, row, acc.listener
    ensures fresh(acc.Repr - old(acc.Repr)) && row !in acc.Repr
    ensures Agrees(acc, Run(acc.topN, script[..i + 1]).state)
    ensures Run(acc.topN, script[..i + 1]).accepted == Run(acc.topN, script[..i]).accepted + [added]
    ensures Run(acc.topN, script[..i + 1]).evictedAfter
         == Run(acc.topN, script[..i]).evictedAfter + [evicted]
    ensures extracted == added && ok
  {
    ghost var prev := Run(acc.topN, script[..i]);
    RunGood(acc.topN, script[..i]);
    RunExtends(acc.topN, script, i);
    added, extracted, ok := OfferOne(acc, row, script[i], prev.state);
    evicted := acc.listener.received;
  }

  /** Replays `script` on a fresh accumulator through one row handle: the
      accumulator ends in the reference's state, each offer is accepted and
      extracted exactly when the reference accepts it, the evictions seen
      after each offer are the reference's, and every integrity check
      passes. */
  method Replay(acc: GroupedTopNRowNumberAccumulator, row: TestingRowReference, script: seq<Offer>)
    returns (accepted: seq<bool>, extracted: seq<bool>, evictions: seq<seq<int>>, ok: bool)
    requires acc.Valid() && acc.Groups == [] && acc.listener.received == [] && row !in acc.Repr
    modifies acc.Repr, row, acc.listener
    ensures fresh(acc.Repr - old(acc.Repr)) && row !in acc.Repr
    ensures Agrees(acc, Run(acc.topN, script).state)
    ensures accepted == extracted == Run(acc.topN, script).accepted
    ensures evictions == Run(acc.topN, script).evictedAfter
    ensures ok
  {
    accepted, extracted, evictions, ok := [], [], [], true;
    var i := 0;
    while i < |script|
      invariant 0 <= i <= |script|
      invariant fresh(acc.Repr - old(acc.Repr)) && row !in acc.Repr
      invariant Agrees(acc, Run(acc.topN, script[..i]).state)
      invariant accepted == extracted == Run(acc.topN, script[..i]).accepted
      invariant evictions == Run(acc.topN, script[..i]).evictedAfter
      invariant ok
    {
      var added, wasExtracted, evicted, checked := ReplayStep(acc, row, script, i);
      accepted, extracted := accepted + [added], extracted + [wasExtracted];
      evictions, ok := evictions + [evicted], ok && checked;
      i := i + 1;
    }
    assert script[..i] == script;
  }

  /** Drains group `g` into `output`: the rows written to its front are the
      reference's rows of that group, in ascending order, the rest of the
      buffer is untouched and the group is left empty. */
  method DrainGroup(acc: GroupedTopNRowNumberAccumulator, g: nat, output: LongBigArray,
                    ghost st: State)
    returns (count: nat, ok: bool)
    requires Agrees(acc, st) && Sorted(GroupOf(st.groups, g)) && output !in acc.Repr
    modifies acc.Repr, output
    ensures acc.Repr == old(acc.Repr)
    ensures Agrees(acc, st.(groups := if g < |st.groups| then st.groups[g := []] else st.groups))
    ensures count == |GroupOf(st.groups, g)|
    ensures |output.values| == Max(old(|output.values|), count)
    ensures output.values[..count] == GroupOf(st.groups, g) && ok
    ensures forall j :: count <= j < |output.values| ==> output.values[j] == old(output.values[j])
  {
    assert multiset(GroupOf(acc.Groups, g)) == multiset(GroupOf(st.groups, g));
    count := acc.DrainTo(g, output);
    ok := acc.VerifyIntegrity();
    assert count == |multiset(GroupOf(st.groups, g))|;
    SortedUnique(output.values[..count], GroupOf(st.groups, g));
  }
}

/** A heap-free reference definition of the grouped Top-N accumulator: every
    group keeps its rows as an ascending sequence, best row first, so the
    worst kept row is the last one.  The imperative accumulator is proved
    against this definition, and the Top-N promise is proved about it. */
module TopNReference {
  import opened Heaps

  function Min(x: int, y: int): int {
    if x < y then x else y
  }

  /** The rows kept for group `g`; a group not yet referenced keeps none. */
  function GroupOf(groups: seq<seq<int>>, g: nat): seq<int> {
    if g < |groups| then groups[g] else []
  }

  /** Referencing group `g` makes groups `0..g` exist; the new ones are empty
      and the existing ones keep their rows. */
  function WithGroup(groups: seq<seq<int>>, g: nat): (r: seq<seq<int>>)
    ensures |r| == if g < |groups| then |groups| else g + 1
    ensures forall h: nat :: GroupOf(r, h) == GroupOf(groups, h)
  {
    if g < |groups| then groups else groups + seq(g + 1 - |groups|, _ => [])
  }

  /** Places `x` into an ascending sequence, after the rows not worse than it. */
  function InsertSorted(s: seq<int>, x: int): (r: seq<int>)
    ensures |r| == |s| + 1
    ensures multiset(r) == multiset(s) + multiset{x}
    decreases |s|
  {
    if |s| == 0 || x < s[0] then [x] + s
    else
      assert s == [s[0]] + s[1..];
      [s[0]] + InsertSorted(s[1..], x)
  }

  lemma {:induction false} InsertSortedIsSorted(s: seq<int>, x: int)
    requires Sorted(s)
    ensures Sorted(InsertSorted(s, x))
    decreases |s|
  {
    if |s| > 0 && x >= s[0] {
      var tail := s[1..];
      var rest := InsertSorted(tail, x);
      InsertSortedIsSorted(tail, x);
      forall k | 0 <= k < |rest|
        ensures s[0] <= rest[k]
      {
        assert rest[k] in multiset(rest);
        if rest[k] != x {
          assert rest[k] in multiset(tail);
          assert rest[k] in tail;
        }
      }
      assert InsertSorted(s, x) == [s[0]] + rest;
    }
  }

  /** What offering a row to one group does. */
  datatype Outcome = Outcome(kept: seq<int>, accepted: bool, evicted: seq<int>)

  /** Offers `x` to a group keeping `kept` (ascending, at most `topN` rows):
      a group that is not full takes it; a full group takes it only when it
      is better than the worst kept row, which is then evicted. */
  function OfferRow(kept: seq<int>, topN: nat, x: int): (o: Outcome)
    requires 1 <= topN && |kept| <= topN
  {
    if |kept| < topN then Outcome(InsertSorted(kept, x), true, [])
    else if x < kept[|kept| - 1] then
      Outcome(InsertSorted(kept[..|kept| - 1], x), true, [kept[|kept| - 1]])
    else Outcome(kept, false, [])
  }

  /** The effect of one offer on the kept rows, the acceptance decision and
      the eviction, stated without the definition's case split. */
  lemma OfferRowEffect(kept: seq<int>, topN: nat, x: int)
    requires 1 <= topN && |kept| <= topN
    ensures var o := OfferRow(kept, topN, x);
      && (o.accepted <==> |kept| < topN || x < kept[|kept| - 1])
      && |o.kept| == (if |kept| < topN then |kept| + 1 else |kept|)
      && (o.accepted ==> x in o.kept)
      && multiset(o.kept) + multiset(o.evicted)
         == multiset(kept) + (if o.accepted then multiset{x} else multiset{})
      && |o.evicted| == (if o.accepted && |kept| == topN then 1 else 0)
  {
    var o := OfferRow(kept, topN, x);
    if |kept| == topN && x < kept[|kept| - 1] {
      assert kept == kept[..|kept| - 1] + [kept[|kept| - 1]];
    }
    if o.accepted {
      assert x in multiset(o.kept);
    }
  }

  /** One offer keeps a group ascending. */
  lemma OfferRowSorted(kept: seq<int>, topN: nat, x: int)
    requires 1 <= topN && |kept| <= topN && Sorted(kept)
    ensures Sorted(OfferRow(kept, topN, x).kept)
  {
    if |kept| < topN {
      InsertSortedIsSorted(kept, x);
    } else if x < kept[|kept| - 1] {
      InsertSortedIsSorted(kept[..|kept| - 1], x);
    }
  }

  /** Inserting a row worse than every kept row appends it. */
  lemma {:induction false} InsertSortedLast(s: seq<int>, x: int)
    requires forall i :: 0 <= i < |s| ==> s[i] <= x
    ensures InsertSorted(s, x) == s + [x]
    decreases |s|
  {
    if |s| > 0 {
      InsertSortedLast(s[1..], x);
      assert s == [s[0]] + s[1..];
    }
  }

  /** Offering a row no better than any kept row to a group that is not
      full appends it. */
  lemma OfferAppends(kept: seq<int>, topN: nat, x: int)
    requires |kept| < topN && forall i :: 0 <= i < |kept| ==> kept[i] <= x
    ensures OfferRow(kept, topN, x) == Outcome(kept + [x], true, [])
  {
    InsertSortedLast(kept, x);
  }

  /** Offering a row no better than the worst kept row of a full group
      rejects it. */
  lemma OfferRejects(kept: seq<int>, topN: nat, x: int)
    requires 1 <= topN && |kept| == topN && kept[|kept| - 1] <= x
    ensures OfferRow(kept, topN, x) == Outcome(kept, false, [])
  {
  }

  /** Offering a row better than every kept row of a full group puts it in
      front and evicts the worst row. */
  lemma OfferReplacesFront(kept: seq<int>, topN: nat, x: int)
    requires 1 <= topN && |kept| == topN && Sorted(kept) && x < kept[0]
    ensures OfferRow(kept, topN, x)
         == Outcome([x] + kept[..|kept| - 1], true, [kept[|kept| - 1]])
  {
    if |kept| > 1 {
      assert kept[..|kept| - 1][0] == kept[0];
    }
  }

  /** Offering a row better than the worst kept row of a full group, but no
      better than any other, puts it in the worst row's place. */
  lemma OfferReplacesLast(kept: seq<int>, topN: nat, x: int)
    requires 1 <= topN && |kept| == topN && x < kept[|kept| - 1]
    requires forall i :: 0 <= i < |kept| - 1 ==> kept[i] <= x
    ensures OfferRow(kept, topN, x)
         == Outcome(kept[..|kept| - 1] + [x], true, [kept[|kept| - 1]])
  {
    InsertSortedLast(kept[..|kept| - 1], x);
  }

  /** A row offered to a group. */
  datatype Offer = Offer(group: nat, rowId: int)

  /** The whole accumulator: the rows of every group and the evicted row ids
      in eviction order. */
  datatype State = State(groups: seq<seq<int>>, evicted: seq<int>)

  function Step(st: State, topN: nat, o: Offer): (r: State)
    requires 1 <= topN && |GroupOf(st.groups, o.group)| <= topN
  {
    var out := OfferRow(GroupOf(st.groups, o.group), topN, o.rowId);
    State(WithGroup(st.groups, o.group)[o.group := out.kept], st.evicted + out.evicted)
  }

  /** Every group ascending and within its capacity. */
  ghost predicate Good(st: State, topN: nat) {
    forall g :: 0 <= g < |st.groups| ==> Sorted(st.groups[g]) && |st.groups[g]| <= topN
  }

  /** Every group within its capacity. */
  ghost predicate Bounded(st: State, topN: nat) {
    forall g :: 0 <= g < |st.groups| ==> |st.groups[g]| <= topN
  }

  lemma StepBounded(st: State, topN: nat, o: Offer)
    requires 1 <= topN && Bounded(st, topN)
    ensures Bounded(Step(st, topN, o), topN)
  {
    var kept := GroupOf(st.groups, o.group);
    OfferRowEffect(kept, topN, o.rowId);
  }

  lemma StepGood(st: State, topN: nat, o: Offer)
    requires 1 <= topN && Good(st, topN)
    ensures Good(Step(st, topN, o), topN)
  {
    var kept := GroupOf(st.groups, o.group);
    OfferRowSorted(kept, topN, o.rowId);
    OfferRowEffect(kept, topN, o.rowId);
  }

  /** The state after a run of offers and, per offer, whether it was
      accepted and which rows had been evicted once it was handled. */
  datatype Trace = Trace(state: State, accepted: seq<bool>, evictedAfter: seq<seq<int>>)

  /** Replays `script` on an empty accumulator of capacity `topN`. */
  function Run(topN: nat, script: seq<Offer>): (t: Trace)
    requires 1 <= topN
    ensures Bounded(t.state, topN) && |t.accepted| == |t.evictedAfter| == |script|
    decreases |script|
  {
    if |script| == 0 then Trace(State([], []), [], [])
    else
      var prev := Run(topN, script[..|script| - 1]);
      var o := script[|script| - 1];
      var next := Step(prev.state, topN, o);
      StepBounded(prev.state, topN, o);
      Trace(next,
            prev.accepted + [OfferRow(GroupOf(prev.state.groups, o.group), topN, o.rowId).accepted],
            prev.evictedAfter + [next.evicted])
  }

  /** Every state a run reaches has its groups ascending and within
      capacity. */
  lemma {:induction false} RunGood(topN: nat, script: seq<Offer>)
    requires 1 <= topN
    ensures Good(Run(topN, script).state, topN)
    decreases |script|
  {
    if |script| > 0 {
      var prefix := script[..|script| - 1];
      RunGood(topN, prefix);
      StepGood(Run(topN, prefix).state, topN, script[|script| - 1]);
    }
  }

  /** One offer after a run whose outcome is known, stated with the next
      trace's parts named. */
  lemma RunNext(topN: nat, script: seq<Offer>, i: nat, groups: seq<seq<int>>,
                evicted: seq<int>, accepted: seq<bool>, history: seq<seq<int>>,
                out: Outcome, groups': seq<seq<int>>, evicted': seq<int>,
                accepted': seq<bool>, history': seq<seq<int>>)
    requires 1 <= topN && i < |script|
    requires Run(topN, script[..i]) == Trace(State(groups, evicted), accepted, history)
    requires |GroupOf(groups, script[i].group)| <= topN
    requires OfferRow(GroupOf(groups, script[i].group), topN, script[i].rowId) == out
    requires groups' == WithGroup(groups, script[i].group)[script[i].group := out.kept]
    requires evicted' == evicted + out.evicted && accepted' == accepted + [out.accepted]
    requires history' == history + [evicted']
    ensures Run(topN, script[..i + 1]) == Trace(State(groups', evicted'), accepted', history')
  {
    RunExtends(topN, script, i);
  }

  /** Extending a run by the next offer of the script is one step. */
  lemma RunExtends(topN: nat, script: seq<Offer>, i: nat)
    requires 1 <= topN && i < |script|
    ensures var prev := Run(topN, script[..i]);
      var o := script[i];
      var next := Step(prev.state, topN, o);
      Run(topN, script[..i + 1])
      == Trace(next,
               prev.accepted + [OfferRow(GroupOf(prev.state.groups, o.group), topN, o.rowId).accepted],
               prev.evictedAfter + [next.evicted])
  {
    assert script[..i + 1][..i] == script[..i];
  }

  /** The row ids offered to group `g`, in offer order. */
  function OfferedTo(script: seq<Offer>, g: nat): seq<int>
    decreases |script|
  {
    if |script| == 0 then []
    else
      var last := script[|script| - 1];
      OfferedTo(script[..|script| - 1], g) + (if last.group == g then [last.rowId] else [])
  }

  /** The Top-N invariant of one group: `kept` holds min(topN, |offered|) of
      the offered rows and no offered row it does not hold is better than
      any row it holds. */
  ghost predicate KeepsBest(kept: seq<int>, offered: multiset<int>, topN: nat) {
    && multiset(kept) <= offered
    && |kept| == Min(topN, |offered|)
    && forall x, y :: x in offered - multiset(kept) && y in kept ==> y <= x
  }

  /** The last row of a non-empty ascending sequence is its largest. */
  lemma LastIsLargest(s: seq<int>)
    requires Sorted(s) && |s| > 0
    ensures forall y :: y in s ==> y <= s[|s| - 1]
  {
  }

  lemma OfferKeepsBestNotFull(kept: seq<int>, offered: multiset<int>, topN: nat, x: int)
    requires 1 <= topN && |kept| < topN && KeepsBest(kept, offered, topN)
    ensures KeepsBest(OfferRow(kept, topN, x).kept, offered + multiset{x}, topN)
  {
    var rest := offered - multiset(kept);
    assert |rest| == |offered| - |multiset(kept)| == 0;
    assert multiset(kept) == offered;
  }

  /** Trading a kept row `w` for a new row `x` moves `w` to the rows not kept. */
  lemma TradeLeftover(kept: multiset<int>, offered: multiset<int>, w: int, x: int)
    requires kept <= offered && w in kept
    ensures (offered + multiset{x}) - (kept - multiset{w} + multiset{x})
         == (offered - kept) + multiset{w}
  {
    forall z
      ensures ((offered + multiset{x}) - (kept - multiset{w} + multiset{x}))[z]
           == ((offered - kept) + multiset{w})[z]
    {
      assert kept[z] <= offered[z];
    }
  }

  lemma OfferKeepsBestReplace(kept: seq<int>, offered: multiset<int>, topN: nat, x: int)
    requires 1 <= topN && |kept| == topN && Sorted(kept) && KeepsBest(kept, offered, topN)
    requires x < kept[|kept| - 1]
    ensures KeepsBest(OfferRow(kept, topN, x).kept, offered + multiset{x}, topN)
  {
    var w := kept[|kept| - 1];
    var kept' := OfferRow(kept, topN, x).kept;
    var rest := offered - multiset(kept);
    var init := kept[..|kept| - 1];
    assert kept == init + [w];
    assert multiset(kept) == multiset(init) + multiset{w};
    assert multiset(kept) - multiset{w} == multiset(init);
    assert multiset(kept') == multiset(init) + multiset{x};
    assert w in multiset(kept);
    TradeLeftover(multiset(kept), offered, w, x);
    LastIsLargest(kept);
    assert w in kept;
    forall a, b | a in rest + multiset{w} && b in kept'
      ensures b <= a
    {
      assert b in multiset(kept');
      var bound := if b == x then x else w;
      if b != x {
        assert b in multiset(kept);
        assert b in kept;
      }
      assert b <= bound <= w;
      if a != w {
        assert a in rest;
        assert w <= a;
      }
    }
  }

  lemma OfferKeepsBestReject(kept: seq<int>, offered: multiset<int>, topN: nat, x: int)
    requires 1 <= topN && |kept| == topN && Sorted(kept) && KeepsBest(kept, offered, topN)
    requires kept[|kept| - 1] <= x
    ensures KeepsBest(OfferRow(kept, topN, x).kept, offered + multiset{x}, topN)
  {
    LastIsLargest(kept);
    assert (offered + multiset{x}) - multiset(kept) == (offered - multiset(kept)) + multiset{x};
  }

  lemma OfferKeepsBest(kept: seq<int>, offered: multiset<int>, topN: nat, x: int)
    requires 1 <= topN && |kept| <= topN && Sorted(kept) && KeepsBest(kept, offered, topN)
    ensures KeepsBest(OfferRow(kept, topN, x).kept, offered + multiset{x}, topN)
  {
    if |kept| < topN {
      OfferKeepsBestNotFull(kept, offered, topN, x);
    } else if x < kept[|kept| - 1] {
      OfferKeepsBestReplace(kept, offered, topN, x);
    } else {
      OfferKeepsBestReject(kept, offered, topN, x);
    }
  }

  /** How the last offer of a run changes one group and its offered rows. */
  lemma RunLastOffer(topN: nat, script: seq<Offer>, g: nat)
    requires 1 <= topN && |script| > 0
    ensures var prefix := script[..|script| - 1];
      var o := script[|script| - 1];
      var prev := GroupOf(Run(topN, prefix).state.groups, g);
      && GroupOf(Run(topN, script).state.groups, g)
         == (if o.group == g then OfferRow(prev, topN, o.rowId).kept else prev)
      && OfferedTo(script, g)
         == OfferedTo(prefix, g) + (if o.group == g then [o.rowId] else [])
  {
  }

  /** The Top-N promise: after any run of offers, every group keeps the
      best min(topN, offered) of the rows offered to it, in ascending
      order. */
  lemma {:induction false} RunKeepsBest(topN: nat, script: seq<Offer>, g: nat)
    requires 1 <= topN
    ensures var kept := GroupOf(Run(topN, script).state.groups, g);
      Sorted(kept) && KeepsBest(kept, multiset(OfferedTo(script, g)), topN)
    decreases |script|
  {
    if |script| > 0 {
      var prefix := script[..|script| - 1];
      var o := script[|script| - 1];
      var kept := GroupOf(Run(topN, prefix).state.groups, g);
      var offered := multiset(OfferedTo(prefix, g));
      RunKeepsBest(topN, prefix, g);
      RunLastOffer(topN, script, g);
      if o.group == g {
        OfferKeepsBest(kept, offered, topN, o.rowId);
        OfferRowSorted(kept, topN, o.rowId);
        assert multiset(OfferedTo(script, g)) == offered + multiset{o.rowId};
      } else {
        assert GroupOf(Run(topN, script).state.groups, g) == kept;
        assert OfferedTo(script, g) == OfferedTo(prefix, g);
      }
    } else {
      assert OfferedTo(script, g) == [];
      assert GroupOf(Run(topN, script).state.groups, g) == [];
    }
  }
}

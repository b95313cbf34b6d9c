/** The reference runs of the accumulator's test scenarios: for each script
    of offers, what every offer's acceptance is, what has been evicted after
    each offer and what every group ends up holding.  Capacities are lemma
    parameters pinned by a precondition, so that each run is computed step
    by step through the lemmas below. */
module ScenarioTraces {
  import opened TopNReference

  /** The first offer of a script that starts on group 0 fills that group
      with its row. */
  lemma RunOneGroupFirst(topN: nat, script: seq<Offer>)
    requires 1 <= topN && |script| > 0 && script[0].group == 0
    ensures Run(topN, script[..1]) == Trace(State([[script[0].rowId]], []), [true], [[]])
  {
    RunExtends(topN, script, 0);
    assert script[..0] == [];
    assert WithGroup([], 0) == [[]];
    assert OfferRow([], topN, script[0].rowId) == Outcome([script[0].rowId], true, []);
    var none: seq<int> := [];
    assert none + none == none;
  }

  /** An offer to the single group 0 of a run is that group's offer. */
  lemma RunOneGroupNext(topN: nat, script: seq<Offer>, i: nat, kept: seq<int>,
                        evicted: seq<int>, accepted: seq<bool>, history: seq<seq<int>>,
                        out: Outcome, evicted': seq<int>, accepted': seq<bool>,
                        history': seq<seq<int>>)
    requires 1 <= topN && i < |script| && script[i].group == 0 && |kept| <= topN
    requires Run(topN, script[..i]) == Trace(State([kept], evicted), accepted, history)
    requires OfferRow(kept, topN, script[i].rowId) == out
    requires evicted' == evicted + out.evicted && accepted' == accepted + [out.accepted]
    requires history' == history + [evicted']
    ensures Run(topN, script[..i + 1]) == Trace(State([out.kept], evicted'), accepted', history')
  {
    RunExtends(topN, script, i);
  }

  // The single-group scenarios, one offer per lemma.

  lemma TopN1Second(topN: nat, script: seq<Offer>)
    requires topN == 1 && 1 < |script| && script[1] == Offer(0, 1)
    requires Run(topN, script[..1]) == Trace(State([[0]], []), [true], [[]])
    ensures Run(topN, script[..2]) == Trace(State([[0]], []), [true, false], [[], []])
  {
    OfferRejects([0], topN, 1);
    RunOneGroupNext(topN, script, 1, [0], [], [true], [[]],
                    Outcome([0], false, []), [], [true, false], [[], []]);
  }

  lemma TopN1Third(topN: nat, script: seq<Offer>)
    requires topN == 1 && |script| == 3 && script[2] == Offer(0, -1)
    requires Run(topN, script[..2]) == Trace(State([[0]], []), [true, false], [[], []])
    ensures Run(topN, script) == Trace(State([[-1]], [0]), [true, false, true], [[], [], [0]])
  {
    OfferReplacesFront([0], topN, -1);
    assert [-1] + [0][..0] == [-1];
    RunOneGroupNext(topN, script, 2, [0], [], [true, false], [[], []],
                    Outcome([-1], true, [0]), [0], [true, false, true], [[], [], [0]]);
    assert script[..3] == script;
  }

  /** topN = 1: 0 fills the group, 1 is rejected, -1 evicts 0. */
  lemma TopN1Trace(topN: nat, script: seq<Offer>)
    requires topN == 1 && |script| == 3
    requires script[0] == Offer(0, 0) && script[1] == Offer(0, 1) && script[2] == Offer(0, -1)
    ensures Run(topN, script) == Trace(State([[-1]], [0]), [true, false, true], [[], [], [0]])
  {
    RunOneGroupFirst(topN, script);
    TopN1Second(topN, script);
    TopN1Third(topN, script);
  }

  lemma TopN2Second(topN: nat, script: seq<Offer>)
    requires topN == 2 && 1 < |script| && script[1] == Offer(0, 1)
    requires Run(topN, script[..1]) == Trace(State([[0]], []), [true], [[]])
    ensures Run(topN, script[..2]) == Trace(State([[0, 1]], []), [true, true], [[], []])
  {
    OfferAppends([0], topN, 1);
    assert [0] + [1] == [0, 1];
    RunOneGroupNext(topN, script, 1, [0], [], [true], [[]],
                    Outcome([0, 1], true, []), [], [true, true], [[], []]);
  }

  lemma TopN2Third(topN: nat, script: seq<Offer>)
    requires topN == 2 && 2 < |script| && script[2] == Offer(0, 2)
    requires Run(topN, script[..2]) == Trace(State([[0, 1]], []), [true, true], [[], []])
    ensures Run(topN, script[..3]) == Trace(State([[0, 1]], []), [true, true, false], [[], [], []])
  {
    OfferRejects([0, 1], topN, 2);
    RunOneGroupNext(topN, script, 2, [0, 1], [], [true, true], [[], []],
                    Outcome([0, 1], false, []), [], [true, true, false], [[], [], []]);
  }

  lemma TopN2Fourth(topN: nat, script: seq<Offer>)
    requires topN == 2 && 3 < |script| && script[3] == Offer(0, -2)
    requires Run(topN, script[..3]) == Trace(State([[0, 1]], []), [true, true, false], [[], [], []])
    ensures Run(topN, script[..4])
         == Trace(State([[-2, 0]], [1]), [true, true, false, true], [[], [], [], [1]])
  {
    OfferReplacesFront([0, 1], topN, -2);
    RunOneGroupNext(topN, script, 3, [0, 1], [], [true, true, false], [[], [], []],
                    Outcome([-2, 0], true, [1]), [1], [true, true, false, true],
                    [[], [], [], [1]]);
  }

  lemma TopN2Fifth(topN: nat, script: seq<Offer>)
    requires topN == 2 && |script| == 5 && script[4] == Offer(0, -1)
    requires Run(topN, script[..4])
          == Trace(State([[-2, 0]], [1]), [true, true, false, true], [[], [], [], [1]])
    ensures Run(topN, script)
         == Trace(State([[-2, -1]], [1, 0]), [true, true, false, true, true],
                  [[], [], [], [1], [1, 0]])
  {
    OfferReplacesLast([-2, 0], topN, -1);
    RunOneGroupNext(topN, script, 4, [-2, 0], [1], [true, true, false, true], [[], [], [], [1]],
                    Outcome([-2, -1], true, [0]), [1, 0], [true, true, false, true, true],
                    [[], [], [], [1], [1, 0]]);
    assert script[..5] == script;
  }

  /** topN = 2: 0 and 1 fill the group, 2 is rejected, -2 evicts 1 and -1
      evicts 0. */
  lemma TopN2Trace(topN: nat, script: seq<Offer>)
    requires topN == 2 && |script| == 5
    requires script[0] == Offer(0, 0) && script[1] == Offer(0, 1) && script[2] == Offer(0, 2)
    requires script[3] == Offer(0, -2) && script[4] == Offer(0, -1)
    ensures Run(topN, script)
         == Trace(State([[-2, -1]], [1, 0]), [true, true, false, true, true],
                  [[], [], [], [1], [1, 0]])
  {
    RunOneGroupFirst(topN, script);
    TopN2Second(topN, script);
    TopN2Third(topN, script);
    TopN2Fourth(topN, script);
    TopN2Fifth(topN, script);
  }

  /** topN = 2 with the single row 0. */
  lemma TopN2PartialFillTrace(topN: nat, script: seq<Offer>)
    requires topN == 2 && script == [Offer(0, 0)]
    ensures Run(topN, script) == Trace(State([[0]], []), [true], [[]])
  {
    RunOneGroupFirst(topN, script);
    assert script[..1] == script;
  }

  /** topN = 4 with the rows 0 and 1. */
  lemma TopN4PartialFillTrace(topN: nat, script: seq<Offer>)
    requires topN == 4 && script == [Offer(0, 0), Offer(0, 1)]
    ensures Run(topN, script) == Trace(State([[0, 1]], []), [true, true], [[], []])
  {
    RunOneGroupFirst(topN, script);
    OfferAppends([0], topN, 1);
    RunOneGroupNext(topN, script, 1, [0], [], [true], [[]],
                    Outcome([0, 1], true, []), [], [true, true], [[], []]);
    assert script[..2] == script;
  }

  /** Offering to group 1 first makes group 0 exist, empty. */
  lemma EmptyDrainTrace(topN: nat, script: seq<Offer>)
    requires topN == 1 && script == [Offer(1, 0)]
    ensures Run(topN, script) == Trace(State([[], [0]], []), [true], [[]])
  {
    RunExtends(topN, script, 0);
    assert script[..0] == [] && script[..1] == script;
    assert WithGroup([], 1) == [[], []];
    assert OfferRow([], topN, 0) == Outcome([0], true, []);
    assert [[], []][1 := [0]] == [[], [0]];
    var none: seq<int> := [];
    assert none + none == none;
  }

}

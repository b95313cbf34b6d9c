/** The reference run of the many-groups scenario: ten groups of capacity
    100.  Its script offers the ids 1000..1999, then 2000..2999, then 999
    down to 0, each to group `id % 10`.  The first batch fills every group,
    the second is rejected outright, and the third replaces every group's
    rows one at a time, evicting the first batch largest first. */
module ManyGroupsTrace {
  import opened Heaps
  import opened TopNReference

  /** The id offered at position `k` of the script. */
  function MultiId(k: int): int {
    if k < 2000 then 1000 + k else 2999 - k
  }

  /** The whole script: offer `k` carries id `MultiId(k)` to group
      `MultiId(k) % 10`. */
  function MultiScript(): seq<Offer> {
    seq(3000, k requires 0 <= k < 3000 => Offer(MultiId(k) % 10, MultiId(k)))
  }

  /** `n` ids of one group, ascending from `start`, ten apart. */
  function Stride(start: int, n: nat): seq<int> {
    seq(n, j => start + 10 * j)
  }

  /** How many of the first `n` ids of the first batch fall into group `h`. */
  function FillCount(n: nat, h: int): nat
    requires 0 <= h < 10
  {
    (n + 9 - h) / 10
  }

  /** The smallest id of group `h` (0 <= h < 10) that is greater than `x`. */
  function WindowStart(x: int, h: int): int {
    x + 1 + (h - x - 1) % 10
  }

  /** The groups while the first batch is offered, after `n` of its ids. */
  function FillGroups(n: nat): seq<seq<int>> {
    seq(if n < 10 then n else 10, h requires 0 <= h < 10 => Stride(1000 + h, FillCount(n, h)))
  }

  /** The groups once the first batch is in. */
  function FullGroups(): seq<seq<int>> {
    seq(10, h => Stride(1000 + h, 100))
  }

  /** The groups once the third batch has come down to id `x + 1`. */
  function WindowGroups(x: int): seq<seq<int>> {
    seq(10, h => Stride(WindowStart(x, h), 100))
  }

  /** The groups after the first `i` offers. */
  function MultiGroups(i: nat): seq<seq<int>> {
    if i < 1000 then FillGroups(i)
    else if i <= 2000 then FullGroups()
    else WindowGroups(2999 - i)
  }

  /** The first `n` evicted ids: 1999, 1998, and so on. */
  function EvictedDown(n: nat): seq<int> {
    seq(n, t => 1999 - t)
  }

  /** How many ids the first `i` offers evict. */
  function EvictedCount(i: int): nat {
    if i <= 2000 then 0 else i - 2000
  }

  /** Whether offer `k` is accepted. */
  predicate MultiAccepted(k: int) {
    k < 1000 || 2000 <= k
  }

  /** What has been evicted once offer `k` is done. */
  function MultiHistory(k: int): seq<int> {
    EvictedDown(EvictedCount(k + 1))
  }

  /** A stride grows by its next member. */
  lemma StrideGrows(start: int, n: nat)
    ensures Stride(start, n) + [start + 10 * n] == Stride(start, n + 1)
  {
  }

  /** A stride shifted one step down. */
  lemma StrideShifts(x: int)
    ensures [x] + Stride(x + 10, 100)[..99] == Stride(x, 100)
  {
  }

  lemma StrideIsSorted(start: int, n: nat)
    ensures Sorted(Stride(start, n))
  {
  }

  /** Group `i % 10` holds `i / 10` ids before id `1000 + i` is offered. */
  lemma FillKept(i: nat)
    requires i < 1000
    ensures GroupOf(FillGroups(i), i % 10) == Stride(1000 + i % 10, i / 10)
  {
  }

  /** The groups after offering id `1000 + i` of the first batch. */
  lemma FillGroupsNext(i: nat)
    requires i < 1000
    ensures var g := i % 10;
      WithGroup(FillGroups(i), g)[g := Stride(1000 + g, i / 10 + 1)] == FillGroups(i + 1)
  {
    var g := i % 10;
    var next := WithGroup(FillGroups(i), g)[g := Stride(1000 + g, i / 10 + 1)];
    assert |next| == |FillGroups(i + 1)|;
    forall h | 0 <= h < |next|
      ensures next[h] == FillGroups(i + 1)[h]
    {
      if h != g {
        assert next[h] == GroupOf(FillGroups(i), h);
        assert FillCount(i + 1, h) == FillCount(i, h);
      }
    }
  }

  lemma FillGroupsFull()
    ensures FillGroups(1000) == FullGroups()
  {
  }

  /** A stride that is not full takes its next member at its end. */
  lemma StrideOffer(start: int, n: nat, topN: nat)
    requires n < topN
    ensures OfferRow(Stride(start, n), topN, start + 10 * n)
         == Outcome(Stride(start, n + 1), true, [])
  {
    OfferAppends(Stride(start, n), topN, start + 10 * n);
    StrideGrows(start, n);
  }

  /** Id `1000 + i` of the first batch is appended to the `i / 10` ids its
      group already holds. */
  lemma FillOffer(topN: nat, i: nat)
    requires topN == 100 && i < 1000
    ensures var g := i % 10;
      OfferRow(Stride(1000 + g, i / 10), topN, 1000 + i)
      == Outcome(Stride(1000 + g, i / 10 + 1), true, [])
  {
    var g, q := i % 10, i / 10;
    assert i == 10 * q + g;
    assert q < topN;
    StrideOffer(1000 + g, q, topN);
  }

  /** Offer `i < 1000` appends id `1000 + i` to its group. */
  lemma FillStep(topN: nat, i: nat)
    requires topN == 100 && i < 1000
    ensures var o := MultiScript()[i];
      && |GroupOf(MultiGroups(i), o.group)| <= topN
      && OfferRow(GroupOf(MultiGroups(i), o.group), topN, o.rowId)
         == Outcome(Stride(1000 + o.group, i / 10 + 1), true, [])
      && WithGroup(MultiGroups(i), o.group)[o.group := Stride(1000 + o.group, i / 10 + 1)]
         == MultiGroups(i + 1)
  {
    var g := i % 10;
    assert MultiScript()[i] == Offer(g, 1000 + i);
    FillKept(i);
    FillOffer(topN, i);
    FillGroupsNext(i);
    if i == 999 {
      FillGroupsFull();
    }
  }

  /** Offer `1000 <= i < 2000` is rejected: its id exceeds every kept id of
      its group. */
  lemma RejectStep(topN: nat, i: nat)
    requires topN == 100 && 1000 <= i < 2000
    ensures var o := MultiScript()[i];
      && |GroupOf(MultiGroups(i), o.group)| <= topN
      && OfferRow(GroupOf(MultiGroups(i), o.group), topN, o.rowId)
         == Outcome(FullGroups()[o.group], false, [])
      && WithGroup(MultiGroups(i), o.group)[o.group := FullGroups()[o.group]]
         == MultiGroups(i + 1)
  {
    var g := i % 10;
    assert MultiScript()[i] == Offer(g, 1000 + i);
    var kept := FullGroups()[g];
    assert kept[99] == 1990 + g;
    OfferRejects(kept, topN, 1000 + i);
    assert FullGroups()[g := kept] == FullGroups();
  }

  /** The window of every group but `x % 10` is the same at `x` and `x - 1`. */
  lemma WindowGroupsNext(x: int)
    ensures var g := x % 10;
      WindowGroups(x)[g := Stride(x, 100)] == WindowGroups(x - 1)
  {
    var g := x % 10;
    var next, lower := WindowGroups(x)[g := Stride(x, 100)], WindowGroups(x - 1);
    forall h | 0 <= h < 10
      ensures next[h] == lower[h]
    {
      if h == g {
        assert WindowStart(x - 1, h) == x;
      } else {
        assert WindowStart(x - 1, h) == WindowStart(x, h);
      }
    }
  }

  lemma WindowGroupsFull()
    ensures WindowGroups(999) == FullGroups()
  {
    forall h | 0 <= h < 10
      ensures WindowGroups(999)[h] == FullGroups()[h]
    {
      assert WindowStart(999, h) == 1000 + h;
    }
  }

  lemma WindowGroupsFinal()
    ensures WindowGroups(-1) == seq(10, h => Stride(h, 100))
  {
    forall h | 0 <= h < 10
      ensures WindowStart(-1, h) == h
    {
    }
  }

  /** Offer `2000 <= i < 3000`, of id `x = 2999 - i`, puts `x` in front of
      its group and evicts that group's largest id, `x + 1000`. */
  lemma ReplaceStep(topN: nat, i: nat)
    requires topN == 100 && 2000 <= i < 3000
    ensures var o := MultiScript()[i];
      && |GroupOf(MultiGroups(i), o.group)| <= topN
      && OfferRow(GroupOf(MultiGroups(i), o.group), topN, o.rowId)
         == Outcome(Stride(o.rowId, 100), true, [o.rowId + 1000])
      && WithGroup(MultiGroups(i), o.group)[o.group := Stride(o.rowId, 100)]
         == MultiGroups(i + 1)
  {
    var x := 2999 - i;
    var g := x % 10;
    assert MultiScript()[i] == Offer(g, x);
    assert WindowStart(x, g) == x + 10;
    if i == 2000 {
      WindowGroupsFull();
    }
    var kept := Stride(x + 10, 100);
    assert GroupOf(MultiGroups(i), g) == kept;
    StrideIsSorted(x + 10, 100);
    OfferReplacesFront(kept, topN, x);
    StrideShifts(x);
    WindowGroupsNext(x);
  }

  lemma AcceptedSnoc(i: nat)
    ensures seq(i, k => MultiAccepted(k)) + [MultiAccepted(i)] == seq(i + 1, k => MultiAccepted(k))
  {
  }

  lemma HistorySnoc(i: nat)
    ensures seq(i, k => MultiHistory(k)) + [MultiHistory(i)] == seq(i + 1, k => MultiHistory(k))
  {
  }

  /** Offer `i` as one step: whether it is accepted, and the groups and
      evictions after it. */
  lemma MultiStep(topN: nat, i: nat)
    requires topN == 100 && i < 3000
    ensures var o := MultiScript()[i];
      && |GroupOf(MultiGroups(i), o.group)| <= topN
      && var out := OfferRow(GroupOf(MultiGroups(i), o.group), topN, o.rowId);
      && out.accepted == MultiAccepted(i)
      && WithGroup(MultiGroups(i), o.group)[o.group := out.kept] == MultiGroups(i + 1)
      && EvictedDown(EvictedCount(i)) + out.evicted == EvictedDown(EvictedCount(i + 1))
  {
    if i < 1000 {
      FillStep(topN, i);
    } else if i < 2000 {
      RejectStep(topN, i);
    } else {
      ReplaceStep(topN, i);
      assert EvictedDown(i - 2000) + [3999 - i] == EvictedDown(i + 1 - 2000);
    }
  }

  /** The run of the first `i` offers. */
  lemma {:induction false} MultiPrefix(topN: nat, i: nat)
    requires topN == 100 && i <= 3000
    ensures Run(topN, MultiScript()[..i])
         == Trace(State(MultiGroups(i), EvictedDown(EvictedCount(i))),
                  seq(i, k => MultiAccepted(k)), seq(i, k => MultiHistory(k)))
  {
    if i == 0 {
      assert MultiScript()[..0] == [];
    } else {
      MultiPrefix(topN, i - 1);
      MultiStep(topN, i - 1);
      AcceptedSnoc(i - 1);
      HistorySnoc(i - 1);
      var o := MultiScript()[i - 1];
      var out := OfferRow(GroupOf(MultiGroups(i - 1), o.group), topN, o.rowId);
      RunNext(topN, MultiScript(), i - 1, MultiGroups(i - 1), EvictedDown(EvictedCount(i - 1)),
              seq(i - 1, k => MultiAccepted(k)), seq(i - 1, k => MultiHistory(k)), out,
              MultiGroups(i), EvictedDown(EvictedCount(i)),
              seq(i, k => MultiAccepted(k)), seq(i, k => MultiHistory(k)));
    }
  }

  /** The whole run: the first and third batches are accepted and the second
      rejected; nothing is evicted before the third batch, whose offers evict
      1999, 1998, ... one each; every group `h` ends with h, 10 + h, ...,
      990 + h. */
  lemma MultiTrace(topN: nat)
    requires topN == 100
    ensures var t := Run(topN, MultiScript());
      && t.state.groups == seq(10, h => Stride(h, 100))
      && t.state.evicted == EvictedDown(1000)
      && t.accepted == seq(3000, k => MultiAccepted(k))
      && t.evictedAfter == seq(3000, k => MultiHistory(k))
  {
    MultiPrefix(topN, 3000);
    assert MultiScript()[..3000] == MultiScript();
    WindowGroupsFinal();
  }
}

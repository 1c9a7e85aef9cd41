/**
 * The denormalised `counts` of an auction, recomputed after a lot is
 * created, updated or deleted (lots/routes.js): for every bidding mode of
 * the auction's published (non-draft) lots, the sum of their `count`.
 */
module AuctionCounts {

  /** The fields of a lot that the recompute reads. */
  datatype LotSummary = LotSummary(draft: bool, bidding: string, count: int)

  type Counts = map<string, int>

  /** `lots.filter(lot => !lot.draft)` */
  function Published(lots: seq<LotSummary>): (r: seq<LotSummary>)
    ensures forall i :: 0 <= i < |r| ==> !r[i].draft
    ensures forall l :: l in r <==> l in lots && !l.draft
  {
    if lots == [] then []
    else
      var rest := Published(lots[..|lots| - 1]);
      var last := lots[|lots| - 1];
      assert lots == lots[..|lots| - 1] + [last];
      if last.draft then rest else rest + [last]
  }

  /** The bidding modes of the published lots. */
  function Modes(lots: seq<LotSummary>): set<string> {
    set l | l in lots && !l.draft :: l.bidding
  }

  /** The sum of `count` over the published lots whose bidding mode is `mode`. */
  function Sum(lots: seq<LotSummary>, mode: string): int {
    if lots == [] then 0
    else
      var last := lots[|lots| - 1];
      Sum(lots[..|lots| - 1], mode) + (if !last.draft && last.bidding == mode then last.count else 0)
  }

  /** The mapping the auction should hold: each published mode to its sum. */
  function ExpectedCounts(lots: seq<LotSummary>): Counts {
    map mode | mode in Modes(lots) :: Sum(lots, mode)
  }

  /**
   * The recompute as the handlers run it: filter out drafts, then add each
   * lot's count under its mode. A mode whose running total is absent or 0
   * (falsy) is assigned the lot's count, which is the same as adding it to 0.
   */
  method RecomputeCounts(lots: seq<LotSummary>) returns (counts: Counts)
    ensures counts.Keys == Modes(lots)
    ensures forall mode :: mode in counts ==> counts[mode] == Sum(lots, mode)
    ensures counts == ExpectedCounts(lots)
  {
    var published := Published(lots);
    counts := map[];
    for i := 0 to |published|
      invariant CountsOf(counts, published[..i])
    {
      var lot := published[i];
      assert published[..i + 1] == published[..i] + [lot];
      var before := counts;
      if lot.bidding !in counts || counts[lot.bidding] == 0 {
        counts := counts[lot.bidding := lot.count];
      } else {
        counts := counts[lot.bidding := counts[lot.bidding] + lot.count];
      }
      CountsStep(before, published[..i], lot, counts);
    }
    assert published[..|published|] == published;
    PublishedSum(lots);
  }

  /** `counts` holds, for the lots seen so far, each published mode's sum and nothing else. */
  predicate CountsOf(counts: Counts, lots: seq<LotSummary>) {
    && counts.Keys == Modes(lots)
    && forall mode :: mode in counts ==> counts[mode] == Sum(lots, mode)
  }

  /** One step of the loop keeps `CountsOf`: both branches add the count to the running sum. */
  lemma CountsStep(counts: Counts, lots: seq<LotSummary>, lot: LotSummary, after: Counts)
    requires CountsOf(counts, lots) && !lot.draft
    requires after == counts[lot.bidding :=
      if lot.bidding !in counts || counts[lot.bidding] == 0 then lot.count
      else counts[lot.bidding] + lot.count]
    ensures CountsOf(after, lots + [lot])
  {
    SumSnoc(lots, lot);
    if lot.bidding !in counts {
      SumAbsentMode(lots, lot.bidding);
    }
    assert Modes(lots + [lot]) == Modes(lots) + {lot.bidding};
  }

  /** Adding one lot at the end adds its count to its own mode only. */
  lemma SumSnoc(lots: seq<LotSummary>, lot: LotSummary)
    ensures forall mode :: Sum(lots + [lot], mode) ==
                           Sum(lots, mode) + (if !lot.draft && lot.bidding == mode then lot.count else 0)
  {
    assert (lots + [lot])[..|lots|] == lots;
  }

  /** Filtering out the drafts first changes neither the modes nor the sums. */
  lemma {:induction false} PublishedSum(lots: seq<LotSummary>)
    ensures Modes(Published(lots)) == Modes(lots)
    ensures forall mode :: Sum(Published(lots), mode) == Sum(lots, mode)
  {
    if lots != [] {
      var init, last := lots[..|lots| - 1], lots[|lots| - 1];
      PublishedSum(init);
      SumSnoc(Published(init), last);
    }
  }

  /** The sum over two batches of lots is the sum of the two sums. */
  lemma {:induction false} SumAppend(a: seq<LotSummary>, b: seq<LotSummary>, mode: string)
    ensures Sum(a + b, mode) == Sum(a, mode) + Sum(b, mode)
  {
    if b == [] {
      assert a + b == a;
    } else {
      var init, last := b[..|b| - 1], b[|b| - 1];
      assert b == init + [last];
      assert a + b == (a + init) + [last];
      SumSnoc(init, last);
      SumSnoc(a + init, last);
      SumAppend(a, init, mode);
      var extra := if !last.draft && last.bidding == mode then last.count else 0;
      assert Sum(b, mode) == Sum(init, mode) + extra;
      assert Sum(a + b, mode) == Sum(a + init, mode) + extra;
    }
  }

  /**
   * The counts do not depend on the order in which the database returns the
   * lots: any rearrangement of the same lots gives the same counts.
   */
  lemma CountsOrderIndependent(a: seq<LotSummary>, b: seq<LotSummary>)
    requires multiset(a) == multiset(b)
    ensures ExpectedCounts(a) == ExpectedCounts(b)
  {
    forall l
      ensures l in a <==> l in b
    {
      assert l in a <==> l in multiset(a);
      assert l in b <==> l in multiset(b);
    }
    assert Modes(a) == Modes(b);
    forall mode | mode in Modes(a)
      ensures Sum(a, mode) == Sum(b, mode)
    {
      SumPermutation(a, b, mode);
    }
  }

  /** Rearranging the lots leaves every sum unchanged. */
  lemma {:induction false} SumPermutation(a: seq<LotSummary>, b: seq<LotSummary>, mode: string)
    requires multiset(a) == multiset(b)
    ensures Sum(a, mode) == Sum(b, mode)
    decreases |a|
  {
    if a == [] {
      assert |b| == |multiset(b)| == 0;
    } else {
      var init, last := a[..|a| - 1], a[|a| - 1];
      assert a == init + [last];
      assert last in multiset(b);
      var j :| 0 <= j < |b| && b[j] == last;
      var rest := RemoveAt(b, j);
      assert multiset(init) == multiset(rest) by {
        RemoveAtMultiset(b, j);
        assert multiset(a) == multiset(init) + multiset{last};
        assert multiset(init) == multiset(a) - multiset{last};
        assert multiset(rest) == multiset(b) - multiset{last};
      }
      SumPermutation(init, rest, mode);
      SumSnoc(init, last);
      SumRemoveAt(b, j, mode);
    }
  }

  /** `b` without its entry at `j`. */
  function RemoveAt(b: seq<LotSummary>, j: nat): (r: seq<LotSummary>)
    requires j < |b|
    ensures |r| == |b| - 1
  {
    b[..j] + b[j + 1..]
  }

  lemma RemoveAtMultiset(b: seq<LotSummary>, j: nat)
    requires j < |b|
    ensures multiset(b) == multiset(RemoveAt(b, j)) + multiset{b[j]}
  {
    assert b == b[..j] + [b[j]] + b[j + 1..];
  }

  /** Taking one lot out takes its count out of its own mode's sum. */
  lemma SumRemoveAt(b: seq<LotSummary>, j: nat, mode: string)
    requires j < |b|
    ensures Sum(b, mode) ==
              Sum(RemoveAt(b, j), mode) + (if !b[j].draft && b[j].bidding == mode then b[j].count else 0)
  {
    var front, back := b[..j], b[j + 1..];
    assert b == front + ([b[j]] + back);
    SumAppend(front, [b[j]] + back, mode);
    SumAppend([b[j]], back, mode);
    SumAppend(front, back, mode);
    SumSnoc([], b[j]);
    assert [] + [b[j]] == [b[j]];
  }

  /** A draft lot contributes nothing: adding or removing one leaves the counts unchanged. */
  lemma DraftContributesNothing(lots: seq<LotSummary>, draft: LotSummary)
    requires draft.draft
    ensures ExpectedCounts(lots + [draft]) == ExpectedCounts(lots)
  {
    SumSnoc(lots, draft);
    assert Modes(lots + [draft]) == Modes(lots);
  }

  /**
   * Creating a published lot raises the count of its mode by the lot's count
   * (starting from 0 for a new mode) and leaves every other mode as it was.
   */
  lemma PublishedLotAdds(lots: seq<LotSummary>, lot: LotSummary)
    requires !lot.draft
    ensures var before, after := ExpectedCounts(lots), ExpectedCounts(lots + [lot]);
      && after.Keys == before.Keys + {lot.bidding}
      && after[lot.bidding] == (if lot.bidding in before then before[lot.bidding] else 0) + lot.count
      && forall mode :: mode in before && mode != lot.bidding ==> after[mode] == before[mode]
  {
    SumSnoc(lots, lot);
    assert Modes(lots + [lot]) == Modes(lots) + {lot.bidding};
    if lot.bidding !in Modes(lots) {
      SumAbsentMode(lots, lot.bidding);
    }
  }

  /** A mode with no published lot sums to 0. */
  lemma {:induction false} SumAbsentMode(lots: seq<LotSummary>, mode: string)
    requires mode !in Modes(lots)
    ensures Sum(lots, mode) == 0
  {
    if lots != [] {
      var init := lots[..|lots| - 1];
      assert Modes(init) <= Modes(lots) by {
        forall l | l in init ensures l in lots { }
      }
      SumAbsentMode(init, mode);
    }
  }

  /** Two published `increment` lots with counts 3 and 2 give `counts.increment = 5`. */
  lemma TwoIncrementLots()
    ensures ExpectedCounts([LotSummary(false, "increment", 3), LotSummary(false, "increment", 2)])
         == map["increment" := 5]
  {
    var lots := [LotSummary(false, "increment", 3), LotSummary(false, "increment", 2)];
    assert lots == [lots[0]] + [lots[1]];
    SumSnoc([lots[0]], lots[1]);
    SumSnoc([], lots[0]);
    assert Sum(lots, "increment") == 5;
    assert Modes(lots) == {"increment"};
  }
}

/**
 * Post-processing of the grouped rows that the bid and auto-bid
 * aggregation pipelines return (lots/routes.js): the participants of a lot,
 * and the caller's highest auto-bid per lot and highest bid per auction and
 * lot. Rows whose joined auction (or, for auto-bids, lot) document is
 * missing or `closed` are skipped.
 */
module BidAggregation {
  import opened Wrappers
  import opened Ids


  /** A document joined by `$lookup`; only its `state` is read. */
  datatype JoinedDoc = JoinedDoc(state: string)

  /** The joined array holds a document, and the first one is not closed. */
  predicate NotClosed(docs: seq<JoinedDoc>) {
    |docs| > 0 && docs[0].state != "closed"
  }

  // ---------------------------------------------------------------------
  // Participants of a lot

  /** The `_id` of a bid group: auction, bidder and the joined auction documents. */
  datatype BidderKey = BidderKey(auction: string, createdBy: UserId, auctionDoc: seq<JoinedDoc>)

  /** One row of the participants pipeline; its `_id` may be missing. */
  datatype BidderGroup = BidderGroup(id: Option<BidderKey>)

  predicate Eligible(g: BidderGroup) {
    g.id.Some? && NotClosed(g.id.value.auctionDoc)
  }

  /** The bidders of the eligible groups, in row order, repeats included. */
  function EligibleBidders(groups: seq<BidderGroup>): (r: seq<UserId>)
    ensures forall u :: u in r <==> exists g :: g in groups && Eligible(g) && g.id.value.createdBy == u
  {
    if groups == [] then []
    else
      var init, last := groups[..|groups| - 1], groups[|groups| - 1];
      assert groups == init + [last];
      EligibleBidders(init) + (if Eligible(last) then [last.id.value.createdBy] else [])
  }

  /** `xs` without repeats, each element kept where it first occurs. */
  function FirstSeen(xs: seq<UserId>): seq<UserId> {
    if xs == [] then []
    else
      var d, x := FirstSeen(xs[..|xs| - 1]), xs[|xs| - 1];
      if x in d then d else d + [x]
  }

  predicate NoDuplicates(xs: seq<UserId>) {
    forall i, j :: 0 <= i < j < |xs| ==> xs[i] != xs[j]
  }

  /** The position of the first occurrence of `x` in `xs`. */
  function FirstIndex(xs: seq<UserId>, x: UserId): (k: nat)
    requires x in xs
    ensures k < |xs| && xs[k] == x
    ensures forall j :: 0 <= j < k ==> xs[j] != x
  {
    if xs[0] == x then 0
    else
      assert x in xs[1..];
      FirstIndex(xs[1..], x) + 1
  }

  /**
   * The participants loop: every eligible group's bidder is appended unless
   * already present, so the result is the eligible bidders without repeats,
   * in the order in which each was first met.
   */
  method Participants(groups: seq<BidderGroup>) returns (participants: seq<UserId>)
    ensures participants == FirstSeen(EligibleBidders(groups))
    ensures NoDuplicates(participants)
    ensures forall u :: u in participants <==>
              exists g :: g in groups && Eligible(g) && g.id.value.createdBy == u
  {
    participants := [];
    for i := 0 to |groups|
      invariant participants == FirstSeen(EligibleBidders(groups[..i]))
    {
      assert groups[..i + 1] == groups[..i] + [groups[i]];
      assert groups[..i + 1][..i] == groups[..i];
      if Eligible(groups[i]) {
        var bidder := groups[i].id.value.createdBy;
        var before := EligibleBidders(groups[..i]);
        assert EligibleBidders(groups[..i + 1]) == before + [bidder];
        assert (before + [bidder])[..|before|] == before;
        if bidder !in participants {
          participants := participants + [bidder];
        }
      } else {
        assert EligibleBidders(groups[..i + 1]) == EligibleBidders(groups[..i]);
      }
    }
    assert groups[..|groups|] == groups;
    FirstSeenProperties(EligibleBidders(groups));
  }

  /**
   * `FirstSeen(xs)` has no repeats, holds exactly the elements of `xs`, and
   * keeps them in the order of their first occurrences in `xs`.
   */
  lemma {:induction false} FirstSeenProperties(xs: seq<UserId>)
    ensures NoDuplicates(FirstSeen(xs))
    ensures forall u :: u in FirstSeen(xs) <==> u in xs
    ensures forall i, j :: 0 <= i < j < |FirstSeen(xs)| ==>
              FirstIndex(xs, FirstSeen(xs)[i]) < FirstIndex(xs, FirstSeen(xs)[j])
  {
    if xs != [] {
      var init, x := xs[..|xs| - 1], xs[|xs| - 1];
      assert xs == init + [x];
      FirstSeenProperties(init);
      var d := FirstSeen(init);
      forall u | u in init
        ensures FirstIndex(xs, u) == FirstIndex(init, u)
      {
        FirstIndexSnoc(init, x, u);
      }
      if x !in d {
        assert x !in init;
        assert FirstIndex(xs, x) == |init|;
      }
    }
  }

  /** Appending an element does not move the first occurrence of an earlier one. */
  lemma {:induction false} FirstIndexSnoc(xs: seq<UserId>, y: UserId, u: UserId)
    requires u in xs
    ensures FirstIndex(xs + [y], u) == FirstIndex(xs, u)
  {
    if xs[0] != u {
      assert (xs + [y])[1..] == xs[1..] + [y];
      assert u in xs[1..];
      FirstIndexSnoc(xs[1..], y, u);
    }
  }

  // ---------------------------------------------------------------------
  // Highest auto-bid per lot

  /** A row of the auto-bid pipeline: lot, joined lot documents, highest ceiling. */
  datatype AutoBidGroup = AutoBidGroup(lot: string, lotDoc: seq<JoinedDoc>, maxCost: int)

  /** The auto-bid fold: each row on an open lot sets that lot's entry. */
  function AutoBidMaxima(groups: seq<AutoBidGroup>): map<string, int> {
    if groups == [] then map[]
    else
      var m, g := AutoBidMaxima(groups[..|groups| - 1]), groups[|groups| - 1];
      if NotClosed(g.lotDoc) then m[g.lot := g.maxCost] else m
  }

  /** Row `i` is the last row on an open lot with key `lot`. */
  predicate LastAutoBidRow(groups: seq<AutoBidGroup>, i: int, lot: string) {
    && 0 <= i < |groups|
    && NotClosed(groups[i].lotDoc) && groups[i].lot == lot
    && forall j :: i < j < |groups| ==> !(NotClosed(groups[j].lotDoc) && groups[j].lot == lot)
  }

  /** The reduce over the auto-bid rows, as the handler runs it. */
  method CollectAutoBids(groups: seq<AutoBidGroup>) returns (autobids: map<string, int>)
    ensures autobids == AutoBidMaxima(groups)
  {
    autobids := map[];
    for i := 0 to |groups|
      invariant autobids == AutoBidMaxima(groups[..i])
    {
      assert groups[..i + 1][..i] == groups[..i];
      var item := groups[i];
      if NotClosed(item.lotDoc) {
        autobids := autobids[item.lot := item.maxCost];
      }
    }
    assert groups[..|groups|] == groups;
  }

  /**
   * The auto-bid map has an entry exactly for the lots of rows whose lot is
   * not closed, and each entry is the amount of the last such row.
   */
  lemma {:induction false} AutoBidMaximaSpec(groups: seq<AutoBidGroup>)
    ensures forall lot :: lot in AutoBidMaxima(groups) <==>
              exists i :: 0 <= i < |groups| && NotClosed(groups[i].lotDoc) && groups[i].lot == lot
    ensures forall lot :: lot in AutoBidMaxima(groups) ==>
              exists i :: LastAutoBidRow(groups, i, lot) && AutoBidMaxima(groups)[lot] == groups[i].maxCost
  {
    if groups != [] {
      var init, g := groups[..|groups| - 1], groups[|groups| - 1];
      AutoBidMaximaSpec(init);
      var n := |init|;
      forall lot | lot in AutoBidMaxima(groups)
        ensures exists i :: LastAutoBidRow(groups, i, lot) && AutoBidMaxima(groups)[lot] == groups[i].maxCost
      {
        if NotClosed(g.lotDoc) && g.lot == lot {
          assert LastAutoBidRow(groups, n, lot);
        } else {
          assert lot in AutoBidMaxima(init);
          var i :| LastAutoBidRow(init, i, lot) && AutoBidMaxima(init)[lot] == init[i].maxCost;
          assert LastAutoBidRow(groups, i, lot);
        }
      }
      forall lot | exists i :: 0 <= i < |groups| && NotClosed(groups[i].lotDoc) && groups[i].lot == lot
        ensures lot in AutoBidMaxima(groups)
      {
        var i :| 0 <= i < |groups| && NotClosed(groups[i].lotDoc) && groups[i].lot == lot;
        if i < n {
          assert init[i] == groups[i];
        }
      }
    }
  }

  // ---------------------------------------------------------------------
  // Highest bid per auction and lot

  /** A row of the bid pipeline: auction, lot, joined auction documents, highest bid. */
  datatype BidGroup = BidGroup(auction: string, lot: string, auctionDoc: seq<JoinedDoc>, maxCost: int)

  /**
   * The bid fold: each row on an open auction creates that auction's entry
   * if it is missing and sets the lot's amount inside it.
   */
  function BidMaxima(groups: seq<BidGroup>): map<string, map<string, int>> {
    if groups == [] then map[]
    else
      var m, g := BidMaxima(groups[..|groups| - 1]), groups[|groups| - 1];
      if NotClosed(g.auctionDoc) then
        var lots := if g.auction in m then m[g.auction] else map[];
        m[g.auction := lots[g.lot := g.maxCost]]
      else m
  }

  /** Row `i` is the last row on an open auction for this auction and lot. */
  predicate LastBidRow(groups: seq<BidGroup>, i: int, auction: string, lot: string) {
    && 0 <= i < |groups|
    && NotClosed(groups[i].auctionDoc) && groups[i].auction == auction && groups[i].lot == lot
    && forall j :: i < j < |groups| ==>
         !(NotClosed(groups[j].auctionDoc) && groups[j].auction == auction && groups[j].lot == lot)
  }

  /** The reduce over the bid rows, as the handler runs it. */
  method CollectBids(groups: seq<BidGroup>) returns (bids: map<string, map<string, int>>)
    ensures bids == BidMaxima(groups)
  {
    bids := map[];
    for i := 0 to |groups|
      invariant bids == BidMaxima(groups[..i])
    {
      assert groups[..i + 1][..i] == groups[..i];
      var item := groups[i];
      if NotClosed(item.auctionDoc) {
        if item.auction !in bids {
          bids := bids[item.auction := map[]];
        }
        bids := bids[item.auction := bids[item.auction][item.lot := item.maxCost]];
      }
    }
    assert groups[..|groups|] == groups;
  }

  /**
   * The bid map nests auction, then lot: it has an auction entry exactly for
   * the auctions of open rows, inside it a lot entry exactly for that
   * auction's open rows, and each amount is the one of the last such row.
   */
  lemma BidMaximaSpec(groups: seq<BidGroup>)
    ensures forall a :: a in BidMaxima(groups) <==>
              exists i :: 0 <= i < |groups| && NotClosed(groups[i].auctionDoc) && groups[i].auction == a
    ensures forall a, lot :: a in BidMaxima(groups) ==>
              (lot in BidMaxima(groups)[a] <==>
                 exists i :: 0 <= i < |groups| && NotClosed(groups[i].auctionDoc)
                          && groups[i].auction == a && groups[i].lot == lot)
    ensures forall a, lot :: a in BidMaxima(groups) && lot in BidMaxima(groups)[a] ==>
              exists i :: LastBidRow(groups, i, a, lot) && BidMaxima(groups)[a][lot] == groups[i].maxCost
  {
    BidAuctionKeys(groups);
    BidLotKeys(groups);
    BidLastRow(groups);
  }

  /** The auction keys of the bid map. */
  lemma {:induction false} BidAuctionKeys(groups: seq<BidGroup>)
    ensures forall a :: a in BidMaxima(groups) <==>
              exists i :: 0 <= i < |groups| && NotClosed(groups[i].auctionDoc) && groups[i].auction == a
  {
    if groups != [] {
      var init := groups[..|groups| - 1];
      BidAuctionKeys(init);
      forall a | exists i :: 0 <= i < |groups| && NotClosed(groups[i].auctionDoc) && groups[i].auction == a
        ensures a in BidMaxima(groups)
      {
        var i :| 0 <= i < |groups| && NotClosed(groups[i].auctionDoc) && groups[i].auction == a;
        if i < |init| {
          assert init[i] == groups[i];
        }
      }
    }
  }

  /** The lot keys under each auction of the bid map. */
  lemma {:induction false} BidLotKeys(groups: seq<BidGroup>)
    ensures forall a, lot :: a in BidMaxima(groups) ==>
              (lot in BidMaxima(groups)[a] <==>
                 exists i :: 0 <= i < |groups| && NotClosed(groups[i].auctionDoc)
                          && groups[i].auction == a && groups[i].lot == lot)
  {
    if groups != [] {
      var init, g := groups[..|groups| - 1], groups[|groups| - 1];
      BidLotKeys(init);
      BidAuctionKeys(init);
      var m, m' := BidMaxima(init), BidMaxima(groups);
      forall a, lot | a in m'
        ensures lot in m'[a] <==>
                exists i :: 0 <= i < |groups| && NotClosed(groups[i].auctionDoc)
                         && groups[i].auction == a && groups[i].lot == lot
      {
        if NotClosed(g.auctionDoc) && g.auction == a && g.lot == lot {
          assert lot in m'[a];
          assert NotClosed(groups[|init|].auctionDoc) && groups[|init|].auction == a && groups[|init|].lot == lot;
        } else {
          // Here row `g` says nothing about (a, lot): both sides reduce to `init`.
          assert a in m ==> (lot in m'[a] <==> lot in m[a]);
          assert a !in m ==> lot !in m'[a];
          if exists i :: 0 <= i < |groups| && NotClosed(groups[i].auctionDoc)
                      && groups[i].auction == a && groups[i].lot == lot {
            var i :| 0 <= i < |groups| && NotClosed(groups[i].auctionDoc)
                  && groups[i].auction == a && groups[i].lot == lot;
            assert i < |init|;
            assert init[i] == groups[i];
          }
          if lot in m'[a] {
            var i :| 0 <= i < |init| && NotClosed(init[i].auctionDoc) && init[i].auction == a && init[i].lot == lot;
            assert groups[i] == init[i];
          }
        }
      }
    }
  }

  /** Each amount of the bid map comes from the last matching open row. */
  lemma {:induction false} BidLastRow(groups: seq<BidGroup>)
    ensures forall a, lot :: a in BidMaxima(groups) && lot in BidMaxima(groups)[a] ==>
              exists i :: LastBidRow(groups, i, a, lot) && BidMaxima(groups)[a][lot] == groups[i].maxCost
  {
    if groups != [] {
      var init, g := groups[..|groups| - 1], groups[|groups| - 1];
      BidLastRow(init);
      var n := |init|;
      var m, m' := BidMaxima(init), BidMaxima(groups);
      forall a, lot | a in m' && lot in m'[a]
        ensures exists i :: LastBidRow(groups, i, a, lot) && m'[a][lot] == groups[i].maxCost
      {
        if NotClosed(g.auctionDoc) && g.auction == a && g.lot == lot {
          assert LastBidRow(groups, n, a, lot);
        } else {
          assert a in m && lot in m[a];
          var i :| LastBidRow(init, i, a, lot) && m[a][lot] == init[i].maxCost;
          assert LastBidRow(groups, i, a, lot);
        }
      }
    }
  }


  // ---------------------------------------------------------------------
  // The `$match` filter of the caller's bid and auto-bid pipelines

  /** The filter: the caller's rows, optionally only one lot and one auction. */
  datatype BidFilter = BidFilter(createdBy: UserId, lot: Option<string>, auction: Option<string>)

  /** What the filter tests of a bid or auto-bid. */
  datatype BidRow = BidRow(createdBy: UserId, lot: string, auction: string)

  predicate Selects(f: BidFilter, row: BidRow) {
    && row.createdBy == f.createdBy
    && (f.lot.Some? ==> row.lot == f.lot.value)
    && (f.auction.Some? ==> row.auction == f.auction.value)
  }

  /** The handler fails because `ObjectId` names nothing in the file. */
  datatype FilterError = ObjectIdNotDefined

  /** The two filters: the auto-bid pipeline's, then the bid pipeline's. */
  datatype BidFilters = BidFilters(autoBids: BidFilter, bids: BidFilter)

  /**
   * The filters as written: `new ObjectId(...)` is evaluated when the `lot`
   * or the `auction` query parameter is set, and `ObjectId` is not defined
   * in the file, so either parameter makes the request fail.
   */
  function BidFiltersAsWritten(caller: UserId, lotParam: bool, auctionParam: bool,
                               lotId: string, auctionId: string): (r: Result<BidFilters, FilterError>)
    ensures r.Success? <==> !lotParam && !auctionParam
    ensures r.Success? ==> r.value.autoBids == r.value.bids == BidFilter(caller, None, None)
  {
    if lotParam then Failure(ObjectIdNotDefined)
    else
      var q := BidFilter(caller, None, None);
      if auctionParam then Failure(ObjectIdNotDefined) else Success(BidFilters(q, q))
  }

  /** Asking for one lot's bids fails instead of narrowing the answer to that lot. */
  lemma LotParameterFails(caller: UserId, lotId: string)
    ensures BidFiltersAsWritten(caller, true, false, lotId, "").Failure?
  {
  }

  /**
   * The filters as intended: the `lot` parameter narrows both pipelines to
   * the lot in the path; the `auction` parameter then narrows the bid
   * pipeline (which reuses the same filter object) to the auction in the path.
   */
  function BidFiltersIntended(caller: UserId, lotParam: bool, auctionParam: bool,
                              lotId: string, auctionId: string): (r: BidFilters)
    ensures forall row :: Selects(r.autoBids, row) <==>
              row.createdBy == caller && (lotParam ==> row.lot == lotId)
    ensures forall row :: Selects(r.bids, row) <==>
              Selects(r.autoBids, row) && (auctionParam ==> row.auction == auctionId)
  {
    var q := BidFilter(caller, if lotParam then Some(lotId) else None, None);
    BidFilters(q, if auctionParam then q.(auction := Some(auctionId)) else q)
  }

  /** Without either parameter the intended filters are the ones the code builds. */
  lemma IntendedAgreesWithoutParameters(caller: UserId, lotId: string, auctionId: string)
    ensures BidFiltersAsWritten(caller, false, false, lotId, auctionId)
         == Success(BidFiltersIntended(caller, false, false, lotId, auctionId))
  {
  }
}

/**
  How the pieces of the bidding lifecycle fit together: the bid endpoint and
  the expiry sweep, the server's `lastBid` and the highest bid the product
  page computes, and the two places where the code as written departs from
  what it evidently intends.
 */
module Lifecycle {
  import opened Wrappers
  import opened Records
  import Bidding
  import Sweeper
  import BidPanel

  // ---------------------------------------------------------------------
  // The bid endpoint against the sweep.
  // ---------------------------------------------------------------------

  /** The sweep leaves bids and every `lastBid` alone, so it keeps the store consistent. */
  lemma SweepPreservesConsistent(db: Db, now: Time, stamp: Time)
    requires Bidding.Consistent(db)
    ensures Bidding.Consistent(Sweeper.SweepDb(db, now, stamp))
  {
    var d := Sweeper.SweepDb(db, now, stamp);
    forall i | 0 <= i < |d.bids| && d.bids[i].eWaste in d.items
      ensures d.bids[i].amount <= CurrentLastBid(d.items[d.bids[i].eWaste])
    {
      assert d.bids[i] == db.bids[i];
    }
  }

  /** Once the sweep has closed an item, the bid endpoint refuses every bid on it. */
  lemma SweptItemRefusesBids(db: Db, id: ItemId, now: Time, stamp: Time, bidder: UserId, amount: Option<real>, later: Time)
    requires id in db.items && Sweeper.Selected(db.items[id], now)
    ensures Bidding.PlaceBid(Sweeper.SweepDb(db, now, stamp), id, bidder, amount, later) == Err(BadRequest(BiddingInactive))
  {
  }

  /**
    Code as written: a bid at exactly the end time is accepted, while a
    sweep at that same instant closes the item.
   */
  lemma AcceptedAtClosingInstant(db: Db, id: ItemId, bidder: UserId, amount: real)
    requires id in db.items && db.items[id].biddingEnabled && db.items[id].biddingStatus == Active
    requires db.items[id].biddingEndTime.Some?
    requires amount > CurrentLastBid(db.items[id]) && amount >= MinBidAmount
    ensures var now := db.items[id].biddingEndTime.value;
            Bidding.PlaceBid(db, id, bidder, Some(amount), now).Ok? && Sweeper.Selected(db.items[id], now)
  {
  }

  /** The end-time test the sweep uses: an end time at or before `now` has passed. */
  predicate EndTimeReached(item: Item, now: Time) {
    item.biddingEndTime.Some? && item.biddingEndTime.value <= now
  }

  /** The bid chain with the sweep's end-time test: bidding closes at the end time itself. */
  function PlaceBidClosingAtEnd(db: Db, itemId: ItemId, bidder: UserId, amount: Option<real>, now: Time): (r: Result<Db, ApiError>)
    ensures r.Ok? ==> itemId in db.items && !Sweeper.Selected(db.items[itemId], now)
    ensures r.Ok? ==> r == Bidding.PlaceBid(db, itemId, bidder, amount, now)
    ensures itemId in db.items && db.items[itemId].biddingEndTime != Some(now) ==>
              r == Bidding.PlaceBid(db, itemId, bidder, amount, now)
  {
    if itemId !in db.items then Err(NotFound)
    else
      var item := db.items[itemId];
      if !item.biddingEnabled then Err(BadRequest(BiddingNotEnabled))
      else if item.biddingStatus != Active then Err(BadRequest(BiddingInactive))
      else if EndTimeReached(item, now) then Err(BadRequest(BiddingEnded))
      else
        var last := CurrentLastBid(item);
        if amount.None? || amount.value <= last then Err(BadRequest(BidTooLow(last)))
        else if !BidSchemaValid(Bid(itemId, bidder, amount.value, now, now)) then Err(ServerError)
        else Ok(Bidding.Recorded(db, itemId, bidder, amount.value, now))
  }

  /** With the corrected test no bid is accepted on an item the sweep would close at that instant. */
  lemma ClosingAtEndAgreesWithSweep(db: Db, id: ItemId, bidder: UserId, amount: Option<real>, now: Time)
    requires id in db.items && Sweeper.Selected(db.items[id], now)
    ensures PlaceBidClosingAtEnd(db, id, bidder, amount, now) == Err(BadRequest(BiddingEnded))
  {
  }

  // ---------------------------------------------------------------------
  // The server's lastBid against the page's highest bid.
  // ---------------------------------------------------------------------

  function Amounts(bids: seq<Bid>): (r: seq<real>)
    ensures |r| == |bids| && forall k :: 0 <= k < |bids| ==> r[k] == bids[k].amount
  {
    seq(|bids|, k requires 0 <= k < |bids| => bids[k].amount)
  }

  /** After a successful bid, the page's highest bid over the listing equals the new `lastBid`. */
  lemma PageHighestMatchesLastBid(db: Db, itemId: ItemId, bidder: UserId, amount: Option<real>, now: Time, prior: real)
    requires Bidding.Consistent(db)
    requires Bidding.PlaceBid(db, itemId, bidder, amount, now).Ok?
    ensures var d := Bidding.PlaceBid(db, itemId, bidder, amount, now).value;
            BidPanel.HighestAfterFetch(prior, Amounts(Bidding.BidsForItem(d, itemId))) == amount.value
            == CurrentLastBid(d.items[itemId])
  {
    var d := Bidding.PlaceBid(db, itemId, bidder, amount, now).value;
    Bidding.PlaceBidPreservesConsistent(db, itemId, bidder, amount, now);
    var listing := Bidding.BidsForItem(d, itemId);
    var amounts := Amounts(listing);
    var newBid := d.bids[|d.bids| - 1];
    assert newBid in d.bids && newBid.eWaste == itemId;
    assert newBid in listing;
    var j :| 0 <= j < |listing| && listing[j] == newBid;
    assert amounts[j] == amount.value;
    var h := BidPanel.HighestAfterFetch(prior, amounts);
    var m :| 0 <= m < |amounts| && amounts[m] == h;
    assert listing[m] in d.bids;
    var i :| 0 <= i < |d.bids| && d.bids[i] == listing[m];
  }

  /** On an item nobody has bid on, the page's initial highest bid and the server's `lastBid || 0` agree at 0. */
  lemma FreshItemPageMatchesServer(db: Db, itemId: ItemId)
    requires itemId in db.items && db.items[itemId].lastBid.None?
    requires forall i :: 0 <= i < |db.bids| ==> db.bids[i].eWaste != itemId
    ensures BidPanel.HighestAfterFetch(BidPanel.InitialHighestBid, Amounts(Bidding.BidsForItem(db, itemId)))
            == CurrentLastBid(db.items[itemId]) == 0.0
  {
  }

  /**
    When the page's highest bid equals the item's `lastBid`, an amount the
    page sends passes the server's amount check, and an amount the server
    refuses as too low never leaves the page.
   */
  lemma PageCheckMatchesServer(db: Db, itemId: ItemId, bidder: UserId, amount: real, now: Time)
    requires itemId in db.items
    requires db.items[itemId].biddingEnabled && db.items[itemId].biddingStatus == Active
    requires !Bidding.EndTimePassed(db.items[itemId], now)
    requires CurrentLastBid(db.items[itemId]) >= 0.0
    ensures var page := BidPanel.ConfirmBid(true, Some(amount), CurrentLastBid(db.items[itemId]));
            var server := Bidding.PlaceBid(db, itemId, bidder, Some(amount), now);
            && (page.Submit? && amount >= MinBidAmount ==> server.Ok?)
            && (server.Err? && server.error.BadRequest? && server.error.reason.BidTooLow? ==> !page.Submit?)
  {
  }

  // ---------------------------------------------------------------------
  // lastBid is not a schema path.
  // ---------------------------------------------------------------------

  /** What a save and a reload keep of the items: `lastBid` is not declared, so it is lost. */
  function SchemaView(items: map<ItemId, Item>): (r: map<ItemId, Item>)
    ensures r.Keys == items.Keys
    ensures forall id :: id in items ==> r[id] == items[id].(lastBid := None)
  {
    map id | id in items :: items[id].(lastBid := None)
  }

  /**
    Code as written, under the schema's strict mode: the controller reads
    `lastBid` as undefined (0) and its write of `lastBid` is not persisted.
   */
  function PlaceBidAsPersisted(db: Db, itemId: ItemId, bidder: UserId, amount: Option<real>, now: Time): (r: Result<Db, ApiError>)
    ensures r.Ok? ==> amount.Some? && r.value.bids == db.bids + [Bid(itemId, bidder, amount.value, now, now)]
    ensures r.Ok? ==> forall id :: id in r.value.items ==> r.value.items[id].lastBid.None?
  {
    match Bidding.PlaceBid(db.(items := SchemaView(db.items)), itemId, bidder, amount, now)
    case Ok(d) => Ok(d.(items := SchemaView(d.items)))
    case Err(e) => Err(e)
  }

  /** As persisted, a bid of 3 is accepted after a bid of 5 on the same item. */
  lemma PersistedAcceptsLowerBid(db: Db, x: ItemId, a: UserId, b: UserId, now: Time, endTime: Time)
    requires x in db.items && ItemSchemaValid(db.items[x])
    requires db.items[x].biddingEnabled && db.items[x].biddingStatus == Active
    requires db.items[x].biddingEndTime == Some(endTime) && now <= endTime
    ensures var first := PlaceBidAsPersisted(db, x, a, Some(5.0), now);
            && first.Ok?
            && PlaceBidAsPersisted(first.value, x, b, Some(3.0), now).Ok?
            && !Bidding.IncreasingPerItem(PlaceBidAsPersisted(first.value, x, b, Some(3.0), now).value.bids)
  {
    var first := PlaceBidAsPersisted(db, x, a, Some(5.0), now).value;
    var second := PlaceBidAsPersisted(first, x, b, Some(3.0), now).value;
    var n := |db.bids|;
    assert second.bids[n].eWaste == second.bids[n + 1].eWaste;
    assert second.bids[n].amount == 5.0 && second.bids[n + 1].amount == 3.0;
  }

  /** With `lastBid` kept, the same second bid is refused, reporting 5. */
  lemma KeptLastBidRefusesLowerBid(db: Db, x: ItemId, a: UserId, b: UserId, now: Time, endTime: Time)
    requires x in db.items && ItemSchemaValid(db.items[x])
    requires db.items[x].biddingEnabled && db.items[x].biddingStatus == Active
    requires db.items[x].biddingEndTime == Some(endTime) && now <= endTime
    requires CurrentLastBid(db.items[x]) < 5.0
    ensures var first := Bidding.PlaceBid(db, x, a, Some(5.0), now);
            && first.Ok?
            && Bidding.PlaceBid(first.value, x, b, Some(3.0), now) == Err(BadRequest(BidTooLow(5.0)))
  {
  }
}

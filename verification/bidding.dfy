/**
  Bid placement and bid listing (the bid controller).

  `PlaceBid` is the fail-fast chain of the validated bid endpoint: the item
  must exist, have bidding enabled, have `biddingStatus` "active" and an end
  time not before `now`; the parsed amount must exceed the item's cached
  `lastBid` (0 when unset). A success appends one Bid and moves `lastBid` to
  the new amount; an error carries no state, so a rejected bid writes nothing.
 */
module Bidding {
  import opened Wrappers
  import opened Records

  /** The bid chain's end-time test: only an end time strictly before `now` has passed. */
  predicate EndTimePassed(item: Item, now: Time) {
    item.biddingEndTime.Some? && item.biddingEndTime.value < now
  }

  /** What a successful placement requires, stated without the order of the checks. */
  predicate BidAcceptable(db: Db, itemId: ItemId, amount: Option<real>, now: Time) {
    && itemId in db.items
    && db.items[itemId].biddingEnabled
    && db.items[itemId].biddingStatus == Active
    && !EndTimePassed(db.items[itemId], now)
    && amount.Some?
    && amount.value > CurrentLastBid(db.items[itemId])
    && amount.value >= MinBidAmount
  }

  /** The database after `bidder`'s bid of `amount` on `itemId` is recorded at `now`. */
  function Recorded(db: Db, itemId: ItemId, bidder: UserId, amount: real, now: Time): Db
    requires itemId in db.items
  {
    Db(db.items[itemId := db.items[itemId].(lastBid := Some(amount))],
       db.bids + [Bid(itemId, bidder, amount, now, now)],
       db.users)
  }

  /**
    `placeBid`: `amount` is the `parseFloat` of the body (None for NaN).
    A bid that passes the controller's checks but is below the schema's
    minimum of 1 makes the bid's save throw, which answers 500.
   */
  function PlaceBid(db: Db, itemId: ItemId, bidder: UserId, amount: Option<real>, now: Time): (r: Result<Db, ApiError>)
    ensures r.Ok? <==> BidAcceptable(db, itemId, amount, now)
    ensures r.Ok? ==> r.value == Recorded(db, itemId, bidder, amount.value, now)
    ensures r.Ok? ==> BidSchemaValid(Last(r.value.bids))
    ensures r.Err? && r.error.BadRequest? && r.error.reason.BidTooLow? ==>
              itemId in db.items && r.error.reason.current == CurrentLastBid(db.items[itemId])
  {
    if itemId !in db.items then Err(NotFound)
    else
      var item := db.items[itemId];
      if !item.biddingEnabled then Err(BadRequest(BiddingNotEnabled))
      else if item.biddingStatus != Active then Err(BadRequest(BiddingInactive))
      else if EndTimePassed(item, now) then Err(BadRequest(BiddingEnded))
      else
        var last := CurrentLastBid(item);
        if amount.None? || amount.value <= last then Err(BadRequest(BidTooLow(last)))
        else if !BidSchemaValid(Bid(itemId, bidder, amount.value, now, now)) then Err(ServerError)
        else Ok(Recorded(db, itemId, bidder, amount.value, now))
  }

  function Last<T>(s: seq<T>): T
    requires |s| > 0
  {
    s[|s| - 1]
  }

  /** The checks run in a fixed order and the first one that fails decides the error, whatever the amount. */
  lemma RejectionOrder(db: Db, itemId: ItemId, bidder: UserId, amount: Option<real>, now: Time)
    ensures itemId !in db.items ==> PlaceBid(db, itemId, bidder, amount, now) == Err(NotFound)
    ensures itemId in db.items && !db.items[itemId].biddingEnabled ==>
              PlaceBid(db, itemId, bidder, amount, now) == Err(BadRequest(BiddingNotEnabled))
    ensures itemId in db.items && db.items[itemId].biddingEnabled && db.items[itemId].biddingStatus != Active ==>
              PlaceBid(db, itemId, bidder, amount, now) == Err(BadRequest(BiddingInactive))
    ensures itemId in db.items && db.items[itemId].biddingEnabled && db.items[itemId].biddingStatus == Active
            && EndTimePassed(db.items[itemId], now) ==>
              PlaceBid(db, itemId, bidder, amount, now) == Err(BadRequest(BiddingEnded))
    ensures itemId in db.items && db.items[itemId].biddingEnabled && db.items[itemId].biddingStatus == Active
            && !EndTimePassed(db.items[itemId], now)
            && (amount.None? || amount.value <= CurrentLastBid(db.items[itemId])) ==>
              PlaceBid(db, itemId, bidder, amount, now) == Err(BadRequest(BidTooLow(CurrentLastBid(db.items[itemId]))))
  {
  }

  /** A bid arriving exactly at the end time passes the time check. */
  lemma BidAtEndTimeAccepted(db: Db, itemId: ItemId, bidder: UserId, amount: real)
    requires itemId in db.items
    requires db.items[itemId].biddingEnabled && db.items[itemId].biddingStatus == Active
    requires db.items[itemId].biddingEndTime.Some?
    requires amount > CurrentLastBid(db.items[itemId]) && amount >= MinBidAmount
    ensures PlaceBid(db, itemId, bidder, Some(amount), db.items[itemId].biddingEndTime.value).Ok?
  {
  }

  /**
    A positive amount below 1 on an item without bids passes the
    `> lastBid` check but not the schema minimum: the answer is 500, not 400.
   */
  lemma SubUnitBidFailsOnSave(db: Db, itemId: ItemId, bidder: UserId, amount: real, now: Time)
    requires itemId in db.items && db.items[itemId].lastBid.None?
    requires db.items[itemId].biddingEnabled && db.items[itemId].biddingStatus == Active
    requires !EndTimePassed(db.items[itemId], now)
    requires 0.0 < amount < MinBidAmount
    ensures PlaceBid(db, itemId, bidder, Some(amount), now) == Err(ServerError)
  {
  }

  // ---------------------------------------------------------------------
  // The stored bids stay strictly increasing per item and below lastBid.
  // ---------------------------------------------------------------------

  /** Bids on the same item are stored in strictly increasing order of amount. */
  predicate IncreasingPerItem(bids: seq<Bid>) {
    forall i, j :: 0 <= i < j < |bids| && bids[i].eWaste == bids[j].eWaste ==> bids[i].amount < bids[j].amount
  }

  /** Every bid on a listed item is at most that item's cached `lastBid`. */
  predicate CoveredByLastBid(db: Db) {
    forall i :: 0 <= i < |db.bids| && db.bids[i].eWaste in db.items ==>
      db.bids[i].amount <= CurrentLastBid(db.items[db.bids[i].eWaste])
  }

  predicate Consistent(db: Db) {
    IncreasingPerItem(db.bids) && CoveredByLastBid(db)
  }

  /** A successful placement keeps the store consistent, and the new bid is then the item's highest. */
  lemma PlaceBidPreservesConsistent(db: Db, itemId: ItemId, bidder: UserId, amount: Option<real>, now: Time)
    requires Consistent(db)
    requires PlaceBid(db, itemId, bidder, amount, now).Ok?
    ensures Consistent(PlaceBid(db, itemId, bidder, amount, now).value)
    ensures var d := PlaceBid(db, itemId, bidder, amount, now).value;
            forall i :: 0 <= i < |d.bids| && d.bids[i].eWaste == itemId ==> d.bids[i].amount <= amount.value
  {
    var d := PlaceBid(db, itemId, bidder, amount, now).value;
    var n := |db.bids|;
    assert d.bids == db.bids + [Bid(itemId, bidder, amount.value, now, now)];
    forall i | 0 <= i < n && db.bids[i].eWaste == itemId
      ensures db.bids[i].amount < amount.value
    {
      assert db.bids[i].amount <= CurrentLastBid(db.items[itemId]);
    }
    forall i, j | 0 <= i < j < |d.bids| && d.bids[i].eWaste == d.bids[j].eWaste
      ensures d.bids[i].amount < d.bids[j].amount
    {
      if j < n {
        assert d.bids[i] == db.bids[i] && d.bids[j] == db.bids[j];
      } else {
        assert d.bids[i] == db.bids[i];
      }
    }
    forall i | 0 <= i < |d.bids| && d.bids[i].eWaste in d.items
      ensures d.bids[i].amount <= CurrentLastBid(d.items[d.bids[i].eWaste])
    {
      if i < n {
        assert d.bids[i] == db.bids[i];
      }
    }
  }

  /** One request of a sequential run of placements. */
  datatype BidRequest = BidRequest(itemId: ItemId, bidder: UserId, amount: Option<real>, now: Time)

  /** The database after a request: unchanged when the placement is refused. */
  function Step(db: Db, req: BidRequest): Db {
    match PlaceBid(db, req.itemId, req.bidder, req.amount, req.now)
    case Ok(d) => d
    case Err(_) => db
  }

  /** The database after the requests are served one after another. */
  function Run(db: Db, reqs: seq<BidRequest>): Db
    decreases |reqs|
  {
    if |reqs| == 0 then db else Run(Step(db, reqs[0]), reqs[1..])
  }

  /** Over any sequential run the stored amounts per item stay strictly increasing and below `lastBid`. */
  lemma {:induction false} RunPreservesConsistent(db: Db, reqs: seq<BidRequest>)
    requires Consistent(db)
    ensures Consistent(Run(db, reqs))
    decreases |reqs|
  {
    if |reqs| > 0 {
      var r := reqs[0];
      if PlaceBid(db, r.itemId, r.bidder, r.amount, r.now).Ok? {
        PlaceBidPreservesConsistent(db, r.itemId, r.bidder, r.amount, r.now);
      }
      RunPreservesConsistent(Step(db, r), reqs[1..]);
    }
  }

  /** No run removes an item, and no run lowers an item's `lastBid`. */
  lemma {:induction false} RunLastBidMonotone(db: Db, reqs: seq<BidRequest>)
    ensures Run(db, reqs).items.Keys == db.items.Keys
    ensures forall id :: id in db.items ==> CurrentLastBid(db.items[id]) <= CurrentLastBid(Run(db, reqs).items[id])
    decreases |reqs|
  {
    if |reqs| > 0 {
      var next := Step(db, reqs[0]);
      assert next.items.Keys == db.items.Keys;
      assert forall id :: id in db.items ==> CurrentLastBid(db.items[id]) <= CurrentLastBid(next.items[id]);
      RunLastBidMonotone(next, reqs[1..]);
    }
  }

  /** Scenario: on a fresh item 100 succeeds, a second 100 is refused reporting 100, and 101 succeeds. */
  lemma ScenarioIncreasingBids(db: Db, x: ItemId, a: UserId, b: UserId, now: Time)
    requires x in db.items && db.items[x].lastBid.None?
    requires db.items[x].biddingEnabled && db.items[x].biddingStatus == Active
    requires !EndTimePassed(db.items[x], now)
    ensures var d1 := PlaceBid(db, x, a, Some(100.0), now);
            && d1.Ok? && CurrentLastBid(d1.value.items[x]) == 100.0
            && PlaceBid(d1.value, x, b, Some(100.0), now) == Err(BadRequest(BidTooLow(100.0)))
            && PlaceBid(d1.value, x, b, Some(101.0), now).Ok?
            && CurrentLastBid(PlaceBid(d1.value, x, b, Some(101.0), now).value.items[x]) == 101.0
  {
  }

  // ---------------------------------------------------------------------
  // Listing bids.
  // ---------------------------------------------------------------------

  /** `Bid.find({ eWaste: itemId })`: the bids on one item, in storage order. */
  function BidsOn(bids: seq<Bid>, itemId: ItemId): (r: seq<Bid>)
    ensures forall b :: multiset(r)[b] == if b.eWaste == itemId then multiset(bids)[b] else 0
  {
    if |bids| == 0 then []
    else
      assert bids == [bids[0]] + bids[1..];
      if bids[0].eWaste == itemId then [bids[0]] + BidsOn(bids[1..], itemId)
      else BidsOn(bids[1..], itemId)
  }

  predicate SortedByAmountDesc(s: seq<Bid>) {
    forall i, j :: 0 <= i < j < |s| ==> s[i].amount >= s[j].amount
  }

  /** Places `b` after every bid of at least its amount, so equal amounts keep their earlier-first order. */
  function InsertByAmount(b: Bid, s: seq<Bid>): (r: seq<Bid>)
    requires SortedByAmountDesc(s)
    ensures SortedByAmountDesc(r)
    ensures multiset(r) == multiset(s) + multiset{b}
  {
    if |s| == 0 then [b]
    else if b.amount > s[0].amount then [b] + s
    else
      var rest := InsertByAmount(b, s[1..]);
      assert s == [s[0]] + s[1..];
      forall k | 0 <= k < |rest|
        ensures rest[k].amount <= s[0].amount
      {
        assert rest[k] in multiset(rest);
        if rest[k] != b {
          assert rest[k] in s[1..];
        }
      }
      [s[0]] + rest
  }

  function SortByAmountDesc(s: seq<Bid>): (r: seq<Bid>)
    ensures SortedByAmountDesc(r)
    ensures multiset(r) == multiset(s)
  {
    if |s| == 0 then []
    else
      assert s == s[..|s| - 1] + [s[|s| - 1]];
      InsertByAmount(s[|s| - 1], SortByAmountDesc(s[..|s| - 1]))
  }

  /** `getBidsByEwasteId`: exactly the bids on `itemId`, highest amount first. */
  function BidsForItem(db: Db, itemId: ItemId): (r: seq<Bid>)
    ensures SortedByAmountDesc(r)
    ensures forall b :: b in r <==> b in db.bids && b.eWaste == itemId
    ensures forall b :: multiset(r)[b] == if b.eWaste == itemId then multiset(db.bids)[b] else 0
  {
    SortByAmountDesc(BidsOn(db.bids, itemId))
  }

  /** `getAllBids`: every stored bid, in storage order. */
  function AllBids(db: Db): seq<Bid> {
    db.bids
  }

  /** Every bid of the full listing appears in its own item's listing, as often as it is stored. */
  lemma AllBidsCoveredByItemListings(db: Db)
    ensures forall i :: 0 <= i < |AllBids(db)| ==>
      multiset(BidsForItem(db, AllBids(db)[i].eWaste))[AllBids(db)[i]] == multiset(AllBids(db))[AllBids(db)[i]]
  {
  }

  /** In a consistent store the first (largest) listed bid on an item is at most its `lastBid`. */
  lemma ListingHeadAtMostLastBid(db: Db, itemId: ItemId)
    requires Consistent(db) && itemId in db.items
    requires |BidsForItem(db, itemId)| > 0
    ensures BidsForItem(db, itemId)[0].amount <= CurrentLastBid(db.items[itemId])
  {
    var b := BidsForItem(db, itemId)[0];
    assert b in db.bids;
    var i :| 0 <= i < |db.bids| && db.bids[i] == b;
  }
}

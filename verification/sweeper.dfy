/**
  One pass of the bidding expiry sweep (the scheduler's cron job body).

  The pass selects every item with bidding enabled, `biddingStatus` "active"
  and an end time at or before `now`, sets it to "stopped" and appends one
  `{ status: "stopped" }` history entry stamped `stamp` (the clock read in
  the loop). The cron registration itself is not modelled: `now` and
  `stamp` are parameters.
 */
module Sweeper {
  import opened Wrappers
  import opened Records

  /** The pass's query: `biddingEnabled: true, biddingStatus: "active", biddingEndTime: { $lte: now }`. */
  predicate Selected(item: Item, now: Time) {
    item.biddingEnabled && item.biddingStatus == Active && item.biddingEndTime.Some? && item.biddingEndTime.value <= now
  }

  /** The per-item transition of the pass. */
  function Close(item: Item, stamp: Time): Item {
    item.(biddingStatus := Stopped, statusHistory := item.statusHistory + [HistoryEntry("stopped", stamp)])
  }

  /** Exactly `item` after one `stopped` transition and nothing else. */
  predicate ClosedFrom(item: Item, closed: Item, stamp: Time) {
    && closed.biddingStatus == Stopped
    && |closed.statusHistory| == |item.statusHistory| + 1
    && closed.statusHistory[..|item.statusHistory|] == item.statusHistory
    && closed.statusHistory[|item.statusHistory|] == HistoryEntry("stopped", stamp)
    && closed.(biddingStatus := item.biddingStatus, statusHistory := item.statusHistory) == item
  }

  /** One pass over the item collection. */
  function Sweep(items: map<ItemId, Item>, now: Time, stamp: Time): (r: map<ItemId, Item>)
    ensures r.Keys == items.Keys
    ensures forall id :: id in items && Selected(items[id], now) ==> ClosedFrom(items[id], r[id], stamp)
    ensures forall id :: id in items && !Selected(items[id], now) ==> r[id] == items[id]
  {
    map id | id in items :: if Selected(items[id], now) then Close(items[id], stamp) else items[id]
  }

  /** The pass as the scheduler runs it: the query's results, saved one after another. */
  method SweepPass(items: map<ItemId, Item>, now: Time, stamp: Time) returns (r: map<ItemId, Item>)
    ensures r == Sweep(items, now, stamp)
  {
    r := items;
    var pending := set id | id in items && Selected(items[id], now);
    while pending != {}
      invariant pending <= items.Keys
      invariant r.Keys == items.Keys
      invariant forall id :: id in items && (id in pending || !Selected(items[id], now)) ==> r[id] == items[id]
      invariant forall id :: id in items && id !in pending && Selected(items[id], now) ==> r[id] == Close(items[id], stamp)
      decreases pending
    {
      var id :| id in pending;
      r := r[id := Close(r[id], stamp)];
      pending := pending - {id};
    }
  }

  /** The sweep applied to the whole database: bids and users are not touched. */
  function SweepDb(db: Db, now: Time, stamp: Time): (r: Db)
    ensures r.bids == db.bids && r.users == db.users
    ensures r.items.Keys == db.items.Keys
    ensures forall id :: id in db.items ==> CurrentLastBid(r.items[id]) == CurrentLastBid(db.items[id])
  {
    db.(items := Sweep(db.items, now, stamp))
  }

  /** After a pass no item satisfies the query. */
  lemma NothingSelectedAfterSweep(items: map<ItemId, Item>, now: Time, stamp: Time)
    ensures forall id :: id in Sweep(items, now, stamp) ==> !Selected(Sweep(items, now, stamp)[id], now)
  {
  }

  /** A second pass at the same `now` changes nothing: no duplicate history entries. */
  lemma SweepIdempotent(items: map<ItemId, Item>, now: Time, stamp: Time, stamp2: Time)
    ensures Sweep(Sweep(items, now, stamp), now, stamp2) == Sweep(items, now, stamp)
  {
    var once := Sweep(items, now, stamp);
    NothingSelectedAfterSweep(items, now, stamp);
    assert forall id :: id in once ==> Sweep(once, now, stamp2)[id] == once[id];
  }

  /** The pass never produces "completed" and never makes bidding active. */
  lemma SweepOnlyStops(items: map<ItemId, Item>, now: Time, stamp: Time)
    ensures forall id :: id in items && Sweep(items, now, stamp)[id].biddingStatus != items[id].biddingStatus ==>
      items[id].biddingStatus == Active && Sweep(items, now, stamp)[id].biddingStatus == Stopped
    ensures forall id :: id in items && Sweep(items, now, stamp)[id].biddingStatus == Active ==>
      items[id].biddingStatus == Active
  {
  }

  /** An item whose end time is exactly `now` is closed by the pass. */
  lemma SweepClosesAtEndTime(items: map<ItemId, Item>, id: ItemId, stamp: Time)
    requires id in items && items[id].biddingEnabled && items[id].biddingStatus == Active
    requires items[id].biddingEndTime.Some?
    ensures Sweep(items, items[id].biddingEndTime.value, stamp)[id].biddingStatus == Stopped
  {
  }

  /** Scenario: an elapsed item gains one `stopped` entry; a second pass adds none. */
  lemma ScenarioElapsedItem(items: map<ItemId, Item>, y: ItemId, now: Time, stamp: Time, stamp2: Time)
    requires y in items && items[y].biddingEnabled && items[y].biddingStatus == Active
    requires items[y].biddingEndTime == Some(now - 1)
    ensures var once := Sweep(items, now, stamp);
            && once[y].biddingStatus == Stopped
            && once[y].statusHistory == items[y].statusHistory + [HistoryEntry("stopped", stamp)]
            && Sweep(once, now, stamp2)[y].statusHistory == once[y].statusHistory
  {
    SweepIdempotent(items, now, stamp, stamp2);
  }
}

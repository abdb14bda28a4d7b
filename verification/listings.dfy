/**
  The item controller: creating a listing, reading and deleting it, changing
  its admin status, and its own (unrouted, unvalidated) bid endpoint.
 */
module Listings {
  import opened Wrappers
  import opened Records
  import opened Numbers

  /**
    The body of a create request. It arrives as multipart form data, so every
    field is a string; an absent text field is "". `biddingEnabled` keeps
    absence apart (None), because the schema casts a present value.
    `biddingEndTime` is taken as already read as a time.
   */
  datatype CreateRequest = CreateRequest(
    itemName: string,
    category: string,
    condition: string,
    weight: string,
    quantity: string,
    location: string,
    donationOrSale: string,
    price: string,
    biddingEnabled: Option<string>,
    biddingEndTime: Option<Time>)

  /** JavaScript truthiness of the `biddingEnabled` field: present and not "". "false" is truthy. */
  predicate FlagTruthy(flag: Option<string>) {
    flag.Some? && flag.value != ""
  }

  const BooleanTrueStrings: set<string> := {"true", "1", "yes"}
  const BooleanFalseStrings: set<string> := {"false", "0", "no"}

  /** Mongoose's Boolean cast of a present string: None is a cast error. */
  function CastBoolean(s: string): (r: Option<bool>)
    ensures r == Some(true) <==> s in BooleanTrueStrings
    ensures r == Some(false) <==> s in BooleanFalseStrings
    ensures r.None? <==> s !in BooleanTrueStrings + BooleanFalseStrings
  {
    if s in BooleanTrueStrings then Some(true)
    else if s in BooleanFalseStrings then Some(false)
    else None
  }

  /** The flag a save stores: an absent field stays unset, which reads as false. */
  function CastFlag(flag: Option<string>): Option<bool> {
    if flag.None? then Some(false) else CastBoolean(flag.value)
  }

  /** The controller's presence check, on the raw strings. */
  predicate HasRequiredFields(req: CreateRequest) {
    && req.itemName != "" && req.category != "" && req.condition != ""
    && req.weight != "" && req.quantity != ""
    && req.location != "" && req.donationOrSale != ""
  }

  /** The request passes every check the controller makes before the upload. */
  predicate ControllerAccepts(req: CreateRequest) {
    && HasRequiredFields(req)
    && !(req.donationOrSale == "sell" && req.price == "")
    && !(FlagTruthy(req.biddingEnabled) && req.biddingEndTime.None?)
  }

  /**
    Every field the schema types casts: weight and quantity to numbers, the
    price of a sale to a number, and a present `biddingEnabled` to a
    Boolean. The number casts see only non-empty strings here.
   */
  predicate CastsCleanly(req: CreateRequest) {
    && ParseNumber(req.weight).Some? && ParseNumber(req.quantity).Some?
    && (req.donationOrSale == "sell" ==> ParseNumber(req.price).Some?)
    && CastFlag(req.biddingEnabled).Some?
  }

  /**
    The document the controller builds, as the schema casts it: price only
    for a sale, and the end time only when `withEndTime`. None when a cast fails.
   */
  function CastItem(owner: UserId, req: CreateRequest, imageUrl: string, withEndTime: bool): (r: Option<Item>)
    ensures r.Some? <==> CastsCleanly(req)
    ensures r.Some? ==> && r.value.owner == owner
                        && r.value.weight == ParseNumber(req.weight).value
                        && r.value.quantity == ParseNumber(req.quantity).value
                        && r.value.price == (if req.donationOrSale == "sell" then ParseNumber(req.price) else None)
                        && r.value.biddingEnabled == CastFlag(req.biddingEnabled).value
                        && r.value.biddingEndTime == (if withEndTime then req.biddingEndTime else None)
                        && r.value.status == DefaultItemStatus && r.value.biddingStatus == Active
                        && r.value.statusHistory == [] && r.value.lastBid.None? && r.value.bids == []
  {
    var weight := ParseNumber(req.weight);
    var quantity := ParseNumber(req.quantity);
    var price := if req.donationOrSale == "sell" then ParseNumber(req.price) else None;
    var flag := CastFlag(req.biddingEnabled);
    if weight.None? || quantity.None? || (req.donationOrSale == "sell" && price.None?) || flag.None? then None
    else
      Some(Item(owner, req.itemName, req.category, req.condition, weight.value, quantity.value,
                req.location, req.donationOrSale, price, flag.value,
                if withEndTime then req.biddingEndTime else None,
                imageUrl, DefaultItemStatus, Active, [], None, []))
  }

  /** Appends `itemId` to the `recycledItems` of the user whose id is `owner`. */
  function AddRecycled(users: seq<User>, owner: UserId, itemId: ItemId): (r: seq<User>)
    ensures |r| == |users|
    ensures forall k :: 0 <= k < |users| ==>
      r[k] == if users[k].id == owner then users[k].(recycledItems := users[k].recycledItems + [itemId]) else users[k]
  {
    if |users| == 0 then []
    else
      var u := users[0];
      [if u.id == owner then u.(recycledItems := u.recycledItems + [itemId]) else u]
        + AddRecycled(users[1..], owner, itemId)
  }

  /** The save after the upload: a failed cast or schema check is a 500; otherwise the item and its owner are stored. */
  function Save(db: Db, owner: UserId, req: CreateRequest, newId: ItemId, imageUrl: string, withEndTime: bool): (r: Result<Db, ApiError>)
    requires newId !in db.items
    ensures r.Err? ==> r.error == ServerError
    ensures r.Ok? <==> CastItem(owner, req, imageUrl, withEndTime).Some? && ItemSchemaValid(CastItem(owner, req, imageUrl, withEndTime).value)
    ensures r.Ok? ==> r.value == Db(db.items[newId := CastItem(owner, req, imageUrl, withEndTime).value], db.bids, AddRecycled(db.users, owner, newId))
  {
    match CastItem(owner, req, imageUrl, withEndTime)
    case None => Err(ServerError)
    case Some(item) =>
      if !ItemSchemaValid(item) then Err(ServerError)
      else Ok(Db(db.items[newId := item], db.bids, AddRecycled(db.users, owner, newId)))
  }

  /**
    `createEwaste`. `caller` is the user the wallet middleware resolved,
    `hasFile` whether an image came with the request, `imageUrl` the URL the
    image host answered and `newId` the generated id of the new document.
    The checks test the raw strings: "0" is a truthy price and "false" a
    truthy `biddingEnabled`.
   */
  function CreateEwaste(db: Db, caller: Option<User>, req: CreateRequest, hasFile: bool,
                        newId: ItemId, imageUrl: string): (r: Result<Db, ApiError>)
    requires newId !in db.items
    ensures caller.None? ==> r == Err(BadRequest(NotAuthenticated))
    ensures caller.Some? && !HasRequiredFields(req) ==> r == Err(BadRequest(MissingFields))
    ensures caller.Some? && HasRequiredFields(req) && req.donationOrSale == "sell" && req.price == "" ==>
              r == Err(BadRequest(PriceRequired))
    ensures (caller.Some? && HasRequiredFields(req) && !(req.donationOrSale == "sell" && req.price == "")
             && FlagTruthy(req.biddingEnabled) && req.biddingEndTime.None?) ==> r == Err(BadRequest(EndTimeRequired))
    ensures caller.Some? && ControllerAccepts(req) && !hasFile ==> r == Err(BadRequest(NoImage))
    ensures r == Err(ServerError) <==>
              caller.Some? && ControllerAccepts(req) && hasFile && !(CastsCleanly(req) && req.donationOrSale in DispositionValues)
    ensures r.Ok? <==> caller.Some? && ControllerAccepts(req) && hasFile && CastsCleanly(req) && req.donationOrSale in DispositionValues
    ensures r.Ok? ==> r.value.items.Keys == db.items.Keys + {newId}
    ensures r.Ok? ==> forall id :: id in db.items ==> r.value.items[id] == db.items[id]
    ensures r.Ok? ==> var item := r.value.items[newId];
              && ItemSchemaValid(item)
              && item.owner == caller.value.id
              && item.weight == ParseNumber(req.weight).value && item.quantity == ParseNumber(req.quantity).value
              && (item.price.Some? <==> item.donationOrSale == "sell")
              && item.biddingEnabled == CastFlag(req.biddingEnabled).value
              && (item.biddingEndTime.Some? <==> FlagTruthy(req.biddingEnabled))
              && item.status == "pending" && item.biddingStatus == Active
              && item.statusHistory == [] && item.lastBid.None?
    ensures r.Ok? ==> r.value.bids == db.bids && r.value.users == AddRecycled(db.users, caller.value.id, newId)
  {
    if caller.None? then Err(BadRequest(NotAuthenticated))
    else if !HasRequiredFields(req) then Err(BadRequest(MissingFields))
    else if req.donationOrSale == "sell" && req.price == "" then Err(BadRequest(PriceRequired))
    else if FlagTruthy(req.biddingEnabled) && req.biddingEndTime.None? then Err(BadRequest(EndTimeRequired))
    else if !hasFile then Err(BadRequest(NoImage))
    else Save(db, caller.value.id, req, newId, imageUrl, FlagTruthy(req.biddingEnabled))
  }

  /** The owner's `recycledItems` gains the new id; every other user is unchanged. */
  lemma CreateRecordsOwnership(db: Db, caller: Option<User>, req: CreateRequest, hasFile: bool,
                               newId: ItemId, imageUrl: string, k: nat)
    requires newId !in db.items
    requires CreateEwaste(db, caller, req, hasFile, newId, imageUrl).Ok?
    requires k < |db.users|
    ensures var users := CreateEwaste(db, caller, req, hasFile, newId, imageUrl).value.users;
            && (db.users[k].id == caller.value.id ==> users[k].recycledItems == db.users[k].recycledItems + [newId])
            && (db.users[k].id != caller.value.id ==> users[k] == db.users[k])
  {
  }

  /** A disposition other than "donate"/"sell" passes the controller's checks but fails the schema on save. */
  lemma UnknownDispositionFailsOnSave(db: Db, caller: User, req: CreateRequest, newId: ItemId, imageUrl: string)
    requires newId !in db.items
    requires ControllerAccepts(req) && req.donationOrSale !in DispositionValues
    ensures CreateEwaste(db, Some(caller), req, true, newId, imageUrl) == Err(ServerError)
  {
  }

  /** A sale at price "0" passes the controller's price check (the string is truthy) and is stored at price 0. */
  lemma SaleAtPriceZeroCreated(db: Db, caller: User, req: CreateRequest, newId: ItemId, imageUrl: string)
    requires newId !in db.items
    requires HasRequiredFields(req) && req.donationOrSale == "sell" && req.price == "0"
    requires ParseNumber(req.weight).Some? && ParseNumber(req.quantity).Some? && req.biddingEnabled.None?
    ensures var r := CreateEwaste(db, Some(caller), req, true, newId, imageUrl);
            r.Ok? && r.value.items[newId].price == Some(0.0)
  {
  }

  /** A weight that is not a number passes the controller's presence check and fails the cast on save. */
  lemma UnparsableWeightFailsOnSave(db: Db, caller: User, req: CreateRequest, newId: ItemId, imageUrl: string)
    requires newId !in db.items
    requires ControllerAccepts(req) && req.weight == "abc"
    ensures CreateEwaste(db, Some(caller), req, true, newId, imageUrl) == Err(ServerError)
  {
  }

  /**
    Code as written: the scan page sends `biddingEnabled` as "false" when
    bidding is off, with no end time. The string is truthy, so the request
    is refused as bidding without an end time.
   */
  lemma FormWithoutBiddingRefused(db: Db, caller: User, req: CreateRequest, hasFile: bool, newId: ItemId, imageUrl: string)
    requires newId !in db.items
    requires HasRequiredFields(req) && !(req.donationOrSale == "sell" && req.price == "")
    requires req.biddingEnabled == Some("false") && req.biddingEndTime.None?
    ensures CreateEwaste(db, Some(caller), req, hasFile, newId, imageUrl) == Err(BadRequest(EndTimeRequired))
  {
  }

  /**
    `createEwaste` with its bidding tests on the Boolean the schema stores
    rather than on the raw string: the end time is demanded and kept exactly
    when `biddingEnabled` casts to true.
   */
  function CreateEwasteCastFlag(db: Db, caller: Option<User>, req: CreateRequest, hasFile: bool,
                                newId: ItemId, imageUrl: string): (r: Result<Db, ApiError>)
    requires newId !in db.items
    ensures (caller.Some? && HasRequiredFields(req) && !(req.donationOrSale == "sell" && req.price == "")
             && CastFlag(req.biddingEnabled) == Some(true) && req.biddingEndTime.None?) ==> r == Err(BadRequest(EndTimeRequired))
    ensures r == Err(BadRequest(EndTimeRequired)) ==> CastFlag(req.biddingEnabled) == Some(true) && req.biddingEndTime.None?
    ensures r.Ok? <==> && caller.Some? && HasRequiredFields(req) && !(req.donationOrSale == "sell" && req.price == "")
                       && !(CastFlag(req.biddingEnabled) == Some(true) && req.biddingEndTime.None?)
                       && hasFile && CastsCleanly(req) && req.donationOrSale in DispositionValues
    ensures r.Ok? ==> r.value.items.Keys == db.items.Keys + {newId}
    ensures r.Ok? ==> var item := r.value.items[newId];
              && ItemSchemaValid(item)
              && item.owner == caller.value.id
              && (item.biddingEndTime.Some? <==> item.biddingEnabled)
              && (item.biddingEnabled ==> item.biddingEndTime == req.biddingEndTime)
    ensures r.Ok? ==> forall id :: id in db.items ==> r.value.items[id] == db.items[id]
  {
    var wantsBidding := CastFlag(req.biddingEnabled) == Some(true);
    if caller.None? then Err(BadRequest(NotAuthenticated))
    else if !HasRequiredFields(req) then Err(BadRequest(MissingFields))
    else if req.donationOrSale == "sell" && req.price == "" then Err(BadRequest(PriceRequired))
    else if wantsBidding && req.biddingEndTime.None? then Err(BadRequest(EndTimeRequired))
    else if !hasFile then Err(BadRequest(NoImage))
    else Save(db, caller.value.id, req, newId, imageUrl, wantsBidding)
  }

  /** With the corrected test, the page's request with bidding off is created, bidding disabled and no end time. */
  lemma FormWithoutBiddingCreated(db: Db, caller: User, req: CreateRequest, newId: ItemId, imageUrl: string)
    requires newId !in db.items
    requires HasRequiredFields(req) && !(req.donationOrSale == "sell" && req.price == "")
    requires CastsCleanly(req) && req.donationOrSale in DispositionValues
    requires req.biddingEnabled == Some("false") && req.biddingEndTime.None?
    ensures var r := CreateEwasteCastFlag(db, Some(caller), req, true, newId, imageUrl);
            r.Ok? && !r.value.items[newId].biddingEnabled && r.value.items[newId].biddingEndTime.None?
  {
  }

  /** Where the flag is absent or "true", the corrected endpoint answers exactly as the code as written. */
  lemma CastFlagAgreesOnTrueOrAbsent(db: Db, caller: Option<User>, req: CreateRequest, hasFile: bool,
                                     newId: ItemId, imageUrl: string)
    requires newId !in db.items
    requires req.biddingEnabled.None? || req.biddingEnabled == Some("true")
    ensures CreateEwasteCastFlag(db, caller, req, hasFile, newId, imageUrl) == CreateEwaste(db, caller, req, hasFile, newId, imageUrl)
  {
  }

  /** `getEwasteById`. */
  function GetEwasteById(db: Db, id: ItemId): (r: Result<Item, ApiError>)
    ensures r.Ok? <==> id in db.items
    ensures r.Ok? ==> r.value == db.items[id]
    ensures r.Err? ==> r.error == NotFound
  {
    if id in db.items then Ok(db.items[id]) else Err(NotFound)
  }

  /** A created item reads back as created, and deleting it restores the item collection. */
  lemma CreateReadDeleteRoundTrip(db: Db, caller: Option<User>, req: CreateRequest, hasFile: bool,
                                  newId: ItemId, imageUrl: string)
    requires newId !in db.items
    requires CreateEwaste(db, caller, req, hasFile, newId, imageUrl).Ok?
    ensures var created := CreateEwaste(db, caller, req, hasFile, newId, imageUrl).value;
            && GetEwasteById(created, newId) == Ok(CastItem(caller.value.id, req, imageUrl, FlagTruthy(req.biddingEnabled)).value)
            && DeleteEwaste(created, newId).Ok?
            && DeleteEwaste(created, newId).value.items == db.items
            && GetEwasteById(DeleteEwaste(created, newId).value, newId) == Err(NotFound)
  {
    var created := CreateEwaste(db, caller, req, hasFile, newId, imageUrl).value;
    var deleted := DeleteEwaste(created, newId).value;
    assert deleted.items.Keys == db.items.Keys;
  }

  /** The statuses `updateEwasteStatus` admits. */
  const AdminStatuses: set<string> := {"pending", "approved", "rejected", "sold"}

  /**
    `updateEwasteStatus`: 404, then 400 for a status outside `AdminStatuses`;
    the save then runs the schema's `status` enum, which answers 500 for
    every admitted status except "pending".
   */
  function UpdateEwasteStatus(db: Db, id: ItemId, status: string): (r: Result<Db, ApiError>)
    ensures id !in db.items ==> r == Err(NotFound)
    ensures r == Err(BadRequest(InvalidStatus)) <==> id in db.items && status !in AdminStatuses
    ensures id in db.items && status in AdminStatuses && status !in ItemStatusValues ==> r == Err(ServerError)
    ensures r.Ok? ==> status in AdminStatuses && status in ItemStatusValues
    ensures r.Ok? ==> id in db.items && r.value == db.(items := db.items[id := db.items[id].(status := status)])
  {
    if id !in db.items then Err(NotFound)
    else if status !in AdminStatuses then Err(BadRequest(InvalidStatus))
    else if status !in ItemStatusValues then Err(ServerError)
    else Ok(db.(items := db.items[id := db.items[id].(status := status)]))
  }

  /**
    Of the four admitted statuses only "pending" can be stored: the other
    three pass the handler's check and fail the schema enum on save (500).
   */
  lemma OnlyPendingIsStored(db: Db, id: ItemId, status: string)
    requires id in db.items && status in AdminStatuses
    ensures UpdateEwasteStatus(db, id, status).Ok? <==> status == "pending"
    ensures status != "pending" ==> UpdateEwasteStatus(db, id, status) == Err(ServerError)
  {
  }

  /** The `status` enum widened to the statuses the endpoint admits. */
  const WidenedStatusValues: set<string> := ItemStatusValues + AdminStatuses

  /** `updateEwasteStatus` saved against the widened enum. */
  function UpdateEwasteStatusWidened(db: Db, id: ItemId, status: string): (r: Result<Db, ApiError>)
    ensures id !in db.items ==> r == Err(NotFound)
    ensures r == Err(BadRequest(InvalidStatus)) <==> id in db.items && status !in AdminStatuses
    ensures r.Ok? ==> id in db.items && r.value.items.Keys == db.items.Keys && r.value.items[id].status == status
    ensures r.Ok? ==> r.value.bids == db.bids && r.value.users == db.users
    ensures r.Ok? ==> forall j :: j in db.items && j != id ==> r.value.items[j] == db.items[j]
  {
    if id !in db.items then Err(NotFound)
    else if status !in AdminStatuses then Err(BadRequest(InvalidStatus))
    else if status !in WidenedStatusValues then Err(ServerError)
    else Ok(db.(items := db.items[id := db.items[id].(status := status)]))
  }

  /** Against the widened enum every admitted status is stored, exactly when the item exists. */
  lemma WidenedStoresEveryAdminStatus(db: Db, id: ItemId, status: string)
    requires status in AdminStatuses
    ensures UpdateEwasteStatusWidened(db, id, status).Ok? <==> id in db.items
    ensures id in db.items ==> UpdateEwasteStatusWidened(db, id, status).value.items[id] == db.items[id].(status := status)
  {
  }

  /**
    The item controller's own `placeBid`: it checks only that bidding is
    enabled and the end time has not passed, then pushes the body's bid
    onto the item, whatever its amount and whatever the `biddingStatus`.
   */
  function PlaceBidUnchecked(db: Db, id: ItemId, user: Option<UserId>, amount: Option<real>, now: Time): (r: Result<Db, ApiError>)
    ensures r.Ok? <==> id in db.items && db.items[id].biddingEnabled
                       && !(db.items[id].biddingEndTime.Some? && db.items[id].biddingEndTime.value < now)
    ensures r.Ok? ==> r.value.items.Keys == db.items.Keys && r.value.bids == db.bids && r.value.users == db.users
    ensures r.Ok? ==> r.value.items[id].bids == db.items[id].bids + [EmbeddedBid(user, amount)]
    ensures r.Ok? ==> r.value.items[id].(bids := db.items[id].bids) == db.items[id]
    ensures r.Ok? ==> forall other :: other in db.items && other != id ==> r.value.items[other] == db.items[other]
  {
    if id !in db.items then Err(NotFound)
    else
      var item := db.items[id];
      if !item.biddingEnabled then Err(BadRequest(BiddingNotEnabled))
      else if item.biddingEndTime.Some? && item.biddingEndTime.value < now then Err(BadRequest(BiddingEnded))
      else Ok(db.(items := db.items[id := item.(bids := item.bids + [EmbeddedBid(user, amount)])]))
  }

  /** The unchecked endpoint takes a bid no higher than `lastBid`, even on a stopped item. */
  lemma UncheckedAcceptsAnyAmount(db: Db, id: ItemId, user: Option<UserId>, amount: real, now: Time, endTime: Time)
    requires id in db.items && ItemSchemaValid(db.items[id]) && db.items[id].biddingEnabled
    requires db.items[id].biddingEndTime == Some(endTime) && now <= endTime
    requires amount <= CurrentLastBid(db.items[id])
    ensures PlaceBidUnchecked(db, id, user, Some(amount), now).Ok?
    ensures PlaceBidUnchecked(db, id, user, None, now).Ok?
  {
  }

  /** `deleteEwaste`: 404 for an unknown id; otherwise only that item disappears. */
  function DeleteEwaste(db: Db, id: ItemId): (r: Result<Db, ApiError>)
    ensures r.Err? <==> id !in db.items
    ensures r.Err? ==> r.error == NotFound
    ensures r.Ok? ==> r.value.items.Keys == db.items.Keys - {id}
    ensures r.Ok? ==> forall other :: other in r.value.items ==> r.value.items[other] == db.items[other]
    ensures r.Ok? ==> r.value.bids == db.bids && r.value.users == db.users
  {
    if id !in db.items then Err(NotFound)
    else Ok(db.(items := map other | other in db.items && other != id :: db.items[other]))
  }
}

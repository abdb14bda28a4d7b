/**
  The persisted records of the marketplace (the `Ewaste`, `Bid` and `User`
  collections), the save-time rules their schemas enforce, and the error
  responses the controllers return.
 */
module Records {
  import opened Wrappers

  /** Document ids. MongoDB's generated ObjectIds are modelled as naturals chosen by the caller. */
  type ItemId = nat
  type UserId = nat

  /** Instants (`Date` values) as integers; only their order matters. */
  type Time = int

  /** The `biddingStatus` enum of an item. */
  datatype BiddingStatus = Active | Stopped | Completed

  /** One entry of an item's `statusHistory`. */
  datatype HistoryEntry = HistoryEntry(status: string, timestamp: Time)

  /** A bid pushed onto an item by the item-controller bid endpoint: its body values, unchecked. */
  datatype EmbeddedBid = EmbeddedBid(user: Option<UserId>, amount: Option<real>)

  /**
    An e-waste listing. `donationOrSale` and `status` are the raw strings the
    controllers store, so that the schema's enums can be checked on save.
    `lastBid` and `bids` are read and written by the controllers although the
    schema does not declare them.
   */
  datatype Item = Item(
    owner: UserId,
    itemName: string,
    category: string,
    condition: string,
    weight: real,
    quantity: real,
    location: string,
    donationOrSale: string,
    price: Option<real>,
    biddingEnabled: bool,
    biddingEndTime: Option<Time>,
    imageUrl: string,
    status: string,
    biddingStatus: BiddingStatus,
    statusHistory: seq<HistoryEntry>,
    lastBid: Option<real>,
    bids: seq<EmbeddedBid>)

  /** One accepted bid; `createdAt`/`updatedAt` are the schema's automatic timestamps. */
  datatype Bid = Bid(eWaste: ItemId, bidder: UserId, amount: real, createdAt: Time, updatedAt: Time)

  datatype User = User(
    id: UserId,
    name: string,
    email: string,
    walletAddress: string,
    recycledItems: seq<ItemId>,
    rewardsEarned: real)

  /** The three collections. Bids and users are kept in insertion (natural) order. */
  datatype Db = Db(items: map<ItemId, Item>, bids: seq<Bid>, users: seq<User>)

  /** Why a request was refused with status 400. */
  datatype Reason =
    | NotAuthenticated
    | MissingFields
    | PriceRequired
    | EndTimeRequired
    | NoImage
    | InvalidStatus
    | BiddingNotEnabled
    | BiddingInactive
    | BiddingEnded
    | BidTooLow(current: real)
    | UserInfoMissing
    | WalletMissing
    | NoRewards

  /** An error response: 404, 400 with its reason, or 500 (a failed save). */
  datatype ApiError = NotFound | BadRequest(reason: Reason) | ServerError

  /** The HTTP status each handler answers with for an error kind. */
  function StatusCode(e: ApiError): (code: nat)
    ensures e.NotFound? <==> code == 404
    ensures e.BadRequest? <==> code == 400
    ensures e.ServerError? <==> code == 500
  {
    match e
    case NotFound => 404
    case BadRequest(_) => 400
    case ServerError => 500
  }

  const DispositionValues: set<string> := {"donate", "sell"}
  const ItemStatusValues: set<string> := {"pending", "active", "stopped"}
  const DefaultItemStatus: string := "pending"
  const MinBidAmount: real := 1.0

  /** The value `lastBid || 0` the controller compares against. */
  function CurrentLastBid(item: Item): real {
    item.lastBid.GetOr(0.0)
  }

  /** The checks Mongoose runs when a whole new item document is saved. */
  predicate ItemSchemaValid(item: Item) {
    && item.itemName != ""
    && item.category != ""
    && item.condition != ""
    && item.location != ""
    && item.donationOrSale in DispositionValues
    && (item.biddingEnabled ==> item.biddingEndTime.Some?)
    && item.status in ItemStatusValues
  }

  /** The checks Mongoose runs when a bid document is saved. */
  predicate BidSchemaValid(bid: Bid) {
    bid.amount >= MinBidAmount
  }

  /** Required string paths of a user document. */
  predicate UserSchemaValid(user: User) {
    user.name != "" && user.email != "" && user.walletAddress != ""
  }

  /** The unique indexes on `email` and `walletAddress`. */
  predicate UsersUnique(users: seq<User>) {
    forall i, j :: 0 <= i < j < |users| ==>
      users[i].email != users[j].email && users[i].walletAddress != users[j].walletAddress
  }

  /** Index of the first user (in natural order) whose wallet is `wallet`: `findOne({ walletAddress })`. */
  function FindByWallet(users: seq<User>, wallet: string): (r: Option<nat>)
    ensures r.Some? ==> r.value < |users| && users[r.value].walletAddress == wallet
    ensures r.Some? ==> forall k :: 0 <= k < r.value ==> users[k].walletAddress != wallet
    ensures r.None? <==> forall k :: 0 <= k < |users| ==> users[k].walletAddress != wallet
  {
    if |users| == 0 then None
    else if users[0].walletAddress == wallet then Some(0)
    else match FindByWallet(users[1..], wallet)
      case None => None
      case Some(k) => Some(k + 1)
  }
}

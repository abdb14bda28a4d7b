# ewastex bidding lifecycle in Dafny

ewastex is an e-waste marketplace. A user signs in with a wallet, lists an
item to donate or sell, and may open it for bidding until an end time. Other
users bid: a bid is accepted only while bidding is enabled and active, the
end time has not passed, and the amount beats the item's `lastBid`. A
scheduled sweep closes items whose end time has been reached. The product
page computes the highest bid from the fetched list and checks an amount
before sending it. Rewards can be claimed once, and are then reset.

This project models that lifecycle with pure functions over an immutable
store:

- `Records` holds the documents and the errors. `Db` is the item collection
  (a map by id), the bid collection (in insertion order) and the user
  collection (in natural order, so `findOne` answers the first match).
  Errors are `NotFound` (404), `BadRequest(reason)` (400) and `ServerError`
  (500).
- An endpoint that writes returns `Result<Db, ApiError>`; one that reads
  returns a `Result` of the value it answers (an item, a session, a
  balance, a claim with its payout). An error carries no store, so a
  refused request writes nothing.
- Amounts are exact reals. A `parseFloat`/`Number` that gives NaN is `None`.
  Time is an integer clock, passed in as `now`.
- Mongoose's save-time validation is modelled wherever the controller's own
  checks do not already imply it:
  - the bid minimum of 1;
  - the item `status` and `donationOrSale` enums, and the end time the
    item schema requires when `biddingEnabled` is true;
  - the casts of the listing's form strings to numbers and to a Boolean;
  - the user's required strings.

Modules:

| module | models |
|---|---|
| `Bidding` | `placeBid`, `getBidsByEwasteId`, `getAllBids` |
| `Sweeper` | the scheduled expiry sweep |
| `Listings` | `createEwaste`, `getEwasteById`, `updateEwasteStatus`, `deleteEwaste` and the second `placeBid` handler |
| `Accounts` | `login`, the wallet middleware, `getRewards` and `claimReward` |
| `BidPanel` | the product page's bid logic |
| `Catalogue` | the catalogue filter and sort |
| `ListingForm` | the listing form |
| `Numbers` | `Number(s)` on decimal strings |
| `Sequences` | order-preserving selection (subsequences) |
| `CoinStore` | the coin exchange page |
| `Lifecycle` | how the pieces agree, and the findings below |

## Model

| member | source | states |
|---|---|---|
| Records.StatusCode | backend/controllers/bidController.js:13-54 | a missing record answers 404, a refused request 400 and a failure 500, and no other codes |
| Records.FindByWallet | backend/middleware/validateWallet.js:13 | `findOne({ walletAddress })` answers the first user holding the wallet, and nothing exactly when no user holds it |
| Bidding.PlaceBid | backend/controllers/bidController.js:5-56 | a bid is accepted iff the item exists, bidding is enabled and active, the end time has not passed, the amount is a number above `lastBid \|\| 0` and meets the schema minimum. Acceptance appends one bid and sets `lastBid`. A too-low refusal reports the current `lastBid` |
| Bidding.RejectionOrder | backend/controllers/bidController.js:12-36 | the refusals are tried in the source's order: 404, not enabled, not active, ended, too low |
| Bidding.BidAtEndTimeAccepted | backend/controllers/bidController.js:25 | the end-time test is strict: a bid at exactly the end time passes it |
| Bidding.SubUnitBidFailsOnSave | backend/models/Bid.js:10 | a first bid between 0 and 1 passes the controller but fails the schema minimum on save (500) |
| Bidding.PlaceBidPreservesConsistent | backend/controllers/bidController.js:30-50 | an accepted bid keeps per-item bid amounts strictly increasing in insertion order and each bid at most its item's `lastBid`; the new bid is the item's largest |
| Bidding.RunPreservesConsistent | backend/controllers/bidController.js:30-50 | any sequence of bid requests, accepted or refused, keeps the store consistent |
| Bidding.RunLastBidMonotone | backend/controllers/bidController.js:30-49 | no sequence of bid requests lowers any item's `lastBid` or changes the set of items |
| Bidding.ScenarioIncreasingBids | backend/controllers/bidController.js:30-49 | after a bid of 100, a second bid of 100 is refused reporting 100 and a bid of 101 is accepted |
| Bidding.BidsOn | backend/controllers/bidController.js:64 | `find({ eWaste })` keeps exactly the bids on the item, each as often as stored |
| Bidding.InsertByAmount | backend/controllers/bidController.js:66 | inserting into an amount-descending list keeps it descending and adds exactly one element |
| Bidding.SortByAmountDesc | backend/controllers/bidController.js:66 | `sort({ amount: -1 })` yields a permutation in non-increasing amount order |
| Bidding.BidsForItem | backend/controllers/bidController.js:60-71 | an item's listing is sorted by amount descending and is exactly the item's bids, with multiplicity |
| Bidding.AllBidsCoveredByItemListings | backend/controllers/bidController.js:74-83 | every bid of the full listing occurs in its item's listing as often as in the full listing |
| Bidding.ListingHeadAtMostLastBid | backend/controllers/bidController.js:60-66 | in a consistent store the top of an item's listing never exceeds the item's `lastBid` |
| Sweeper.Sweep | backend/utils/scheduler.js:14-25 | the sweep closes exactly the enabled, active items whose end time is at or before now: `biddingStatus` stopped plus one "stopped" history entry; the item's `status` field is untouched. All other items are unchanged |
| Sweeper.SweepPass | backend/utils/scheduler.js:21-25 | the per-document loop computes the same store as the collection-wide sweep |
| Sweeper.SweepDb | backend/utils/scheduler.js:14-25 | a sweep changes no bid, no user, no item id and no `lastBid` |
| Sweeper.NothingSelectedAfterSweep | backend/utils/scheduler.js:14-18 | after a sweep, the same query at the same instant selects nothing |
| Sweeper.SweepIdempotent | backend/utils/scheduler.js:14-25 | a second sweep at the same instant changes nothing, whatever its timestamp |
| Sweeper.SweepOnlyStops | backend/utils/scheduler.js:23 | the only `biddingStatus` change a sweep makes is active to stopped; no item becomes active |
| Sweeper.SweepClosesAtEndTime | backend/utils/scheduler.js:17 | the query is inclusive: a sweep at exactly the end time closes the item |
| Sweeper.ScenarioElapsedItem | backend/utils/scheduler.js:21-25 | an elapsed item gains one "stopped" entry; a second pass adds none |
| Listings.CastBoolean | backend/models/EWaste.js:13 | "true", "1" and "yes" cast to true, "false", "0" and "no" to false, and every other string is a cast error |
| Listings.CastItem | backend/controllers/eWasteController.js:43-56 | the document casts exactly when weight, quantity, a sale's price and a present flag all cast; it then carries the cast values, a price only for a sale and the end time only when asked |
| Listings.Save | backend/controllers/eWasteController.js:58-66 | a failed cast or schema check is a 500; otherwise the cast item is stored under the new id and the owner records it |
| Listings.AddRecycled | backend/controllers/eWasteController.js:60-61 | the owner's `recycledItems` gains the new id at the end; every other user is unchanged |
| Listings.CreateEwaste | backend/controllers/eWasteController.js:7-81 | refusals in order on the raw form strings: unauthenticated, a missing (empty) field, a sale with an empty price, a truthy `biddingEnabled` without an end time, no file. After those checks the save fails (500) exactly when a field does not cast or the disposition is outside donate/sell. A created item is schema-valid, owned by the caller and carries the cast weight, quantity and flag. It is pending and active, has a price exactly for a sale and an end time exactly when the flag string is truthy. Nothing else in the store changes except the owner's `recycledItems` |
| Listings.CreateRecordsOwnership | backend/controllers/eWasteController.js:60-61 | after a creation, exactly the caller's user records the new item |
| Listings.UnknownDispositionFailsOnSave | backend/models/EWaste.js:11 | a disposition outside donate/sell passes the controller and fails on save (500) |
| Listings.SaleAtPriceZeroCreated | backend/controllers/eWasteController.js:22 | a sale at price "0" passes the price check, the string being truthy, and is stored at price 0 |
| Listings.UnparsableWeightFailsOnSave | backend/models/EWaste.js:8 | a weight "abc" passes the presence check and fails the number cast on save (500) |
| Listings.FormWithoutBiddingRefused | backend/controllers/eWasteController.js:26 | as written: a request with `biddingEnabled` "false" and no end time, as the scan page sends it, is refused as bidding without an end time |
| Listings.CreateEwasteCastFlag | backend/controllers/eWasteController.js:26 | with the bidding test on the cast Boolean: refused for a missing end time only when the flag casts to true; accepted exactly when every other check passes; a created item has an end time exactly when bidding is enabled |
| Listings.FormWithoutBiddingCreated | backend/controllers/eWasteController.js:26 | with the corrected test, the page's request with bidding off is created with bidding disabled and no end time |
| Listings.CastFlagAgreesOnTrueOrAbsent | backend/controllers/eWasteController.js:26 | for an absent flag or "true", the corrected endpoint answers exactly as the code as written |
| Listings.CreateReadDeleteRoundTrip | backend/controllers/eWasteController.js:43-56 | a created item reads back as built and cast, and deleting it restores the item collection and answers 404 afterwards |
| Listings.GetEwasteById | backend/controllers/eWasteController.js:95-111 | answers the stored item iff the id exists, else 404 |
| Listings.UpdateEwasteStatus | backend/controllers/eWasteController.js:143-166 | 404 for an unknown id, 400 exactly for an existing item and a status outside pending/approved/rejected/sold, 500 for an admitted status the schema enum refuses. A stored status is admitted by both the handler and the schema enum, and only that item's status changes |
| Listings.OnlyPendingIsStored | backend/models/EWaste.js:16 | of the statuses the handler admits, only "pending" survives the schema enum; "approved", "rejected" and "sold" pass the handler and end in a 500 on save |
| Listings.UpdateEwasteStatusWidened | backend/controllers/eWasteController.js:154-160 | with the enum widened, 400 exactly for a status outside the admitted four; an admitted status is stored on that item and nothing else changes |
| Listings.WidenedStoresEveryAdminStatus | backend/controllers/eWasteController.js:154-160 | with the enum widened, every admitted status is stored exactly when the item exists |
| Listings.PlaceBidUnchecked | backend/controllers/eWasteController.js:114-140 | the second handler accepts iff the item exists and bidding is enabled and not ended. It appends `{ user, amount }` to the item's embedded bids and changes nothing else |
| Listings.UncheckedAcceptsAnyAmount | backend/controllers/eWasteController.js:124-133 | on a schema-valid item open for bidding before its end time, the second handler accepts an amount at or below `lastBid`, and a missing amount |
| Listings.DeleteEwaste | backend/controllers/eWasteController.js:169-181 | deletes exactly the named item, 404 iff it does not exist |
| Accounts.FindByEmailOrWallet | backend/controllers/authController.js:15 | answers a user matching the email or the wallet, and nothing exactly when none matches |
| Accounts.Login | backend/controllers/authController.js:3-39 | missing info is 400. The first user matching the email or wallet is answered, without any write. Otherwise the new user built from the request (empty `recycledItems`, 0 rewards by default) is appended and answered as created. 500 exactly when that new user fails the schema |
| Accounts.LoginDefaults | backend/controllers/authController.js:26-27 | a created user without `recycledItems`/`rewardsEarned` gets [] and 0 |
| Accounts.LoginPreservesUniqueness | backend/models/User.js:5-6 | logging in keeps emails and wallet addresses unique |
| Accounts.LoginTwiceCreatesOnce | backend/controllers/authController.js:15-19 | repeating a login creates nobody and, with unique users, answers the same user |
| Accounts.ValidateWalletAddress | backend/middleware/validateWallet.js:4-27 | an empty header is 400, an unknown wallet 404; a known wallet passes with the first user holding it |
| Accounts.ValidateWalletResolvesOwner | backend/middleware/validateWallet.js:13-22 | with unique wallets, a user's own wallet resolves to that user |
| Accounts.GetRewards | backend/controllers/rewardController.js:4-14 | answers the balance of a user holding the wallet; 404 exactly when none does |
| Accounts.ClaimReward | backend/controllers/rewardController.js:16-37 | 404 for an unknown wallet, 400 for a balance of 0 or below. A positive balance is paid in full to the wallet under the given transaction id and reset to 0, and no other user changes |
| Accounts.ClaimTwiceRefused | backend/controllers/rewardController.js:23-31 | after a claim the balance reads 0 and a second claim is refused |
| Accounts.FindByWalletFrame | backend/controllers/rewardController.js:30-31 | resetting a balance does not change which user a wallet resolves to |
| BidPanel.MaxAmount | frontend/src/components/Productinfo.jsx:55 | `Math.max` of a non-empty list is an element no smaller than any other |
| BidPanel.HighestAfterFetch | frontend/src/components/Productinfo.jsx:54-57 | the page's highest bid is the fetched maximum, or unchanged when no bids came back |
| BidPanel.MinNextBid | frontend/src/components/Productinfo.jsx:333 | the displayed minimum next bid exceeds the highest bid |
| BidPanel.ConfirmBid | frontend/src/components/Productinfo.jsx:69-96 | an amount is sent iff a wallet is connected and the amount is a positive number above the highest bid. Without a wallet the page asks for one; a positive amount at or below the highest bid is refused as too low, reporting the highest bid |
| BidPanel.MinNextBidPassesCheck | frontend/src/components/Productinfo.jsx:479 | the displayed minimum always passes the page's check |
| BidPanel.ChangeBid | frontend/src/components/Productinfo.jsx:155-166 | "increase" adds 1. "decrease" takes the larger of the minimum bid and one less, or NaN without a price. Anything else leaves the amount |
| BidPanel.DecreaseStaysAboveHighest | frontend/src/components/Productinfo.jsx:155-166 | once there is a bid, stepping down always yields an amount the page will send |
| BidPanel.FormatWalletAddress | frontend/src/components/Productinfo.jsx:64-67 | "Unknown" for no address. Otherwise the first six characters, "...", and the last four, with JavaScript's substring clamping |
| BidPanel.FormatLongAddress | frontend/src/components/Productinfo.jsx:64-67 | a full-length address is shown in 13 characters keeping its first six and last four |
| Catalogue.Lower | frontend/src/components/Products.jsx:42 | lower-casing keeps the length and maps each character |
| Catalogue.FilterProducts | frontend/src/components/Products.jsx:39-43 | keeps exactly the products the type and search filters admit, with multiplicity and in their fetched order |
| Catalogue.Insert | frontend/src/components/Products.jsx:44-54 | inserting adds exactly one element |
| Catalogue.Sort | frontend/src/components/Products.jsx:44-54 | sorting is a permutation |
| Catalogue.FilteredProducts | frontend/src/components/Products.jsx:39-54 | the listed products are exactly the admitted ones, with multiplicity |
| Catalogue.FilterMeaning | frontend/src/components/Products.jsx:40-42 | "donate" lists only donations and "sell" no donations. A search lists only names containing it, ignoring ASCII case |
| Catalogue.CompareIsKeyDifference | frontend/src/components/Products.jsx:45-53 | on keyed products the comparator is the difference of their sort keys |
| Catalogue.ConsSorted | frontend/src/components/Products.jsx:44-54 | a key no larger than a sorted tail's keys can head it |
| Catalogue.InsertSorted | frontend/src/components/Products.jsx:44-54 | insertion into a key-sorted list keeps it key-sorted |
| Catalogue.InsertAfterHead | frontend/src/components/Products.jsx:44-54 | insertion behind a head with a smaller key keeps the list key-sorted |
| Catalogue.SortSorted | frontend/src/components/Products.jsx:44-54 | sorting keyed products orders them by key |
| Catalogue.FilterKeepsKeys | frontend/src/components/Products.jsx:39-43 | filtering keeps every product keyed |
| Catalogue.PriceLowAscending | frontend/src/components/Products.jsx:46-47 | "price-low" lists prices non-decreasing, a missing price counting as 0 |
| Catalogue.PriceHighDescending | frontend/src/components/Products.jsx:48-49 | "price-high" lists prices non-increasing, a missing price counting as 0 |
| Catalogue.RecentNewestFirst | frontend/src/components/Products.jsx:50-52 | "recent" lists dated products newest first |
| Catalogue.InsertUndatedAppends | frontend/src/components/Products.jsx:52 | an undated product compares equal (NaN) and is placed last |
| Catalogue.SortUndatedKeepsOrder | frontend/src/components/Products.jsx:52 | a stable sort leaves undated products in fetch order |
| Catalogue.RecentKeepsOrderWhenUndated | frontend/src/components/Products.jsx:39-54 | with no creation dates, "recent" lists the filtered products in fetch order |
| Catalogue.EmptySearchKeepsAll | frontend/src/components/Products.jsx:39-43 | type "all" with no search lists every product |
| Numbers.ParseUnsigned | frontend/src/components/Scan.jsx:199-200 | an unsigned decimal parses to a non-negative number |
| Numbers.DigitsRoundTrip | frontend/src/components/Scan.jsx:199-200 | reading back the decimal digits of a natural gives the natural |
| Numbers.ParseNatRoundTrip | frontend/src/components/Scan.jsx:199-200 | `Number` of a natural's decimal text is that natural |
| ListingForm.HandleInputChange | frontend/src/components/Scan.jsx:134-149 | the edited field takes the value and no other field except price changes. Choosing "donate" sets price to "0"; other edits leave price alone |
| ListingForm.HandleFileSelect | frontend/src/components/Scan.jsx:117-132 | a file over 5 MB is refused and the previous selection kept; otherwise the chosen file is selected |
| ListingForm.MissingFields | frontend/src/components/Scan.jsx:158-159 | the missing fields are exactly the required fields without a truthy value, in their listed order |
| Sequences.SubsequenceSkip | frontend/src/components/Scan.jsx:159 | a subsequence of a tail is a subsequence of the whole |
| Sequences.SubsequenceDrop | frontend/src/components/Scan.jsx:159 | dropping the head of a subsequence leaves a subsequence |
| ListingForm.HandleUpload | frontend/src/components/Scan.jsx:151-216 | no file, missing fields, non-positive weight, non-positive quantity and no wallet each stop the upload, in that order. When all pass the form data is sent; a sent form has every required field and positive weight and quantity |
| ListingForm.FormDataDisposition | frontend/src/components/Scan.jsx:202 | the form carries "sell" iff "sell" was chosen, and "donate" otherwise |
| ListingForm.UploadSendsDisposition | frontend/src/components/Scan.jsx:202 | a sent upload carries "sell" iff "sell" was chosen, and "donate" otherwise |
| ListingForm.UploadSendsPrice | frontend/src/components/Scan.jsx:203 | a donation's price is sent as 0, any other as `Number(price \|\| 0)` |
| ListingForm.UploadEndTimeOnlyWithBidding | frontend/src/components/Scan.jsx:205-216 | an end time is sent iff bidding is on and the form holds one |
| ListingForm.UploadWithoutBiddingSendsFalse | frontend/src/components/Scan.jsx:204-205 | with bidding off, a sent upload carries `biddingEnabled` as the string "false" and no end time |
| ListingForm.DonateChoiceZeroesPrice | frontend/src/components/Scan.jsx:143-145 | choosing "donate" in the form uploads price 0 whatever was typed before |
| CoinStore.HandleExchange | frontend/src/components/store.jsx:69-75 | the exchange is refused iff the amount is not positive or exceeds the balance; otherwise only the confirmation opens |
| CoinStore.ConfirmExchange | frontend/src/components/store.jsx:77-87 | the balance drops by exactly the amount and is saved; the form resets |
| CoinStore.ValidatedExchangeKeepsBalance | frontend/src/components/store.jsx:69-87 | an exchange that passed the check leaves a smaller, non-negative balance, saved as such |
| CoinStore.CalculateCrypto | frontend/src/components/store.jsx:58-67 | zero coins give all zeros and a positive count positive amounts. A value is the amount times its price once that price has loaded and is non-zero, else 0 |
| CoinStore.CryptoAdditive | frontend/src/components/store.jsx:58-67 | the shown amounts and values are additive in the coin count |
| Lifecycle.SweepPreservesConsistent | backend/utils/scheduler.js:21-25 | a sweep keeps the bid store consistent |
| Lifecycle.SweptItemRefusesBids | backend/controllers/bidController.js:22-24 | once the sweep has closed an item, every later bid on it is refused as no longer active |
| Lifecycle.AcceptedAtClosingInstant | backend/controllers/bidController.js:25 | as written: at the end time itself a bid is accepted while a sweep at that instant closes the item |
| Lifecycle.PlaceBidClosingAtEnd | backend/utils/scheduler.js:17 | with the sweep's inclusive test, an accepted bid is never on an item the sweep would close. It agrees with the handler on every acceptance and at every other instant |
| Lifecycle.ClosingAtEndAgreesWithSweep | backend/utils/scheduler.js:14-18 | with the inclusive test, every item the sweep selects is refused as ended |
| Lifecycle.PageHighestMatchesLastBid | frontend/src/components/Productinfo.jsx:54-57 | after an accepted bid, the page's highest bid over the refetched listing equals the amount and the item's new `lastBid` |
| Lifecycle.FreshItemPageMatchesServer | frontend/src/components/Productinfo.jsx:18 | on an item nobody has bid on, the page's initial highest bid and the server's `lastBid \|\| 0` agree at 0 |
| Lifecycle.PageCheckMatchesServer | frontend/src/components/Productinfo.jsx:85-96 | when the page's highest bid equals `lastBid`, an amount the page sends (of at least 1) is accepted, and one the server calls too low is never sent |
| Lifecycle.SchemaView | backend/models/EWaste.js:3-24 | a saved and reloaded item loses the undeclared `lastBid` and keeps every other field. The equally undeclared embedded `bids` is kept, because the model treats it as stored (see Listings.PlaceBidUnchecked under "## Left out") |
| Lifecycle.PlaceBidAsPersisted | backend/controllers/bidController.js:30-50 | as written under strict mode: an accepted bid is appended, but no item keeps a `lastBid` |
| Lifecycle.PersistedAcceptsLowerBid | backend/controllers/bidController.js:30-36 | as written under strict mode, on a schema-valid item open for bidding before its end time, a bid of 3 is accepted after a bid of 5, breaking per-item increase |
| Lifecycle.KeptLastBidRefusesLowerBid | backend/controllers/bidController.js:30-36 | with `lastBid` kept, on the same kind of item, the same bid of 3 is refused reporting 5 |

## Left out

- Database I/O, `populate`, Express plumbing, JSON shapes and messages. Endpoints are functions from a store to a result; a `populate` only projects fields.
- The `try`/`catch` 500 path for thrown errors other than schema validation. A failed save after a successful bid save (bidController.js:46-50) would leave the bid without the `lastBid` update; failures are not modelled.
- Concurrency between requests and the sweep. Requests are applied one at a time.
- Clock reads. `new Date()` is the parameter `now`, and the sweep's per-item `new Date()` is one `stamp` parameter.
- Registration of the cron job and its interval.
- Cloudinary upload, camera capture and `FileReader` preview. The upload is a `hasFile` flag and an `imageUrl` parameter.
- JWT auth, image recognition, `Reward`/`AMA` models and crypto price fetching: not part of this model.
- `generateCryptoPayout` is a foreign call. Its random transaction id is a parameter.
- Floating-point rounding. Amounts are exact reals.
- Listings.CreateEwaste: `biddingEndTime` is taken as an already read time, so an end-time string that the Date cast cannot read (a 500 on save) is not modelled.
- Listings.CreateEwaste: the number casts use `Number(s)` as modelled in `Numbers`, so a weight such as " 5" or "1e3", which the cast accepts, is a 500 in the model.
- `Number()` parsing of whitespace, exponents, hex and "Infinity". Only optionally signed decimals are parsed; anything else is NaN.
- `toLowerCase` beyond ASCII.
- Presentation components and routing.
- `getAllEwaste` is a plain read of the collection and has no contract beyond returning it.
- rewardRoutes.js mounts `getRewards`/`claimReward` without the wallet middleware, so `req.user` is undefined there. The model passes the wallet explicitly, as if the middleware ran.
- eWasteRoutes.js does not route the second `placeBid` or `updateEwasteStatus`. Both are modelled as written all the same.
- Listings.PlaceBidUnchecked: treats the item's embedded `bids` as a stored array. `bids` is not declared in EWaste.js either, so under strict mode the push would read undefined and end in a 500; the handler is unrouted.
- Creating an item does not check that the end time lies in the future. The model follows the code, which does not check it.
- Catalogue sort under an inconsistent comparator (mixed dated and undated products in "recent") is modelled as a stable insertion sort; the browser's own algorithm may order such inputs differently.

## Findings

| source | as written | input that shows it | evidently intended | confidence | as-written member | corrected member |
|---|---|---|---|---|---|---|
| backend/controllers/bidController.js:25 | a bid is refused only when the end time is strictly before now, while the sweep closes at end time <= now (scheduler.js:17) | an active item with end time T and a bid at now = T: accepted, and a sweep at T closes the item | bidding closes at the end time itself, as the sweep assumes | medium, not executed | Lifecycle.AcceptedAtClosingInstant | Lifecycle.PlaceBidClosingAtEnd |
| backend/controllers/bidController.js:30-49 | `lastBid` is read and written, but EWaste.js declares no `lastBid` path, so under strict mode it always reads as 0 and the write is discarded | bids of 5 and then 3 on the same item: both accepted | each accepted bid must beat the previous one | medium, not executed | Lifecycle.PersistedAcceptsLowerBid | Bidding.PlaceBid |
| backend/controllers/eWasteController.js:26 | tests the raw `biddingEnabled` string for truthiness, but the scan page (Scan.jsx:204) sends "false" when bidding is off, which is truthy | a listing from the scan page with bidding off: `biddingEnabled` "false" and no end time, refused with 400 "Bidding end time is required" | bidding is enabled only when the flag means true, as the schema's Boolean cast reads it | high, not executed | Listings.FormWithoutBiddingRefused | Listings.CreateEwasteCastFlag |
| backend/controllers/eWasteController.js:154 | admits pending, approved, rejected and sold, but the schema enum at EWaste.js:16 is pending, active, stopped | status "approved" on an existing item: passes the handler, fails on save with 500 | the admitted statuses are storable | medium, not executed | Listings.OnlyPendingIsStored | Listings.UpdateEwasteStatusWidened |

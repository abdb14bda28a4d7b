/**
  The bidding panel of the product page: the highest bid computed from the
  fetched bid list, the client-side check before a bid is sent, the ±1
  stepper, and the abbreviated wallet address shown for each bidder.
 */
module BidPanel {
  import opened Wrappers

  /** `Math.max(...amounts)` of a non-empty list. */
  function MaxAmount(amounts: seq<real>): (m: real)
    requires |amounts| > 0
    ensures m in amounts
    ensures forall k :: 0 <= k < |amounts| ==> amounts[k] <= m
  {
    if |amounts| == 1 then amounts[0]
    else
      var rest := MaxAmount(amounts[1..]);
      assert forall k :: 1 <= k < |amounts| ==> amounts[k] == amounts[1..][k - 1];
      if amounts[0] >= rest then amounts[0] else rest
  }

  /** The page's `highestBid` after a fetch: the largest amount, or the prior value when there are no bids. */
  function HighestAfterFetch(prior: real, amounts: seq<real>): (h: real)
    ensures |amounts| == 0 ==> h == prior
    ensures |amounts| > 0 ==> h in amounts && forall k :: 0 <= k < |amounts| ==> amounts[k] <= h
  {
    if |amounts| > 0 then MaxAmount(amounts) else prior
  }

  /** The page's initial `highestBid`. */
  const InitialHighestBid: real := 0.0

  /** The smallest next bid the page displays. */
  function MinNextBid(highest: real): (m: real)
    ensures m > highest
  {
    highest + 1.0
  }

  /** What `handleBidConfirm` does with the entered amount (`Number(bidAmount)`, None for NaN). */
  datatype ConfirmOutcome = NeedWallet | InvalidAmount | TooLow(highest: real) | Submit(amount: real)

  function ConfirmBid(walletConnected: bool, amount: Option<real>, highest: real): (r: ConfirmOutcome)
    ensures !walletConnected ==> r == NeedWallet
    ensures walletConnected && amount.Some? && 0.0 < amount.value <= highest ==> r == TooLow(highest)
    ensures r.Submit? <==> walletConnected && amount.Some? && amount.value > 0.0 && amount.value > highest
    ensures r.Submit? ==> r.amount == amount.value
    ensures walletConnected && (amount.None? || amount.value <= 0.0) ==> r == InvalidAmount
    ensures r.TooLow? ==> r.highest == highest && amount.Some? && 0.0 < amount.value <= highest
  {
    if !walletConnected then NeedWallet
    else if amount.None? || amount.value == 0.0 || amount.value <= 0.0 then InvalidAmount
    else if amount.value <= highest then TooLow(highest)
    else Submit(amount.value)
  }

  /** The displayed minimum is always enough to pass the client check once the page has a bid. */
  lemma MinNextBidPassesCheck(highest: real)
    requires highest >= 0.0
    ensures ConfirmBid(true, Some(MinNextBid(highest)), highest) == Submit(highest + 1.0)
  {
  }

  datatype StepAction = Increase | Decrease | Other

  /** `Number(bidAmount) || 0`. */
  function CurrentBid(amount: Option<real>): real {
    amount.GetOr(0.0)
  }

  /** `minBid`: one above the highest bid once there is one, the listing price before that. */
  function MinBid(highest: real, price: Option<real>): Option<real> {
    if highest > 0.0 then Some(highest + 1.0) else price
  }

  /**
    `handleBidChange`: the new entered amount. "decrease" against an item
    without a price computes `Math.max(undefined, …)`, which is NaN (None).
   */
  function ChangeBid(action: StepAction, amount: Option<real>, highest: real, price: Option<real>): (r: Option<real>)
    ensures action == Increase ==> r == Some(CurrentBid(amount) + 1.0)
    ensures action == Decrease && MinBid(highest, price).Some? ==>
              r.Some? && r.value >= MinBid(highest, price).value && r.value >= CurrentBid(amount) - 1.0
              && (r.value == MinBid(highest, price).value || r.value == CurrentBid(amount) - 1.0)
    ensures action == Decrease && MinBid(highest, price).None? ==> r.None?
    ensures action == Other ==> r == amount
  {
    match action
    case Increase => Some(CurrentBid(amount) + 1.0)
    case Decrease =>
      var current := CurrentBid(amount);
      (match MinBid(highest, price)
       case None => None
       case Some(min) => Some(if min >= current - 1.0 then min else current - 1.0))
    case Other => amount
  }

  /** Once the page has a bid, stepping down never leaves an amount the client check refuses as too low. */
  lemma DecreaseStaysAboveHighest(amount: Option<real>, highest: real, price: Option<real>)
    requires highest > 0.0
    ensures ChangeBid(Decrease, amount, highest, price).Some?
    ensures ConfirmBid(true, ChangeBid(Decrease, amount, highest, price), highest).Submit?
  {
  }

  function Min(a: int, b: int): int { if a <= b then a else b }
  function Max(a: int, b: int): int { if a >= b then a else b }

  /**
    `formatWalletAddress`: "Unknown" for an empty address, otherwise
    `substring(0, 6) + "..." + substring(length - 4)` with JavaScript's
    clamping of out-of-range indices.
   */
  function FormatWalletAddress(address: string): (r: string)
    ensures address == "" ==> r == "Unknown"
    ensures address != "" ==> |r| == Min(6, |address|) + 3 + Min(4, |address|)
    ensures address != "" ==> r[..Min(6, |address|)] == address[..Min(6, |address|)]
    ensures address != "" ==> r[Min(6, |address|)..Min(6, |address|) + 3] == "..."
    ensures address != "" ==> r[|r| - Min(4, |address|)..] == address[|address| - Min(4, |address|)..]
  {
    if address == "" then "Unknown"
    else address[..Min(6, |address|)] + "..." + address[Max(0, |address| - 4)..]
  }

  /** A full-length wallet address keeps its first six and last four characters. */
  lemma FormatLongAddress(address: string)
    requires |address| >= 10
    ensures |FormatWalletAddress(address)| == 13
    ensures FormatWalletAddress(address)[..6] == address[..6]
    ensures FormatWalletAddress(address)[9..] == address[|address| - 4..]
  {
  }
}

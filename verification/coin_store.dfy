/**
  The coin exchange page: the local coin balance, the amount to exchange,
  the confirmation step, and the crypto amounts shown for a coin count.

  `exchangeAmount` comes from `parseInt` of a number input (0 when empty),
  so it is an integer here. Conversions are exact rationals: floating-point
  rounding is not modelled.
 */
module CoinStore {
  import opened Wrappers

  /** The page state; `saved` is the `userCoins` entry of local storage. */
  datatype StoreState = StoreState(userCoins: int, exchangeAmount: int, showConfirmation: bool, saved: Option<int>)

  /** `handleExchange`: the state afterwards, and whether "Invalid exchange amount" was shown. */
  datatype ExchangeStep = ExchangeStep(state: StoreState, refused: bool)

  function HandleExchange(s: StoreState): (r: ExchangeStep)
    ensures r.refused <==> s.exchangeAmount <= 0 || s.exchangeAmount > s.userCoins
    ensures r.refused ==> r.state == s
    ensures !r.refused ==> r.state == s.(showConfirmation := true)
  {
    if s.exchangeAmount == 0 || s.exchangeAmount <= 0 || s.exchangeAmount > s.userCoins then ExchangeStep(s, true)
    else ExchangeStep(s.(showConfirmation := true), false)
  }

  /** `confirmExchange`: the balance drops by the amount, is saved, and the form resets. */
  function ConfirmExchange(s: StoreState): (r: StoreState)
    ensures r.userCoins + s.exchangeAmount == s.userCoins
    ensures r.saved == Some(r.userCoins)
    ensures r.exchangeAmount == 0 && !r.showConfirmation
  {
    var coins := s.userCoins - s.exchangeAmount;
    StoreState(coins, 0, false, Some(coins))
  }

  /** An exchange that passed the check leaves a non-negative balance, saved as such. */
  lemma ValidatedExchangeKeepsBalance(s: StoreState)
    requires s.userCoins >= 0
    requires !HandleExchange(s).refused
    ensures var after := ConfirmExchange(HandleExchange(s).state);
            && 0 <= after.userCoins < s.userCoins
            && after.saved == Some(s.userCoins - s.exchangeAmount)
  {
  }

  const CoinToBtcRate: real := 0.0000001
  const CoinToEthRate: real := 0.0001

  datatype Rates = Rates(btc: real, eth: real, btcValue: real, ethValue: real)

  /** `calculateCrypto`; a price that has not loaded is None. */
  function CalculateCrypto(coins: int, bitcoinPrice: Option<real>, ethereumPrice: Option<real>): (r: Rates)
    ensures coins == 0 ==> r == Rates(0.0, 0.0, 0.0, 0.0)
    ensures coins > 0 ==> r.btc > 0.0 && r.eth > 0.0
    ensures r.btcValue == if bitcoinPrice.Some? && bitcoinPrice.value != 0.0 then r.btc * bitcoinPrice.value else 0.0
    ensures r.ethValue == if ethereumPrice.Some? && ethereumPrice.value != 0.0 then r.eth * ethereumPrice.value else 0.0
  {
    if coins == 0 then Rates(0.0, 0.0, 0.0, 0.0)
    else
      var btc := coins as real * CoinToBtcRate;
      var eth := coins as real * CoinToEthRate;
      Rates(btc, eth,
            if bitcoinPrice.Some? && bitcoinPrice.value != 0.0 then btc * bitcoinPrice.value else 0.0,
            if ethereumPrice.Some? && ethereumPrice.value != 0.0 then eth * ethereumPrice.value else 0.0)
  }

  /** The amounts shown are linear in the coin count: two counts convert to the sum of their conversions. */
  lemma CryptoAdditive(a: int, b: int, bitcoinPrice: Option<real>, ethereumPrice: Option<real>)
    ensures var sum := CalculateCrypto(a + b, bitcoinPrice, ethereumPrice);
            var x := CalculateCrypto(a, bitcoinPrice, ethereumPrice);
            var y := CalculateCrypto(b, bitcoinPrice, ethereumPrice);
            && sum.btc == x.btc + y.btc && sum.eth == x.eth + y.eth
            && sum.btcValue == x.btcValue + y.btcValue && sum.ethValue == x.ethValue + y.ethValue
  {
  }
}

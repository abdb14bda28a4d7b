/**
  Users: find-or-create login, the wallet-header middleware that resolves
  the calling user, and the reward balance and its claim.
 */
module Accounts {
  import opened Wrappers
  import opened Records

  /** The `userInfo` of a login request. */
  datatype UserInfo = UserInfo(
    name: string,
    email: string,
    walletAddress: string,
    recycledItems: Option<seq<ItemId>>,
    rewardsEarned: Option<real>)

  /** The outcome of a login: the users afterwards, the user answered, and whether it was created. */
  datatype Session = Session(users: seq<User>, user: User, created: bool)

  predicate MatchesInfo(u: User, info: UserInfo) {
    u.email == info.email || u.walletAddress == info.walletAddress
  }

  /** `findOne({ $or: [{ email }, { walletAddress }] })`: the first match in natural order. */
  function FindByEmailOrWallet(users: seq<User>, info: UserInfo): (r: Option<nat>)
    ensures r.Some? ==> r.value < |users| && MatchesInfo(users[r.value], info)
    ensures r.None? <==> forall k :: 0 <= k < |users| ==> !MatchesInfo(users[k], info)
  {
    if |users| == 0 then None
    else if MatchesInfo(users[0], info) then Some(0)
    else match FindByEmailOrWallet(users[1..], info)
      case None => None
      case Some(k) => Some(k + 1)
  }

  /** Ids in use. */
  predicate FreshUserId(users: seq<User>, id: UserId) {
    forall k :: 0 <= k < |users| ==> users[k].id != id
  }

  /** The user document `login` builds: `recycledItems || []` and `rewardsEarned || 0`. */
  function NewUser(id: UserId, info: UserInfo): User {
    User(id, info.name, info.email, info.walletAddress,
         info.recycledItems.GetOr([]),
         if info.rewardsEarned.Some? && info.rewardsEarned.value != 0.0 then info.rewardsEarned.value else 0.0)
  }

  /**
    `login`: a missing `userInfo` is 400; a user matching the email or the
    wallet is answered as is; otherwise one user is created, taking the
    request's `recycledItems` (default []) and `rewardsEarned` (default 0).
    An empty required string fails the schema on save (500).
   */
  function Login(users: seq<User>, info: Option<UserInfo>, newId: UserId): (r: Result<Session, ApiError>)
    requires FreshUserId(users, newId)
    ensures info.None? ==> r == Err(BadRequest(UserInfoMissing))
    ensures r.Ok? ==> MatchesInfo(r.value.user, info.value)
    ensures r.Ok? && !r.value.created ==> r.value.users == users && r.value.user in users
    ensures r.Ok? && r.value.created ==>
              && (forall k :: 0 <= k < |users| ==> !MatchesInfo(users[k], info.value))
              && r.value.users == users + [r.value.user]
              && r.value.user.id == newId
              && r.value.user.name == info.value.name
              && r.value.user.email == info.value.email
              && r.value.user.walletAddress == info.value.walletAddress
    ensures r.Err? ==> info.None? || r.error == ServerError
    ensures info.Some? && FindByEmailOrWallet(users, info.value).Some? ==>
              r == Ok(Session(users, users[FindByEmailOrWallet(users, info.value).value], false))
    ensures (info.Some? && FindByEmailOrWallet(users, info.value).None? && UserSchemaValid(NewUser(newId, info.value))) ==>
              r == Ok(Session(users + [NewUser(newId, info.value)], NewUser(newId, info.value), true))
    ensures r == Err(ServerError) <==>
              info.Some? && FindByEmailOrWallet(users, info.value).None? && !UserSchemaValid(NewUser(newId, info.value))
  {
    if info.None? then Err(BadRequest(UserInfoMissing))
    else
      var u := info.value;
      match FindByEmailOrWallet(users, u)
      case Some(k) => Ok(Session(users, users[k], false))
      case None =>
        var user := NewUser(newId, u);
        if !UserSchemaValid(user) then Err(ServerError)
        else Ok(Session(users + [user], user, true))
  }

  /** A created user without `recycledItems`/`rewardsEarned` in the request starts with [] and 0. */
  lemma LoginDefaults(users: seq<User>, name: string, email: string, wallet: string, newId: UserId)
    requires FreshUserId(users, newId)
    requires Login(users, Some(UserInfo(name, email, wallet, None, None)), newId).Ok?
    requires Login(users, Some(UserInfo(name, email, wallet, None, None)), newId).value.created
    ensures var user := Login(users, Some(UserInfo(name, email, wallet, None, None)), newId).value.user;
            user.recycledItems == [] && user.rewardsEarned == 0.0
  {
  }

  /** Logging in keeps emails and wallets unique. */
  lemma LoginPreservesUniqueness(users: seq<User>, info: Option<UserInfo>, newId: UserId)
    requires FreshUserId(users, newId) && UsersUnique(users)
    requires Login(users, info, newId).Ok?
    ensures UsersUnique(Login(users, info, newId).value.users)
  {
  }

  /** Repeating a login with the same information creates nobody and answers the user the first call answered. */
  lemma LoginTwiceCreatesOnce(users: seq<User>, info: UserInfo, newId: UserId, newId2: UserId)
    requires FreshUserId(users, newId)
    requires Login(users, Some(info), newId).Ok?
    requires FreshUserId(Login(users, Some(info), newId).value.users, newId2)
    ensures var first := Login(users, Some(info), newId).value;
            var second := Login(first.users, Some(info), newId2);
            && second.Ok? && !second.value.created && second.value.users == first.users
            && (UsersUnique(users) ==> second.value.user == first.user)
  {
    var first := Login(users, Some(info), newId).value;
    if !first.created {
      var k :| 0 <= k < |users| && users[k] == first.user;
      assert MatchesInfo(first.users[k], info);
    } else {
      assert MatchesInfo(first.users[|users|], info);
    }
  }

  /**
    `validateWalletAddress`: the Authorization header names the wallet. An
    empty header is 400, an unknown wallet 404; otherwise the request
    proceeds (`next`) with that wallet's user.
   */
  function ValidateWalletAddress(users: seq<User>, header: string): (r: Result<User, ApiError>)
    ensures header == "" ==> r == Err(BadRequest(WalletMissing))
    ensures header != "" && (forall k :: 0 <= k < |users| ==> users[k].walletAddress != header) ==> r == Err(NotFound)
    ensures header != "" && FindByWallet(users, header).Some? ==> r == Ok(users[FindByWallet(users, header).value])
    ensures r.Ok? ==> r.value in users && r.value.walletAddress == header
  {
    if header == "" then Err(BadRequest(WalletMissing))
    else match FindByWallet(users, header)
      case None => Err(NotFound)
      case Some(k) => Ok(users[k])
  }

  /** With unique wallets the middleware resolves exactly the user holding the wallet. */
  lemma ValidateWalletResolvesOwner(users: seq<User>, k: nat)
    requires UsersUnique(users) && k < |users| && users[k].walletAddress != ""
    ensures ValidateWalletAddress(users, users[k].walletAddress) == Ok(users[k])
  {
  }

  /** `getRewards`: the wallet's balance, or 404. */
  function GetRewards(users: seq<User>, wallet: string): (r: Result<real, ApiError>)
    ensures r.Err? <==> forall k :: 0 <= k < |users| ==> users[k].walletAddress != wallet
    ensures r.Err? ==> r.error == NotFound
    ensures r.Ok? ==> exists k :: 0 <= k < |users| && users[k].walletAddress == wallet && users[k].rewardsEarned == r.value
  {
    match FindByWallet(users, wallet)
    case None => Err(NotFound)
    case Some(k) => Ok(users[k].rewardsEarned)
  }

  /** The simulated payout; `transactionId` stands for the random id the payout stub draws. */
  datatype Payout = Payout(transactionId: string, amount: real, walletAddress: string)

  datatype Claim = Claim(users: seq<User>, payout: Payout)

  /**
    `claimReward`: 404 for an unknown wallet, 400 when the balance is not
    positive; otherwise the whole balance is paid out and reset to 0.
   */
  function ClaimReward(users: seq<User>, wallet: string, transactionId: string): (r: Result<Claim, ApiError>)
    ensures (forall k :: 0 <= k < |users| ==> users[k].walletAddress != wallet) ==> r == Err(NotFound)
    ensures FindByWallet(users, wallet).Some? && users[FindByWallet(users, wallet).value].rewardsEarned <= 0.0 ==>
              r == Err(BadRequest(NoRewards))
    ensures FindByWallet(users, wallet).Some? && users[FindByWallet(users, wallet).value].rewardsEarned > 0.0 ==>
              var k := FindByWallet(users, wallet).value;
              r == Ok(Claim(users[k := users[k].(rewardsEarned := 0.0)], Payout(transactionId, users[k].rewardsEarned, wallet)))
    ensures r.Ok? ==> exists k :: (0 <= k < |users| && users[k].walletAddress == wallet
              && users[k].rewardsEarned > 0.0
              && r.value.payout == Payout(transactionId, users[k].rewardsEarned, wallet)
              && r.value.users == users[k := users[k].(rewardsEarned := 0.0)])
    ensures r.Err? && r.error != NotFound ==>
              (r.error == BadRequest(NoRewards) && GetRewards(users, wallet).Ok? && GetRewards(users, wallet).value <= 0.0)
  {
    match FindByWallet(users, wallet)
    case None => Err(NotFound)
    case Some(k) =>
      var user := users[k];
      if user.rewardsEarned <= 0.0 then Err(BadRequest(NoRewards))
      else Ok(Claim(users[k := user.(rewardsEarned := 0.0)], Payout(transactionId, user.rewardsEarned, wallet)))
  }

  /** After a successful claim the balance reads 0 and a second claim is refused. */
  lemma ClaimTwiceRefused(users: seq<User>, wallet: string, tx: string, tx2: string)
    requires ClaimReward(users, wallet, tx).Ok?
    ensures var after := ClaimReward(users, wallet, tx).value.users;
            && GetRewards(after, wallet) == Ok(0.0)
            && ClaimReward(after, wallet, tx2) == Err(BadRequest(NoRewards))
  {
    var k := FindByWallet(users, wallet).value;
    var after := ClaimReward(users, wallet, tx).value.users;
    assert FindByWallet(after, wallet) == Some(k) by {
      FindByWalletFrame(users, k, users[k].(rewardsEarned := 0.0), wallet);
    }
  }

  /** Changing a user's balance does not change which user a wallet lookup finds. */
  lemma {:induction false} FindByWalletFrame(users: seq<User>, k: nat, u: User, wallet: string)
    requires k < |users| && u.walletAddress == users[k].walletAddress
    ensures FindByWallet(users[k := u], wallet) == FindByWallet(users, wallet)
  {
    if k > 0 {
      assert users[k := u][1..] == users[1..][k - 1 := u];
      FindByWalletFrame(users[1..], k - 1, u, wallet);
    }
  }
}

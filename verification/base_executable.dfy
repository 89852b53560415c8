/** `BaseExecutable`: the shared helpers of the abstract executor draft.
    Its `execute()` retry is `Retry.Loop` with the subclass's
    `execute(request)` as the attempt. */
module BaseExecutable {
  import opened Common
  import opened Requests
  import opened Repository
  import opened Retry
  import WithdrawFund

  /** The helper reuses the withdrawal wording whatever the operation. */
  const AmountMessage: string := "Withdrawal amount must be positive."

  /** `validateAmount`: the exception it throws, if any. */
  function ValidateAmount(amount: int): (r: Option<Error>)
    ensures r.Some? <==> amount <= 0
    ensures r.Some? ==> r.value == IllegalArgument(AmountMessage)
  {
    if amount <= 0 then Some(IllegalArgument(AmountMessage)) else None
  }

  /** The helper accepts exactly the amounts the withdrawal attempt gets
      past its first check with, and refuses the rest with the same
      exception. */
  lemma {:induction false} ValidateAmountAgreesWithWithdrawal(now: Instant, s: Store, req: ValidRequest, conflict: bool)
    ensures ValidateAmount(req.amount).Some? <==>
              WithdrawFund.Attempt(now, s, req, conflict) == Failed(IllegalArgument(AmountMessage))
    ensures ValidateAmount(req.amount).Some? ==>
              WithdrawFund.Attempt(now, s, req, conflict) == Failed(ValidateAmount(req.amount).value)
  {
  }

  /** `findUserByUsername`. */
  function FindUserByUsername(s: Store, name: Username): (r: Result<User, Error>)
    ensures r.Success? <==> name in s.users
    ensures r.Success? ==> r.value == s.users[name]
    ensures r.Failure? ==> r.error == NoSuchElement
  {
    match FindUser(s, name)
    case None => Failure(NoSuchElement)
    case Some(u) => Success(u)
  }

  /** The message of a missing wallet names the user's id. */
  function WalletMissing(id: UserId): string
  {
    "Wallet not found for userId: " + NatString(id)
  }

  /** `findWalletByUserId`: the user's wallet, or a runtime exception
      naming the user's id when there is none. */
  function FindWalletByUserId(s: Store, user: User): (r: Result<Wallet, Error>)
    ensures r.Success? <==> user.id in s.wallets
    ensures r.Success? ==> r.value == s.wallets[user.id]
    ensures r.Success? && WellFormed(s) ==> r.value.userId == user.id
    ensures r.Failure? ==> r.error == NotFound(WalletMissing(user.id))
  {
    match FindWallet(s, user.id)
    case None => Failure(NotFound(WalletMissing(user.id)))
    case Some(w) => Success(w)
  }

  /** `saveIdempotencyKey`: records the key for the user with the name of
      the ORIGINAL request's type as the operation. */
  function SaveIdempotencyKey(s: Store, original: ValidRequest, key: string, user: User): (r: Store)
    ensures key in r.keys && r.keys[key].owner == user.id && !r.keys[key].completed
    ensures r.keys[key].operationType == TypeName(original.kind)
    ensures forall k :: k in s.keys && k != key ==> k in r.keys && r.keys[k] == s.keys[k]
    ensures r.keys.Keys == s.keys.Keys + {key}
    ensures r == s.(keys := r.keys)
  {
    SaveKey(s, key, TypeName(original.kind), user.id)
  }

  /** A withdrawal built on this helper would record "WITHDRAW", where the
      withdrawal executors record "WITHDRAWAL". */
  lemma WithdrawKeyNameDiffers(s: Store, original: ValidRequest, key: string, user: User)
    requires original.kind == WITHDRAW
    ensures SaveIdempotencyKey(s, original, key, user).keys[key].operationType != WithdrawFund.OperationType
  {
    assert |TypeName(WITHDRAW)| != |WithdrawFund.OperationType|;
  }
}

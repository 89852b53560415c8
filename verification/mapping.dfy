/** `TransactionMappingService`: the three request DTOs turned into a
    request for the signed-in user, always at retry count 0. */
module Mapping {
  import opened Common
  import opened Requests

  /** `DepositRequest` / `WithdrawRequest`: an amount and a client key. The
      amount is a boxed value, so it may be missing. */
  datatype AmountDto = AmountDto(amount: Option<int>, idempotencyKey: Option<string>)

  /** `TransferRequest`: the receiver's name, an amount and a client key. */
  datatype TransferDto = TransferDto(receiverUsername: Option<Username>, amount: Option<int>, idempotencyKey: Option<string>)

  /** Unboxing a missing amount into the constructor's primitive parameter
      fails before the constructor runs. The runtime's own wording of that
      exception is not modelled. */
  const UnboxMessage: string := ""

  /** `fromDepositRequest`. */
  function FromDeposit(actor: Username, dto: AmountDto): (r: Result<ValidRequest, Error>)
    ensures r.Success? <==> dto.amount.Some? && dto.amount.value >= 0 && dto.idempotencyKey.Some?
    ensures r.Success? ==>
              r.value == Request(actor, None, dto.amount.value, dto.idempotencyKey.value, DEPOSIT, 0)
    ensures dto.amount.None? ==> r == Failure(NullPointer(UnboxMessage))
    ensures dto.amount.Some? && dto.idempotencyKey.None? ==> r == Failure(NullPointer(KeyNullMessage))
    ensures dto.amount.Some? && dto.idempotencyKey.Some? && dto.amount.value < 0 ==>
              r == Failure(IllegalArgument(NegativeAmountMessage))
  {
    match dto.amount
    case None => Failure(NullPointer(UnboxMessage))
    case Some(amount) => Make(Some(actor), None, amount, dto.idempotencyKey, Some(DEPOSIT), 0)
  }

  /** `fromWithdrawRequest`. */
  function FromWithdraw(actor: Username, dto: AmountDto): (r: Result<ValidRequest, Error>)
    ensures r.Success? <==> dto.amount.Some? && dto.amount.value >= 0 && dto.idempotencyKey.Some?
    ensures r.Success? ==>
              r.value == Request(actor, None, dto.amount.value, dto.idempotencyKey.value, WITHDRAW, 0)
    ensures dto.amount.None? ==> r == Failure(NullPointer(UnboxMessage))
    ensures dto.amount.Some? && dto.idempotencyKey.None? ==> r == Failure(NullPointer(KeyNullMessage))
    ensures dto.amount.Some? && dto.idempotencyKey.Some? && dto.amount.value < 0 ==>
              r == Failure(IllegalArgument(NegativeAmountMessage))
  {
    match dto.amount
    case None => Failure(NullPointer(UnboxMessage))
    case Some(amount) => Make(Some(actor), None, amount, dto.idempotencyKey, Some(WITHDRAW), 0)
  }

  /** `fromTransferRequest`: the receiver is copied, and a missing one is
      refused by the request's constructor. */
  function FromTransfer(actor: Username, dto: TransferDto): (r: Result<ValidRequest, Error>)
    ensures r.Success? <==>
              dto.amount.Some? && dto.amount.value >= 0 && dto.idempotencyKey.Some? && dto.receiverUsername.Some?
    ensures r.Success? ==>
              r.value == Request(actor, dto.receiverUsername, dto.amount.value, dto.idempotencyKey.value, TRANSFER, 0)
    ensures dto.amount.None? ==> r == Failure(NullPointer(UnboxMessage))
    ensures dto.amount.Some? && dto.idempotencyKey.None? ==> r == Failure(NullPointer(KeyNullMessage))
    ensures dto.amount.Some? && dto.idempotencyKey.Some? && dto.amount.value < 0 ==>
              r == Failure(IllegalArgument(NegativeAmountMessage))
    ensures dto.amount.Some? && dto.idempotencyKey.Some? && dto.amount.value >= 0 && dto.receiverUsername.None? ==>
              r == Failure(NullPointer(ReceiverNullMessage))
  {
    match dto.amount
    case None => Failure(NullPointer(UnboxMessage))
    case Some(amount) => Make(Some(actor), dto.receiverUsername, amount, dto.idempotencyKey, Some(TRANSFER), 0)
  }

  /** The DTO fields a fresh request was mapped from. */
  function AmountDtoOf(r: ValidRequest): AmountDto
  {
    AmountDto(Some(r.amount), Some(r.key))
  }

  function TransferDtoOf(r: ValidRequest): TransferDto
  {
    TransferDto(r.receiver, Some(r.amount), Some(r.key))
  }

  /** Every request at retry count 0 is what the matching mapper makes of
      its own fields: the mappers lose nothing and add nothing beyond the
      type, the null receiver of a deposit or withdrawal, and the count. */
  lemma {:induction false} MappersInvert(r: ValidRequest)
    requires r.retryCount == 0
    ensures r.kind == DEPOSIT && r.receiver.None? ==> FromDeposit(r.actor, AmountDtoOf(r)) == Success(r)
    ensures r.kind == WITHDRAW && r.receiver.None? ==> FromWithdraw(r.actor, AmountDtoOf(r)) == Success(r)
    ensures r.kind == TRANSFER ==> FromTransfer(r.actor, TransferDtoOf(r)) == Success(r)
  {
    var m := Make(Some(r.actor), r.receiver, r.amount, Some(r.key), Some(r.kind), 0);
    assert m == Success(r);
  }
}

/** Ledger entries: the validated `TransactionDetailRecord` an executor
    builds, and the persisted `Transaction` row made from it. */
module Ledger {
  import opened Common
  import opened Requests

  /** The four kinds of ledger entry. */
  datatype EntryType = DEPOSIT | WITHDRAWAL | TRANSFER_SENT | TRANSFER_RECEIVED

  /** Credits raise the balance of the wallet the entry belongs to. */
  predicate IsCredit(t: EntryType)
  {
    t == EntryType.DEPOSIT || t == TRANSFER_RECEIVED
  }

  /** The arithmetic tie between the balances around an entry. */
  predicate BalanceTie(kind: EntryType, pre: int, post: int, amount: int)
  {
    if IsCredit(kind) then post == pre + amount else post == pre - amount
  }

  /** One side of a fund movement as the executors describe it. */
  datatype DetailRecord = DetailRecord(
    walletId: WalletId,
    senderUserName: Username,
    receiverUserName: Username,
    amount: int,
    preBalance: int,
    postBalance: int,
    kind: EntryType)
  {
    /** What the record's compact constructor lets through. */
    predicate Valid()
    {
      amount >= 0 && BalanceTie(kind, preBalance, postBalance, amount)
    }
  }

  type ValidDetail = d: DetailRecord | d.Valid()
    witness DetailRecord(0, "", "", 0, 0, 0, EntryType.DEPOSIT)

  const WalletIdNullMessage: string := "WalletId cannot be null"
  const EntryTypeNullMessage: string := "Transaction type cannot be null"
  const SenderNullMessage: string := "senderUserName cannot be null"
  const ReceiverNameNullMessage: string := "receiverUserName cannot be null"
  const BalanceMismatchMessage: string := "postBalance does not match transaction Type"

  /** The record's compact constructor: four null checks, the sign of the
      amount, then the balance tie for the entry's kind. */
  function MakeDetail(
    walletId: Option<WalletId>,
    sender: Option<Username>,
    receiver: Option<Username>,
    amount: int,
    pre: int,
    post: int,
    kind: Option<EntryType>
  ): (r: Result<ValidDetail, Error>)
    ensures r.Success? <==>
              && walletId.Some? && sender.Some? && receiver.Some? && kind.Some?
              && amount >= 0 && BalanceTie(kind.value, pre, post, amount)
    ensures r.Success? ==>
              r.value == DetailRecord(walletId.value, sender.value, receiver.value, amount, pre, post, kind.value)
    ensures r.Success? && IsCredit(kind.value) ==> post >= pre
    ensures r.Success? && !IsCredit(kind.value) ==> post <= pre
    ensures (walletId.None? || sender.None? || receiver.None? || kind.None?) ==>
              r.Failure? && r.error.NullPointer?
    ensures walletId.Some? && sender.Some? && receiver.Some? && kind.Some? && amount < 0 ==>
              r == Failure(IllegalArgument(NegativeAmountMessage))
    ensures walletId.Some? && sender.Some? && receiver.Some? && kind.Some? && amount >= 0
            && !BalanceTie(kind.value, pre, post, amount) ==>
              r == Failure(IllegalArgument(BalanceMismatchMessage))
  {
    if walletId.None? then Failure(NullPointer(WalletIdNullMessage))
    else if kind.None? then Failure(NullPointer(EntryTypeNullMessage))
    else if sender.None? then Failure(NullPointer(SenderNullMessage))
    else if receiver.None? then Failure(NullPointer(ReceiverNameNullMessage))
    else if amount < 0 then Failure(IllegalArgument(NegativeAmountMessage))
    else if IsCredit(kind.value) && post != pre + amount then Failure(IllegalArgument(BalanceMismatchMessage))
    else if !IsCredit(kind.value) && post != pre - amount then Failure(IllegalArgument(BalanceMismatchMessage))
    else Success(DetailRecord(walletId.value, sender.value, receiver.value, amount, pre, post, kind.value))
  }

  /** A persisted ledger row; `timestamp` is stamped once, when it is saved. */
  datatype Transaction = Transaction(
    walletId: WalletId,
    senderUsername: Username,
    receiverUsername: Username,
    amount: int,
    preBalance: int,
    postBalance: int,
    kind: EntryType,
    timestamp: Instant)

  /** The detail a ledger row records, without its timestamp. */
  function DetailOf(t: Transaction): DetailRecord
  {
    DetailRecord(t.walletId, t.senderUsername, t.receiverUsername, t.amount,
                 t.preBalance, t.postBalance, t.kind)
  }

  /** The row constructor as written: it copies wallet, names, amount and
      kind, and leaves both balances at their default of zero. */
  function FromRecordAsWritten(d: ValidDetail, at: Instant): (t: Transaction)
    ensures t.walletId == d.walletId && t.kind == d.kind && t.amount == d.amount
    ensures t.senderUsername == d.senderUserName && t.receiverUsername == d.receiverUserName
    ensures t.preBalance == 0 && t.postBalance == 0
    ensures t.timestamp == at
  {
    Transaction(d.walletId, d.senderUserName, d.receiverUserName, d.amount, 0, 0, d.kind, at)
  }

  /** A deposit of 100 onto an empty wallet: the row the constructor as
      written persists no longer satisfies the record's own balance tie. */
  lemma AsWrittenDropsBalances()
    ensures var d: ValidDetail := DetailRecord(1, "alice", "alice", 100, 0, 100, EntryType.DEPOSIT);
            var t := FromRecordAsWritten(d, 0);
            DetailOf(t) != d && !DetailOf(t).Valid()
  {
  }

  /** The row constructor as intended: it copies the whole record, so the
      record can be read back from the row unchanged. */
  function FromRecord(d: ValidDetail, at: Instant): (t: Transaction)
    ensures DetailOf(t) == d
    ensures DetailOf(t).Valid()
    ensures t.timestamp == at
  {
    Transaction(d.walletId, d.senderUserName, d.receiverUserName, d.amount,
                d.preBalance, d.postBalance, d.kind, at)
  }
}

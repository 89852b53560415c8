/** The request value object (`TransactionRequest`) and the exceptions the
    engine raises. A request validates itself when it is built, and the
    retry step builds a fresh copy one retry further on. */
module Requests {
  import opened Common

  /** The three operations a client can request. */
  datatype RequestType = DEPOSIT | WITHDRAW | TRANSFER

  /** The enum constant's name, as `toString()` renders it. */
  function TypeName(t: RequestType): string
  {
    match t
    case DEPOSIT => "DEPOSIT"
    case WITHDRAW => "WITHDRAW"
    case TRANSFER => "TRANSFER"
  }

  /** Highest retry count a request may carry. */
  const MaxRetries: int := 3

  /** Base of the randomized backoff, in milliseconds. */
  const BaseDelayMillis: int := 5000

  /** A requested fund movement. `actor` is the user on whose behalf it runs;
      `receiver` is only needed for a transfer. */
  datatype Request = Request(
    actor: Username,
    receiver: Option<Username>,
    amount: int,
    key: string,
    kind: RequestType,
    retryCount: int)
  {
    /** What the compact constructor lets through. */
    predicate Valid()
    {
      && amount >= 0
      && (kind == TRANSFER ==> receiver.Some?)
      && 0 <= retryCount <= MaxRetries
    }
  }

  /** Every request that exists has passed its constructor. */
  type ValidRequest = r: Request | r.Valid()
    witness Request("", None, 0, "", DEPOSIT, 0)

  /** The exceptions of the engine, one constructor per Java exception type
      (with its message where callers can observe it). */
  datatype Error =
    | NullPointer(message: string)            // Objects.requireNonNull
    | IllegalArgument(message: string)
    | NoSuchElement                           // Optional.orElseThrow()
    | NotFound(message: string)               // RuntimeException for a missing row
    | InsufficientFunds(message: string)
    | ConcurrentExecution(request: ValidRequest)

  const UserIdNullMessage: string := "userId cannot be null"
  // The source reuses the amount wording for the missing key.
  const KeyNullMessage: string := "amount cannot be null"
  const TypeNullMessage: string := "transactionRequestType cannot be null"
  const ReceiverNullMessage: string := "receiverUsername cannot be null"
  const NegativeAmountMessage: string := "Amount cannot be less than zero"

  /** The retry-bound message names the request's user. */
  function RetryBoundMessage(actor: Username): string
  {
    "Retry attempt cannot increase more than 3 for userId: " + actor
  }

  /** The compact constructor: null checks, then the amount, then the
      receiver of a transfer, then the retry bound, each failing with the
      exception the source throws. */
  function Make(
    actor: Option<Username>,
    receiver: Option<Username>,
    amount: int,
    key: Option<string>,
    kind: Option<RequestType>,
    retryCount: int
  ): (r: Result<ValidRequest, Error>)
    ensures r.Success? <==>
              && actor.Some? && key.Some? && kind.Some?
              && amount >= 0
              && (kind == Some(TRANSFER) ==> receiver.Some?)
              && 0 <= retryCount <= MaxRetries
    ensures r.Success? ==>
              r.value == Request(actor.value, receiver, amount, key.value, kind.value, retryCount)
    ensures actor.None? ==> r == Failure(NullPointer(UserIdNullMessage))
    ensures actor.Some? && key.None? ==> r == Failure(NullPointer(KeyNullMessage))
    ensures actor.Some? && key.Some? && kind.None? ==> r == Failure(NullPointer(TypeNullMessage))
    ensures actor.Some? && key.Some? && kind.Some? && amount < 0 ==>
              r == Failure(IllegalArgument(NegativeAmountMessage))
    ensures actor.Some? && key.Some? && kind == Some(TRANSFER) && amount >= 0 && receiver.None? ==>
              r == Failure(NullPointer(ReceiverNullMessage))
    ensures actor.Some? && key.Some? && kind.Some? && amount >= 0
            && (kind == Some(TRANSFER) ==> receiver.Some?) && !(0 <= retryCount <= MaxRetries) ==>
              r == Failure(IllegalArgument(RetryBoundMessage(actor.value)))
  {
    if actor.None? then Failure(NullPointer(UserIdNullMessage))
    else if key.None? then Failure(NullPointer(KeyNullMessage))
    else if kind.None? then Failure(NullPointer(TypeNullMessage))
    else if amount < 0 then Failure(IllegalArgument(NegativeAmountMessage))
    else if kind.value == TRANSFER && receiver.None? then Failure(NullPointer(ReceiverNullMessage))
    else if retryCount < 0 || retryCount > MaxRetries then Failure(IllegalArgument(RetryBoundMessage(actor.value)))
    else Success(Request(actor.value, receiver, amount, key.value, kind.value, retryCount))
  }

  /** The copy step of `getTransactionRequestAndIncrementRetryCount`: the
      constructor re-run on the same fields with `retryCount + 1`. */
  function Increment(r: ValidRequest): (n: Result<ValidRequest, Error>)
    ensures n.Success? <==> r.retryCount < MaxRetries
    ensures n.Success? ==> n.value == r.(retryCount := r.retryCount + 1)
    ensures n.Failure? ==> n.error == IllegalArgument(RetryBoundMessage(r.actor))
  {
    Make(Some(r.actor), r.receiver, r.amount, Some(r.key), Some(r.kind), r.retryCount + 1)
  }

  /** The request one retry further on, for a request below the bound. */
  function Bump(r: ValidRequest): (n: ValidRequest)
    requires r.retryCount < MaxRetries
    ensures Increment(r) == Success(n)
  {
    r.(retryCount := r.retryCount + 1)
  }

  /** The sleep length (milliseconds) of the retry step:
      `(long) (5000 * retryCount * r1 * r2)`, truncated toward zero. */
  function Backoff(retryCount: int, r1: Unit, r2: Unit): int
  {
    ((BaseDelayMillis * retryCount) as real * r1 * r2).Floor
  }

  /** A product of two draws in [0, 1) scales a non-negative base to
      something non-negative and, for a positive base, strictly below it. */
  lemma ScaledBelow(a: real, r1: real, r2: real)
    requires 0.0 <= a && 0.0 <= r1 < 1.0 && 0.0 <= r2 < 1.0
    ensures 0.0 <= a * r1 * r2 <= a
    ensures 0.0 < a ==> a * r1 * r2 < a
    ensures 0 <= (a * r1 * r2).Floor
    ensures 0.0 < a ==> (a * r1 * r2).Floor as real < a
    ensures a == 0.0 ==> (a * r1 * r2).Floor == 0
  {
    assert 0.0 <= a * r1 <= a by {
      assert a * r1 <= a * 1.0;
    }
    assert 0.0 <= a * r1 * r2 <= a * r1 * 1.0;
    if 0.0 < a {
      assert a * r1 * r2 <= a * r1 * 1.0;
      if a * r1 == 0.0 {
        assert a * r1 * r2 == 0.0;
      } else {
        assert a * r1 * r2 < a * r1;
      }
    }
  }

  /** The backoff is zero before the first retry, never negative, and always
      strictly below `5000 * retryCount` once retrying. */
  lemma BackoffBounds(r: ValidRequest, r1: Unit, r2: Unit)
    ensures 0 <= Backoff(r.retryCount, r1, r2)
    ensures r.retryCount == 0 ==> Backoff(r.retryCount, r1, r2) == 0
    ensures r.retryCount > 0 ==> Backoff(r.retryCount, r1, r2) < BaseDelayMillis * r.retryCount
  {
    var n := BaseDelayMillis * r.retryCount;
    ScaledBelow(n as real, r1, r2);
    var k := (n as real * r1 * r2).Floor;
    assert Backoff(r.retryCount, r1, r2) == k;
    assert k as real < n as real ==> k < n;
  }
}

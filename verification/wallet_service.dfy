/** `WalletService`: the type switch that picks an executor for a request,
    and the two wallet queries. The asynchronous hand-off around the switch
    is not part of this model; a request runs to completion in one call. */
module WalletService {
  import opened Common
  import opened Requests
  import Ledger
  import opened Repository
  import opened Retry
  import opened Invariants
  import opened Queries
  import DepositFund
  import WithdrawFund
  import TransferFund

  /** `concurrentTransactionProcessor` followed by running the executor it
      returns: each request type goes to its own executor, unchanged. */
  function Submit(now: Instant, s: Store, req: ValidRequest, turns: seq<Turn>): (o: Outcome)
    ensures req.kind == DEPOSIT ==> o == DepositFund.Run(now, s, req, turns)
    ensures req.kind == WITHDRAW ==> o == WithdrawFund.Run(now, s, req, turns)
    ensures req.kind == TRANSFER ==> o == TransferFund.Run(now, s, req, turns)
  {
    match req.kind
    case DEPOSIT => DepositFund.Run(now, s, req, turns)
    case WITHDRAW => WithdrawFund.Run(now, s, req, turns)
    case TRANSFER => TransferFund.Run(now, s, req, turns)
  }

  /** Whatever the request and the conflicts, a submitted request leaves a
      consistent store consistent: no negative balance, every balance the
      net of its rows, the ledger still in time order. */
  lemma {:induction false} SubmitKeepsConsistent(now: Instant, s: Store, req: ValidRequest, turns: seq<Turn>)
    requires Consistent(s) && ClockAfter(s, now)
    ensures Consistent(Submit(now, s, req, turns).store)
  {
    var o := Submit(now, s, req, turns);
    match req.kind
    case DEPOSIT =>
      if o.verdict.Completed? { DepositFund.AttemptKeepsConsistent(now, s, req, false); }
    case WITHDRAW =>
      if o.verdict.Completed? { WithdrawFund.AttemptKeepsConsistent(now, s, req, false); }
    case TRANSFER =>
      if o.verdict.Completed? { TransferFund.AttemptKeepsConsistent(now, s, req, false); }
  }

  /** A submission stamps its rows with its own clock reading, so a later
      submission whose clock is not earlier still finds the store's rows no
      later than its own. */
  lemma {:induction false} SubmitKeepsClock(now: Instant, later: Instant, s: Store, req: ValidRequest, turns: seq<Turn>)
    requires ClockAfter(s, now) && now <= later
    ensures ClockAfter(Submit(now, s, req, turns).store, later)
  {
    var o := Submit(now, s, req, turns);
    if o.verdict.Completed? {
      var l := o.store.ledger;
      assert l[..|s.ledger|] == s.ledger;
      forall i | 0 <= i < |l|
        ensures l[i].timestamp <= later
      {
        if i < |s.ledger| {
          assert l[i] == l[..|s.ledger|][i];
        }
      }
    }
  }

  /** After a submission whose clock is not earlier than the store's rows,
      every wallet's history still reads newest first: the submission keeps
      the store consistent, so its ledger stays in time order. With
      `SubmitKeepsClock` this carries over to any run of submissions whose
      clock does not go backwards. */
  lemma {:induction false} HistoryNewestFirstAfterSubmit(now: Instant, s: Store, req: ValidRequest, turns: seq<Turn>, id: WalletId)
    requires Consistent(s) && ClockAfter(s, now)
    ensures NewestFirst(TransactionsForWallet(Submit(now, s, req, turns).store, id))
  {
    SubmitKeepsConsistent(now, s, req, turns);
  }

  /** The message of a missing wallet names the id asked for. */
  function WalletMissing(id: UserId): string
  {
    "Wallet not found for userId: " + NatString(id)
  }

  /** `findWalletByUserID`. */
  function FindWalletByUserId(s: Store, id: UserId): (r: Result<Wallet, Error>)
    ensures r.Success? <==> id in s.wallets
    ensures r.Success? ==> r.value == s.wallets[id]
    ensures r.Success? && WellFormed(s) ==> r.value.userId == id
    ensures r.Failure? ==> r.error == NotFound(WalletMissing(id))
  {
    match FindWallet(s, id)
    case None => Failure(NotFound(WalletMissing(id)))
    case Some(w) => Success(w)
  }

  /** `getTransactionsForWallet`: exactly the wallet's rows, newest first. */
  function TransactionsForWallet(s: Store, id: WalletId): (r: seq<Ledger.Transaction>)
    ensures forall t :: t in r <==> t in s.ledger && t.walletId == id
    ensures forall t :: multiset(r)[t] == if t.walletId == id then multiset(s.ledger)[t] else 0
    ensures TimeOrdered(s.ledger) ==> NewestFirst(r)
  {
    ByWalletNewestFirstSpec(s.ledger, id);
    ByWalletNewestFirst(s.ledger, id)
  }
}

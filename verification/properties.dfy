/** Whole-engine properties that span several operations: retry
    exhaustion as the code surfaces it, cross-user idempotency keys, and
    the sum of a series of deposits. */
module Properties {
  import opened Common
  import opened Requests
  import opened Ledger
  import opened Repository
  import opened Retry
  import DepositFund

  /** A deposit starting at retry count 0 that conflicts on all four
      attempts fails with the constructor's IllegalArgument on the step from
      3 to 4, after four sleeps, and never with ConcurrentExecution. */
  lemma {:induction false} DepositExhaustsThroughConstructor(now: Instant, s: Store, req: ValidRequest, turns: seq<Turn>)
    requires req.retryCount == 0 && DepositFund.Writes(s, req)
    requires forall i :: 0 <= i <= MaxRetries ==> TurnAt(turns, i).conflict
    ensures var o := DepositFund.Run(now, s, req, turns);
            && o.verdict == Threw(IllegalArgument(RetryBoundMessage(req.actor)))
            && !o.verdict.error.ConcurrentExecution?
            && o.store == s
            && |o.attempts| == |o.delays| == 4
  {
    var attempt := (s': Store, r: ValidRequest, c: bool) => DepositFund.Attempt(now, s', r, c);
    forall i | 0 <= i <= MaxRetries
      ensures attempt(s, req.(retryCount := i), TurnAt(turns, i).conflict) == Conflicted
    {
      assert DepositFund.Writes(s, req.(retryCount := i));
    }
    ConflictsExhaust(attempt, req, req, s, turns);
  }

  /** A deposit whose request already carries retry count 3 and conflicts
      once surfaces ConcurrentExecution carrying that request, with no
      write and no sleep. */
  lemma {:induction false} DepositAtBoundThrowsConcurrent(now: Instant, s: Store, req: ValidRequest, turns: seq<Turn>)
    requires req.retryCount == MaxRetries && DepositFund.Writes(s, req)
    requires TurnAt(turns, 0).conflict
    ensures DepositFund.Run(now, s, req, turns) == Outcome(Threw(ConcurrentExecution(req)), s, [req], [])
  {
    assert DepositFund.Attempt(now, s, req, true) == Conflicted;
  }

  /** Keys are looked up by the key alone: a deposit whose key another user
      already recorded returns the depositor's wallet untouched and writes
      nothing, although that user never deposited it. */
  lemma {:induction false} ForeignKeySwallowsDeposit(now: Instant, s: Store, req: ValidRequest, conflict: bool)
    requires req.amount > 0 && req.actor in s.users && s.users[req.actor].id in s.wallets
    requires req.key in s.keys && s.keys[req.key].owner != s.users[req.actor].id
    ensures DepositFund.Attempt(now, s, req, conflict) == Returned(s.wallets[s.users[req.actor].id], s)
  {
  }

  /** Deposits of `amount` by `actor`, one per key, each without conflict. */
  function DepositEach(now: Instant, s: Store, actor: Username, amount: int, keys: seq<string>): (r: Store)
    requires amount > 0
    decreases |keys|
  {
    if keys == [] then s
    else
      var req: ValidRequest := Request(actor, None, amount, keys[0], RequestType.DEPOSIT, 0);
      match DepositFund.Attempt(now, s, req, false)
      case Returned(_, s') => DepositEach(now, s', actor, amount, keys[1..])
      case _ => s
  }

  /** N deposits of A under N fresh, distinct keys raise the balance by
      N * A and append N rows, the sequential reading of N concurrent
      deposits. */
  lemma {:induction false} DepositsAddUp(now: Instant, s: Store, actor: Username, amount: int, keys: seq<string>)
    requires amount > 0 && actor in s.users && s.users[actor].id in s.wallets
    requires forall i :: 0 <= i < |keys| ==> keys[i] !in s.keys
    requires forall i, j :: 0 <= i < j < |keys| ==> keys[i] != keys[j]
    decreases |keys|
    ensures var r := DepositEach(now, s, actor, amount, keys);
            && r.users == s.users
            && s.users[actor].id in r.wallets
            && r.wallets[s.users[actor].id].balance == s.wallets[s.users[actor].id].balance + |keys| * amount
            && |r.ledger| == |s.ledger| + |keys|
  {
    if keys != [] {
      var req: ValidRequest := Request(actor, None, amount, keys[0], RequestType.DEPOSIT, 0);
      var step := DepositFund.Attempt(now, s, req, false);
      assert step.Returned?;
      var s' := step.store;
      var rest := keys[1..];
      forall i | 0 <= i < |rest|
        ensures rest[i] !in s'.keys
      {
        assert rest[i] == keys[i + 1];
      }
      forall i, j | 0 <= i < j < |rest|
        ensures rest[i] != rest[j]
      {
        assert rest[i] == keys[i + 1] && rest[j] == keys[j + 1];
      }
      DepositsAddUp(now, s', actor, amount, rest);
      assert |keys| * amount == amount + |rest| * amount;
    }
  }
}

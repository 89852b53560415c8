/** `WithdrawFundX`: the same withdrawal attempt as `WithdrawFund`, behind
    the `while` retry instead of the recursive one. */
module WithdrawFundX {
  import opened Common
  import opened Requests
  import opened Repository
  import opened Retry
  import WithdrawFund

  /** `withdrawFund()`: the withdrawal attempt (its body is the one of
      `WithdrawFund`, messages and key name included) behind the `while`
      retry, run for at most `fuel` passes. A request already at the bound
      throws at once; a conflict-free pass ends the loop with that pass's
      outcome; only an unbroken run of conflicts keeps it going. */
  method Run(now: Instant, s: Store, req: ValidRequest, turns: seq<Turn>, fuel: nat) returns (o: Outcome)
    ensures req.retryCount >= MaxRetries ==>
              o == Outcome(Threw(ConcurrentExecution(req)), s, [], [])
    ensures req.retryCount < MaxRetries ==>
              && (o.verdict.Completed? ==>
                    WithdrawFund.Attempt(now, s, LoopRequest(req), false) == Returned(o.verdict.wallet, o.store))
              && (!o.verdict.Completed? ==> o.store == s)
              && (o.verdict.Threw? ==>
                    WithdrawFund.Attempt(now, s, LoopRequest(req), false) == Failed(o.verdict.error))
              && (o.verdict.StillRetrying? ==> |o.attempts| == fuel && (fuel > 0 ==> WithdrawFund.Writes(s, req)))
              && ((exists i :: 0 <= i < fuel && !TurnAt(turns, i).conflict) ==> !o.verdict.StillRetrying?)
              && (WithdrawFund.Writes(s, req) && (forall i :: 0 <= i < fuel ==> TurnAt(turns, i).conflict) ==>
                    o.verdict.StillRetrying?)
  {
    var attempt := (s': Store, r: ValidRequest, c: bool) => WithdrawFund.Attempt(now, s', r, c);
    o := Loop(attempt, req, s, turns, fuel);
    if req.retryCount < MaxRetries {
      var r := LoopRequest(req);
      assert WithdrawFund.Writes(s, r) == WithdrawFund.Writes(s, req);
      WithdrawFund.AttemptShape(now, s, r);
      assert r.(retryCount := r.retryCount) == r;
      if o.verdict.Completed? || o.verdict.Threw? {
        var n := |o.attempts| - 1;
        var step := WithdrawFund.Attempt(now, s, r, TurnAt(turns, n).conflict);
        assert step == WithdrawFund.Attempt(now, s, r, false) || step.Conflicted?;
      }
      if o.verdict.StillRetrying? && fuel > 0 {
        assert WithdrawFund.Attempt(now, s, r, TurnAt(turns, 0).conflict) == Conflicted;
      }
    }
  }
}

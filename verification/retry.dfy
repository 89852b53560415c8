/** The optimistic-conflict retry controllers around one executor attempt.
    An attempt is all-or-nothing: it returns a wallet and the store after
    its writes, raises an exception without writing, or hits a version
    conflict at its first save, again without writing. Whether a save
    conflicts is not decided here: an oracle supplies, per attempt, the
    conflict flag and the two random draws the following backoff uses. */
module Retry {
  import opened Common
  import opened Requests
  import opened Repository

  /** What one attempt did. */
  datatype Step =
    | Returned(wallet: Wallet, store: Store)
    | Failed(error: Error)
    | Conflicted

  /** One executor attempt: store, request, and whether its save conflicts. */
  type Attempt = (Store, ValidRequest, bool) -> Step

  /** The environment of one attempt: does its save conflict, and which two
      `Math.random()` draws does the sleep around it use. */
  datatype Turn = Turn(conflict: bool, r1: Unit, r2: Unit)

  /** The environment of attempt `i`; past the end of the oracle there is
      no contention. */
  function TurnAt(turns: seq<Turn>, i: nat): Turn
  {
    if i < |turns| then turns[i] else Turn(false, 0.0, 0.0)
  }

  /** How a retried operation ended. `StillRetrying` means the model's fuel
      ran out while the source's loop would go on. */
  datatype Verdict = Completed(wallet: Wallet) | Threw(error: Error) | StillRetrying

  /** The verdict, the store afterwards, the request each attempt used, and
      the length of each backoff sleep, in order. */
  datatype Outcome = Outcome(verdict: Verdict, store: Store, attempts: seq<ValidRequest>, delays: seq<int>)

  /** Prepends one conflicted attempt and the sleep after it. */
  function AfterConflict(local: ValidRequest, delay: int, o: Outcome): Outcome
  {
    o.(attempts := [local] + o.attempts, delays := [delay] + o.delays)
  }

  /** The recursive retry of `DepositFund`, `WithdrawFund` and `TransferFund`:
      run `local`; on a conflict, if the ORIGINAL request's retry count is
      below 3, sleep, build `local` with one more retry (which the request's
      constructor may refuse) and recurse; otherwise raise
      ConcurrentExecution carrying the original. `k` is the attempt number. */
  function Recursive(attempt: Attempt, original: ValidRequest, local: ValidRequest,
                     s: Store, turns: seq<Turn>, k: nat): (o: Outcome)
    decreases MaxRetries - local.retryCount
    ensures 1 <= |o.attempts| <= MaxRetries + 1 - local.retryCount
    ensures |o.delays| <= |o.attempts|
    ensures forall i :: 0 <= i < |o.attempts| ==>
              o.attempts[i] == local.(retryCount := local.retryCount + i)
  {
    var t := TurnAt(turns, k);
    match attempt(s, local, t.conflict)
    case Returned(w, s') => Outcome(Completed(w), s', [local], [])
    case Failed(e) => Outcome(Threw(e), s, [local], [])
    case Conflicted =>
      if original.retryCount < MaxRetries then
        var delay := Backoff(local.retryCount, t.r1, t.r2);
        match Increment(local)
        case Failure(e) => Outcome(Threw(e), s, [local], [delay])
        case Success(next) =>
          AfterConflict(local, delay, Recursive(attempt, original, next, s, turns, k + 1))
      else
        Outcome(Threw(ConcurrentExecution(original)), s, [local], [])
  }

  /** One conflicted attempt below the bound: the retry sleeps, then goes
      on with the request one retry further on. */
  lemma RecursiveUnfold(attempt: Attempt, original: ValidRequest, local: ValidRequest,
                        s: Store, turns: seq<Turn>, k: nat)
    requires attempt(s, local, TurnAt(turns, k).conflict).Conflicted?
    requires original.retryCount < MaxRetries && local.retryCount < MaxRetries
    ensures Recursive(attempt, original, local, s, turns, k)
            == AfterConflict(local, Backoff(local.retryCount, TurnAt(turns, k).r1, TurnAt(turns, k).r2),
                             Recursive(attempt, original, Bump(local), s, turns, k + 1))
  {
  }

  /** Every sleep of the recursive retry is the backoff of the attempt it
      follows, drawn from that attempt's turn. */
  lemma {:induction false} RecursiveDelays(attempt: Attempt, original: ValidRequest, local: ValidRequest,
                                           s: Store, turns: seq<Turn>, k: nat)
    decreases MaxRetries - local.retryCount
    ensures var o := Recursive(attempt, original, local, s, turns, k);
            forall i :: 0 <= i < |o.delays| ==>
              o.delays[i] == Backoff(local.retryCount + i, TurnAt(turns, k + i).r1, TurnAt(turns, k + i).r2)
  {
    var t := TurnAt(turns, k);
    if attempt(s, local, t.conflict).Conflicted? && original.retryCount < MaxRetries
       && local.retryCount < MaxRetries {
      var next := Bump(local);
      RecursiveDelays(attempt, original, next, s, turns, k + 1);
      RecursiveUnfold(attempt, original, local, s, turns, k);
      var o := Recursive(attempt, original, local, s, turns, k);
      var o' := Recursive(attempt, original, next, s, turns, k + 1);
      assert o.delays == [Backoff(local.retryCount, t.r1, t.r2)] + o'.delays;
      forall i | 1 <= i < |o.delays|
        ensures o.delays[i] == Backoff(local.retryCount + i, TurnAt(turns, k + i).r1, TurnAt(turns, k + i).r2)
      {
        var j := i - 1;
        assert o.delays[i] == o'.delays[j];
        assert o'.delays[j] == Backoff(next.retryCount + j, TurnAt(turns, k + 1 + j).r1, TurnAt(turns, k + 1 + j).r2);
      }
    }
  }

  /** Every attempt of the recursive retry but the last one conflicted. */
  lemma {:induction false} RecursiveConflicts(attempt: Attempt, original: ValidRequest, local: ValidRequest,
                                              s: Store, turns: seq<Turn>, k: nat)
    decreases MaxRetries - local.retryCount
    ensures var o := Recursive(attempt, original, local, s, turns, k);
            forall i :: 0 <= i < |o.attempts| - 1 ==>
              attempt(s, o.attempts[i], TurnAt(turns, k + i).conflict) == Conflicted
  {
    var t := TurnAt(turns, k);
    if attempt(s, local, t.conflict).Conflicted? && original.retryCount < MaxRetries
       && local.retryCount < MaxRetries {
      var next := Bump(local);
      RecursiveConflicts(attempt, original, next, s, turns, k + 1);
      RecursiveUnfold(attempt, original, local, s, turns, k);
      var o := Recursive(attempt, original, local, s, turns, k);
      var o' := Recursive(attempt, original, next, s, turns, k + 1);
      assert o.attempts == [local] + o'.attempts;
      forall i | 1 <= i < |o.attempts| - 1
        ensures attempt(s, o.attempts[i], TurnAt(turns, k + i).conflict) == Conflicted
      {
        var j := i - 1;
        assert o.attempts[i] == o'.attempts[j];
        assert attempt(s, o'.attempts[j], TurnAt(turns, k + 1 + j).conflict) == Conflicted;
      }
    }
  }

  /** The last attempt of the recursive retry decides its ending: a returned
      wallet completes it with that attempt's writes; an exception is
      rethrown with the store untouched; and a conflict, also without
      writes, surfaces as ConcurrentExecution only when the ORIGINAL request
      was already at the bound, and otherwise as the constructor's
      IllegalArgument when the copy would go from 3 to 4. */
  lemma {:induction false} RecursiveEnding(attempt: Attempt, original: ValidRequest, local: ValidRequest,
                                           s: Store, turns: seq<Turn>, k: nat)
    decreases MaxRetries - local.retryCount
    ensures var o := Recursive(attempt, original, local, s, turns, k);
            var n := |o.attempts| - 1;
            var last := attempt(s, o.attempts[n], TurnAt(turns, k + n).conflict);
            && (last.Returned? ==> o.verdict == Completed(last.wallet) && o.store == last.store)
            && (last.Failed? ==> o.verdict == Threw(last.error) && o.store == s)
            && (last.Conflicted? ==> o.store == s)
            && (last.Conflicted? && original.retryCount >= MaxRetries ==>
                  o.verdict == Threw(ConcurrentExecution(original)))
            && (last.Conflicted? && original.retryCount < MaxRetries ==>
                  o.verdict == Threw(IllegalArgument(RetryBoundMessage(local.actor))) && o.attempts[n].retryCount == MaxRetries)
  {
    var t := TurnAt(turns, k);
    if attempt(s, local, t.conflict).Conflicted? && original.retryCount < MaxRetries
       && local.retryCount < MaxRetries {
      var next := Bump(local);
      RecursiveEnding(attempt, original, next, s, turns, k + 1);
      RecursiveUnfold(attempt, original, local, s, turns, k);
      var o := Recursive(attempt, original, local, s, turns, k);
      var o' := Recursive(attempt, original, next, s, turns, k + 1);
      var n := |o.attempts| - 1;
      assert o.attempts[n] == o'.attempts[n - 1];
    }
  }

  /** The shape every executor attempt has: its outcome does not depend on
      the request's retry count, and a conflict at the save can only turn
      the writing (returning) outcome into Conflicted. `solo` is what the attempt does
      when its save goes through. */
  predicate ConflictOnlyAtSave(attempt: Attempt, s: Store, r: ValidRequest)
  {
    && !attempt(s, r, false).Conflicted?
    && forall k: int, c: bool :: r.retryCount <= k <= MaxRetries ==>
         var step := attempt(s, r.(retryCount := k), c);
         step == attempt(s, r, false) || (c && step.Conflicted? && attempt(s, r, false).Returned?)
  }

  /** For an executor-shaped attempt the recursive retry never invents an
      outcome: it completes exactly with what a conflict-free attempt
      returns, writes nothing otherwise, rethrows the attempt's own
      exception, and when it gives up it does so with ConcurrentExecution
      or the constructor's retry-bound IllegalArgument. */
  lemma {:induction false} RecursiveSolo(attempt: Attempt, original: ValidRequest, local: ValidRequest,
                                         s: Store, turns: seq<Turn>, k: nat)
    requires ConflictOnlyAtSave(attempt, s, local)
    decreases MaxRetries - local.retryCount
    ensures var o := Recursive(attempt, original, local, s, turns, k);
            var solo := attempt(s, local, false);
            && !o.verdict.StillRetrying?
            && (o.verdict.Completed? ==> solo == Returned(o.verdict.wallet, o.store))
            && (!o.verdict.Completed? ==> o.store == s)
            && (solo.Failed? ==> o.verdict == Threw(solo.error) && |o.attempts| == 1)
            && (solo.Returned? && o.verdict.Threw? ==>
                  o.verdict.error == ConcurrentExecution(original)
                  || o.verdict.error == IllegalArgument(RetryBoundMessage(local.actor)))
  {
    var t := TurnAt(turns, k);
    var step := attempt(s, local, t.conflict);
    assert local.(retryCount := local.retryCount) == local;
    assert step == attempt(s, local, false) || (t.conflict && step.Conflicted? && attempt(s, local, false).Returned?);
    if step.Conflicted? && original.retryCount < MaxRetries && local.retryCount < MaxRetries {
      var next := Bump(local);
      forall j: int, c: bool | next.retryCount <= j <= MaxRetries
        ensures var st := attempt(s, next.(retryCount := j), c);
                st == attempt(s, next, false) || (c && st.Conflicted? && attempt(s, next, false).Returned?)
      {
        assert next.(retryCount := j) == local.(retryCount := j);
        assert next == local.(retryCount := next.retryCount);
      }
      RecursiveSolo(attempt, original, next, s, turns, k + 1);
      RecursiveUnfold(attempt, original, local, s, turns, k);
    }
  }

  /** From a request below the bound whose every remaining attempt
      conflicts, the recursive retry runs out through the request's
      constructor: it sleeps after each conflict, including the last, and
      then fails with the retry-bound IllegalArgument, not with
      ConcurrentExecution, and writes nothing. */
  lemma {:induction false} ConflictsExhaust(attempt: Attempt, original: ValidRequest, local: ValidRequest,
                                            s: Store, turns: seq<Turn>)
    requires original.retryCount < MaxRetries
    requires forall i :: local.retryCount <= i <= MaxRetries ==>
               attempt(s, local.(retryCount := i), TurnAt(turns, i).conflict) == Conflicted
    decreases MaxRetries - local.retryCount
    ensures var o := Recursive(attempt, original, local, s, turns, local.retryCount);
            && o.verdict == Threw(IllegalArgument(RetryBoundMessage(local.actor)))
            && o.store == s
            && |o.attempts| == |o.delays| == MaxRetries + 1 - local.retryCount
  {
    assert local.(retryCount := local.retryCount) == local;
    if local.retryCount < MaxRetries {
      var next := Bump(local);
      forall i | next.retryCount <= i <= MaxRetries
        ensures attempt(s, next.(retryCount := i), TurnAt(turns, i).conflict) == Conflicted
      {
        assert next.(retryCount := i) == local.(retryCount := i);
      }
      ConflictsExhaust(attempt, original, next, s, turns);
      RecursiveUnfold(attempt, original, local, s, turns, local.retryCount);
    }
  }

  /** The request every pass of the `while` retry runs: the original itself
      when its retry count is 0, otherwise the original incremented once. */
  function LoopRequest(original: ValidRequest): ValidRequest
    requires original.retryCount < MaxRetries
  {
    if original.retryCount == 0 then original else Bump(original)
  }

  /** The `while` retry of `WithdrawFundX` and `BaseExecutable.execute`. Its
      guard reads the original request, which never changes, so the source
      keeps retrying for as long as attempts conflict; the model stops after
      `fuel` passes and reports `StillRetrying`. */
  method Loop(attempt: Attempt, original: ValidRequest, s: Store, turns: seq<Turn>, fuel: nat)
    returns (o: Outcome)
    ensures original.retryCount >= MaxRetries ==>
              o == Outcome(Threw(ConcurrentExecution(original)), s, [], [])
    ensures original.retryCount < MaxRetries ==>
              && |o.attempts| <= fuel
              && (forall i :: 0 <= i < |o.attempts| ==> o.attempts[i] == LoopRequest(original))
              && (forall i :: 0 <= i < |o.attempts| ==>
                    (i < |o.attempts| - 1 || o.verdict.StillRetrying?) ==>
                    attempt(s, LoopRequest(original), TurnAt(turns, i).conflict) == Conflicted)
              && (o.verdict.StillRetrying? ==> |o.attempts| == fuel && o.store == s)
              && (!o.verdict.StillRetrying? ==> 1 <= |o.attempts|)
              && (o.verdict.Completed? ==>
                    attempt(s, LoopRequest(original), TurnAt(turns, |o.attempts| - 1).conflict)
                    == Returned(o.verdict.wallet, o.store))
              && (o.verdict.Threw? ==>
                    attempt(s, LoopRequest(original), TurnAt(turns, |o.attempts| - 1).conflict)
                    == Failed(o.verdict.error) && o.store == s)
              && |o.delays| == (if original.retryCount == 0 then 0 else |o.attempts|)
              && (forall i :: 0 <= i < |o.delays| ==>
                    o.delays[i] == Backoff(original.retryCount, TurnAt(turns, i).r1, TurnAt(turns, i).r2))
  {
    if original.retryCount >= MaxRetries {
      return Outcome(Threw(ConcurrentExecution(original)), s, [], []);
    }
    var request := LoopRequest(original);
    var attempts: seq<ValidRequest> := [];
    var delays: seq<int> := [];
    var i := 0;
    while i < fuel
      invariant 0 <= i <= fuel
      invariant |attempts| == i
      invariant forall j :: 0 <= j < i ==> attempts[j] == request
      invariant forall j :: 0 <= j < i ==> attempt(s, request, TurnAt(turns, j).conflict) == Conflicted
      invariant |delays| == (if original.retryCount == 0 then 0 else i)
      invariant forall j :: 0 <= j < |delays| ==>
                  delays[j] == Backoff(original.retryCount, TurnAt(turns, j).r1, TurnAt(turns, j).r2)
    {
      var t := TurnAt(turns, i);
      if original.retryCount != 0 {
        delays := delays + [Backoff(original.retryCount, t.r1, t.r2)];
      }
      attempts := attempts + [request];
      match attempt(s, request, t.conflict)
      case Returned(w, s') =>
        return Outcome(Completed(w), s', attempts, delays);
      case Failed(e) =>
        return Outcome(Threw(e), s, attempts, delays);
      case Conflicted =>
        i := i + 1;
    }
    return Outcome(StillRetrying, s, attempts, delays);
  }
}

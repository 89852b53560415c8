/** `DepositFund`: credit the actor's own wallet, as one check, mutate,
    append-ledger, record-key unit, behind the recursive retry. */
module DepositFund {
  import opened Common
  import opened Requests
  import opened Ledger
  import opened Repository
  import opened Retry
  import opened Invariants

  const AmountMessage: string := "Deposit amount must be positive."

  /** The operation type the key row records. */
  const OperationType: string := "DEPOSIT"

  /** The message of a missing sender wallet names the sender. */
  function WalletMissing(name: Username): string
  {
    "Wallet not found for userId: " + name
  }

  /** A deposit that reaches its first save: a positive amount, a known
      user with a wallet, and a key nobody has recorded. */
  predicate Writes(s: Store, req: ValidRequest)
  {
    && req.amount > 0
    && req.actor in s.users
    && s.users[req.actor].id in s.wallets
    && !KeyExists(s, req.key)
  }

  /** One attempt of `depositFund(request)`. Checks, in order: a positive
      amount, the user, the user's wallet, the key. A fresh key then saves
      the credited wallet (where the conflict, if any, strikes), appends one
      DEPOSIT row and records the key for the user. */
  function Attempt(now: Instant, s: Store, req: ValidRequest, conflict: bool): (r: Step)
    ensures req.amount <= 0 ==> r == Failed(IllegalArgument(AmountMessage))
    ensures req.amount > 0 && req.actor !in s.users ==> r == Failed(NoSuchElement)
    ensures req.amount > 0 && req.actor in s.users && s.users[req.actor].id !in s.wallets ==>
              r == Failed(NotFound(WalletMissing(req.actor)))
    ensures r.Failed? <==> !(req.amount > 0 && req.actor in s.users && s.users[req.actor].id in s.wallets)
    ensures r.Conflicted? <==> conflict && Writes(s, req)
    ensures !conflict && Writes(s, req) ==> r.Returned?
    ensures req.amount > 0 && req.actor in s.users && s.users[req.actor].id in s.wallets
            && KeyExists(s, req.key) ==>
              r == Returned(s.wallets[s.users[req.actor].id], s)
    ensures r.Returned? && !KeyExists(s, req.key) ==>
              var user := s.users[req.actor];
              var w := s.wallets[user.id];
              && r.wallet == Rebalanced(w, w.balance + req.amount)
              && r.store.wallets == s.wallets[user.id := r.wallet]
              && |r.store.ledger| == |s.ledger| + 1
              && r.store.ledger[..|s.ledger|] == s.ledger
              && DetailOf(r.store.ledger[|s.ledger|])
                 == DetailRecord(w.id, user.username, user.username, req.amount,
                                 w.balance, w.balance + req.amount, EntryType.DEPOSIT)
              && r.store.ledger[|s.ledger|].timestamp == now
              && r.store.keys == s.keys[req.key := KeyRecord(OperationType, user.id, false)]
              && r.store.users == s.users
              && r.store.nextUserId == s.nextUserId && r.store.nextWalletId == s.nextWalletId
  {
    if req.amount <= 0 then Failed(IllegalArgument(AmountMessage))
    else match FindUser(s, req.actor)
      case None => Failed(NoSuchElement)
      case Some(user) =>
        match FindWallet(s, user.id)
        case None => Failed(NotFound(WalletMissing(req.actor)))
        case Some(w) =>
          if KeyExists(s, req.key) then Returned(w, s)
          else if conflict then Conflicted
          else
            var post := w.balance + req.amount;
            var saved := Rebalanced(w, post);
            var d: ValidDetail :=
              DetailRecord(w.id, user.username, user.username, req.amount, w.balance, post, EntryType.DEPOSIT);
            var s1 := SaveWallet(s, user.id, saved);
            var s2 := SaveTransactions(s1, [FromRecord(d, now)]);
            Returned(saved, SaveKey(s2, req.key, OperationType, user.id))
  }

  /** The attempt has the executor shape the retry relies on. */
  lemma AttemptShape(now: Instant, s: Store, req: ValidRequest)
    ensures ConflictOnlyAtSave((s': Store, r: ValidRequest, c: bool) => Attempt(now, s', r, c), s, req)
  {
  }

  /** `depositFund()`: the attempt behind the recursive retry, starting from
      the request itself. Whatever the conflicts, it ends with the outcome of
      a conflict-free attempt or with no write at all. */
  function Run(now: Instant, s: Store, req: ValidRequest, turns: seq<Turn>): (o: Outcome)
    ensures !o.verdict.StillRetrying?
    ensures o.verdict.Completed? ==> Attempt(now, s, req, false) == Returned(o.verdict.wallet, o.store)
    ensures !o.verdict.Completed? ==> o.store == s
    ensures Attempt(now, s, req, false).Failed? ==> o.verdict == Threw(Attempt(now, s, req, false).error)
    ensures !TurnAt(turns, 0).conflict ==>
              o.verdict == (match Attempt(now, s, req, false)
                            case Returned(w, _) => Completed(w)
                            case Failed(e) => Threw(e)
                            case Conflicted => StillRetrying)
  {
    var attempt := (s': Store, r: ValidRequest, c: bool) => Attempt(now, s', r, c);
    AttemptShape(now, s, req);
    RecursiveSolo(attempt, req, req, s, turns, 0);
    Recursive(attempt, req, req, s, turns, 0)
  }

  /** A successful deposit keeps the store consistent: the credited balance
      is still the net of the wallet's rows. */
  lemma {:induction false} AttemptKeepsConsistent(now: Instant, s: Store, req: ValidRequest, conflict: bool)
    requires Consistent(s) && ClockAfter(s, now)
    ensures Attempt(now, s, req, conflict).Returned? ==> Consistent(Attempt(now, s, req, conflict).store)
  {
    var r := Attempt(now, s, req, conflict);
    if r.Returned? && !KeyExists(s, req.key) {
      var user := s.users[req.actor];
      var t := r.store.ledger[|s.ledger|];
      assert r.store.ledger == s.ledger + [t];
      var s' := r.store.(keys := s.keys);
      PostKeepsConsistent(s, s', user.id, t);
    }
  }

  /** Replaying a completed deposit with the same key changes nothing and
      hands back the wallet the first call produced, whatever positive
      amount the replay carries. */
  lemma {:induction false} Replay(now: Instant, later: Instant, s: Store, req: ValidRequest, again: ValidRequest, conflict: bool)
    requires WellFormed(s)
    requires Attempt(now, s, req, false).Returned?
    requires again.actor == req.actor && again.key == req.key && again.amount > 0
    ensures var first := Attempt(now, s, req, false);
            Attempt(later, first.store, again, conflict) == first
  {
  }
}

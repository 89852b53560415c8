/** `TransferFund`: move an amount from the actor's wallet to the
    receiver's, as one check, mutate, append-ledger, record-key unit, behind
    the recursive retry. Unlike the deposit and the withdrawal it has no
    positive-amount check of its own: only the request's `amount >= 0`
    applies, so a transfer of zero goes through. */
module TransferFund {
  import opened Common
  import opened Requests
  import opened Ledger
  import opened Repository
  import opened Retry
  import opened Invariants

  const SelfMessage: string := "Cannot transfer funds to yourself."
  const InsufficientMessage: string := "Insufficient funds for transfer."

  /** The operation type the key row records. */
  const OperationType: string := "TRANSFER"

  /** The message of a missing sender wallet names the sender. */
  function SenderWalletMissing(name: Username): string
  {
    "Wallet not found for userId: " + name
  }

  /** The message of a missing receiver wallet names the receiver's id. */
  function ReceiverWalletMissing(id: UserId): string
  {
    "Wallet not found for userId: " + NatString(id)
  }

  /** Both users resolve (a missing receiver name finds nobody) and they are
      two different users. */
  predicate Parties(s: Store, req: ValidRequest)
  {
    && req.actor in s.users
    && req.receiver.Some? && req.receiver.value in s.users
    && s.users[req.actor].id != s.users[req.receiver.value].id
  }

  /** A transfer that reaches its first save: two different users, both
      with wallets, a fresh key and a sender balance that covers it. */
  predicate Writes(s: Store, req: ValidRequest)
  {
    && Parties(s, req)
    && s.users[req.actor].id in s.wallets
    && s.users[req.receiver.value].id in s.wallets
    && !KeyExists(s, req.key)
    && s.wallets[s.users[req.actor].id].balance >= req.amount
  }

  /** One attempt of `transferFund(request)`. Checks, in order: the sender,
      the receiver, that they differ, the sender's wallet, the key, the
      sender's balance, the receiver's wallet. Then both wallets are saved
      (where the conflict, if any, strikes), a TRANSFER_SENT row for the
      sender's wallet and a TRANSFER_RECEIVED row for the receiver's are
      appended, and the key is recorded for the sender. */
  function Attempt(now: Instant, s: Store, req: ValidRequest, conflict: bool): (r: Step)
    ensures req.actor !in s.users ==> r == Failed(NoSuchElement)
    ensures req.actor in s.users && (req.receiver.None? || req.receiver.value !in s.users) ==>
              r == Failed(NoSuchElement)
    ensures req.actor in s.users && req.receiver.Some? && req.receiver.value in s.users
            && s.users[req.actor].id == s.users[req.receiver.value].id ==>
              r == Failed(IllegalArgument(SelfMessage))
    ensures Parties(s, req) && s.users[req.actor].id !in s.wallets ==>
              r == Failed(NotFound(SenderWalletMissing(req.actor)))
    ensures Parties(s, req) && s.users[req.actor].id in s.wallets && !KeyExists(s, req.key)
            && s.wallets[s.users[req.actor].id].balance < req.amount ==>
              r == Failed(InsufficientFunds(InsufficientMessage))
    ensures Parties(s, req) && s.users[req.actor].id in s.wallets && !KeyExists(s, req.key)
            && s.wallets[s.users[req.actor].id].balance >= req.amount
            && s.users[req.receiver.value].id !in s.wallets ==>
              r == Failed(NotFound(ReceiverWalletMissing(s.users[req.receiver.value].id)))
    ensures r.Failed? <==>
              !(&& Parties(s, req) && s.users[req.actor].id in s.wallets
                && (|| KeyExists(s, req.key)
                    || (&& s.wallets[s.users[req.actor].id].balance >= req.amount
                        && s.users[req.receiver.value].id in s.wallets)))
    ensures r.Conflicted? <==> conflict && Writes(s, req)
    ensures !conflict && Writes(s, req) ==> r.Returned?
    ensures r.Returned? ==> Parties(s, req) && s.users[req.actor].id in s.wallets
    ensures r.Returned? && !KeyExists(s, req.key) ==> Writes(s, req) && !conflict
    ensures Parties(s, req) && s.users[req.actor].id in s.wallets && KeyExists(s, req.key) ==>
              r == Returned(s.wallets[s.users[req.actor].id], s)
    ensures r.Returned? && !KeyExists(s, req.key) ==>
              var sender := s.users[req.actor];
              var receiver := s.users[req.receiver.value];
              var sw := s.wallets[sender.id];
              var rw := s.wallets[receiver.id];
              && r.wallet == Rebalanced(sw, sw.balance - req.amount)
              && r.store.wallets == s.wallets[sender.id := r.wallet]
                                             [receiver.id := Rebalanced(rw, rw.balance + req.amount)]
              && |r.store.ledger| == |s.ledger| + 2
              && r.store.ledger[..|s.ledger|] == s.ledger
              && DetailOf(r.store.ledger[|s.ledger|])
                 == DetailRecord(sw.id, sender.username, req.receiver.value, req.amount,
                                 sw.balance, sw.balance - req.amount, TRANSFER_SENT)
              && DetailOf(r.store.ledger[|s.ledger| + 1])
                 == DetailRecord(rw.id, sender.username, req.receiver.value, req.amount,
                                 rw.balance, rw.balance + req.amount, TRANSFER_RECEIVED)
              && r.store.ledger[|s.ledger|].timestamp == now
              && r.store.ledger[|s.ledger| + 1].timestamp == now
              && r.store.keys == s.keys[req.key := KeyRecord(OperationType, sender.id, false)]
              && r.store.users == s.users
              && r.store.nextUserId == s.nextUserId && r.store.nextWalletId == s.nextWalletId
  {
    match FindUser(s, req.actor)
    case None => Failed(NoSuchElement)
    case Some(sender) =>
      match (if req.receiver.Some? then FindUser(s, req.receiver.value) else None)
      case None => Failed(NoSuchElement)
      case Some(receiver) =>
        if sender.id == receiver.id then Failed(IllegalArgument(SelfMessage))
        else match FindWallet(s, sender.id)
          case None => Failed(NotFound(SenderWalletMissing(req.actor)))
          case Some(sw) =>
            if KeyExists(s, req.key) then Returned(sw, s)
            else if sw.balance < req.amount then Failed(InsufficientFunds(InsufficientMessage))
            else match FindWallet(s, receiver.id)
              case None => Failed(NotFound(ReceiverWalletMissing(receiver.id)))
              case Some(rw) =>
                if conflict then Conflicted
                else
                  var name := req.receiver.value;
                  var sent := Rebalanced(sw, sw.balance - req.amount);
                  var got := Rebalanced(rw, rw.balance + req.amount);
                  var s1 := SaveWallet(SaveWallet(s, sender.id, sent), receiver.id, got);
                  var dSent: ValidDetail := DetailRecord(sw.id, sender.username, name, req.amount,
                                                         sw.balance, sent.balance, TRANSFER_SENT);
                  var dGot: ValidDetail := DetailRecord(rw.id, sender.username, name, req.amount,
                                                        rw.balance, got.balance, TRANSFER_RECEIVED);
                  var s2 := SaveTransactions(s1, [FromRecord(dSent, now), FromRecord(dGot, now)]);
                  Returned(sent, SaveKey(s2, req.key, OperationType, sender.id))
  }

  /** The attempt has the executor shape the retry relies on. */
  lemma AttemptShape(now: Instant, s: Store, req: ValidRequest)
    ensures ConflictOnlyAtSave((s': Store, r: ValidRequest, c: bool) => Attempt(now, s', r, c), s, req)
  {
  }

  /** `transferFund()`: the attempt behind the recursive retry, starting
      from the request itself. Whatever the conflicts, it ends with the
      outcome of a conflict-free attempt or with no write at all. */
  function Run(now: Instant, s: Store, req: ValidRequest, turns: seq<Turn>): (o: Outcome)
    ensures !o.verdict.StillRetrying?
    ensures o.verdict.Completed? ==> Attempt(now, s, req, false) == Returned(o.verdict.wallet, o.store)
    ensures !o.verdict.Completed? ==> o.store == s
    ensures Attempt(now, s, req, false).Failed? ==> o.verdict == Threw(Attempt(now, s, req, false).error)
    ensures !TurnAt(turns, 0).conflict ==>
              o.verdict == (match Attempt(now, s, req, false)
                            case Returned(w, _) => Completed(w)
                            case Failed(e) => Threw(e)
                            case Conflicted => StillRetrying)
  {
    var attempt := (s': Store, r: ValidRequest, c: bool) => Attempt(now, s', r, c);
    AttemptShape(now, s, req);
    RecursiveSolo(attempt, req, req, s, turns, 0);
    Recursive(attempt, req, req, s, turns, 0)
  }

  /** A transfer conserves money: the two balances it touches keep their
      sum, and every other wallet is left exactly as it was. */
  lemma {:induction false} Conserves(now: Instant, s: Store, req: ValidRequest)
    requires Attempt(now, s, req, false).Returned? && !KeyExists(s, req.key)
    ensures var r := Attempt(now, s, req, false);
            var a := s.users[req.actor].id;
            var b := s.users[req.receiver.value].id;
            && a != b && r.store.wallets.Keys == s.wallets.Keys
            && r.store.wallets[a].balance + r.store.wallets[b].balance
               == s.wallets[a].balance + s.wallets[b].balance
            && (forall u :: u in s.wallets && u != a && u != b ==> r.store.wallets[u] == s.wallets[u])
  {
    var r := Attempt(now, s, req, false);
    var a := s.users[req.actor].id;
    var b := s.users[req.receiver.value].id;
    assert r.store.wallets[a] == Rebalanced(s.wallets[a], s.wallets[a].balance - req.amount);
    assert r.store.wallets[b] == Rebalanced(s.wallets[b], s.wallets[b].balance + req.amount);
  }

  /** A successful transfer keeps the store consistent: each of the two
      balances is still the net of its wallet's rows. */
  lemma {:induction false} AttemptKeepsConsistent(now: Instant, s: Store, req: ValidRequest, conflict: bool)
    requires Consistent(s) && ClockAfter(s, now)
    ensures Attempt(now, s, req, conflict).Returned? ==> Consistent(Attempt(now, s, req, conflict).store)
  {
    var r := Attempt(now, s, req, conflict);
    if r.Returned? && !KeyExists(s, req.key) {
      var a := s.users[req.actor].id;
      var b := s.users[req.receiver.value].id;
      var t1 := r.store.ledger[|s.ledger|];
      var t2 := r.store.ledger[|s.ledger| + 1];
      assert r.store.ledger == s.ledger + [t1] + [t2];
      var s1 := s.(wallets := s.wallets[a := r.wallet], ledger := s.ledger + [t1]);
      PostKeepsConsistent(s, s1, a, t1);
      var s2 := r.store.(keys := s.keys);
      assert s1.wallets[b] == s.wallets[b];
      PostKeepsConsistent(s1, s2, b, t2);
    }
  }

  /** A transfer of zero between two funded users is not refused: it saves
      both wallets unchanged in balance and appends two rows of amount 0. */
  lemma {:induction false} ZeroAmountGoesThrough(now: Instant, s: Store, req: ValidRequest)
    requires Writes(s, req) && req.amount == 0
    ensures var r := Attempt(now, s, req, false);
            && r.Returned?
            && |r.store.ledger| == |s.ledger| + 2
            && r.store.ledger[|s.ledger|].amount == 0
            && r.store.ledger[|s.ledger| + 1].amount == 0
            && r.wallet.balance == s.wallets[s.users[req.actor].id].balance
  {
    var r := Attempt(now, s, req, false);
    assert !r.Conflicted? && !r.Failed?;
  }

  /** Replaying a completed transfer with the same key changes nothing and
      hands back the sender's wallet the first call produced. */
  lemma {:induction false} Replay(now: Instant, later: Instant, s: Store, req: ValidRequest, again: ValidRequest, conflict: bool)
    requires WellFormed(s)
    requires Attempt(now, s, req, false).Returned?
    requires again.actor == req.actor && again.receiver == req.receiver && again.key == req.key
    ensures var first := Attempt(now, s, req, false);
            Attempt(later, first.store, again, conflict) == first
  {
  }
}

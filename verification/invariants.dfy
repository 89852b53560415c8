/** The bookkeeping invariant of the store: every wallet's balance is what
    its ledger rows add up to. Registration opens a wallet at zero with no
    rows, and each executor moves a balance only together with the row that
    records the move, so the ledger alone explains every balance. */
module Invariants {
  import opened Common
  import opened Ledger
  import opened Repository

  /** The effect of one ledger row on the balance of its own wallet. */
  function Signed(t: Transaction): (v: int)
    ensures IsCredit(t.kind) ==> v == t.amount
    ensures !IsCredit(t.kind) ==> v == -t.amount
  {
    if IsCredit(t.kind) then t.amount else -t.amount
  }

  /** The net of all rows of wallet `id`, oldest first. */
  function Net(ledger: seq<Transaction>, id: WalletId): int
    decreases |ledger|
  {
    if ledger == [] then 0
    else
      var last := ledger[|ledger| - 1];
      Net(ledger[..|ledger| - 1], id) + (if last.walletId == id then Signed(last) else 0)
  }

  /** Appending rows moves the net of a wallet by exactly the rows that name
      it. */
  lemma {:induction false} NetAppendOne(ledger: seq<Transaction>, t: Transaction, id: WalletId)
    ensures Net(ledger + [t], id) == Net(ledger, id) + (if t.walletId == id then Signed(t) else 0)
  {
    assert (ledger + [t])[..|ledger|] == ledger;
  }

  /** A wallet no row names has a net of zero. */
  lemma {:induction false} NetUnnamed(ledger: seq<Transaction>, id: WalletId)
    requires forall i :: 0 <= i < |ledger| ==> ledger[i].walletId != id
    ensures Net(ledger, id) == 0
    decreases |ledger|
  {
    if ledger != [] {
      NetUnnamed(ledger[..|ledger| - 1], id);
    }
  }

  /** Every wallet's balance is the net of its ledger rows. */
  predicate Reconciled(s: Store)
  {
    forall u :: u in s.wallets ==> s.wallets[u].balance == Net(s.ledger, s.wallets[u].id)
  }

  /** The invariant the engine keeps between operations. */
  predicate Consistent(s: Store)
  {
    WellFormed(s) && Reconciled(s)
  }

  /** The empty store, before anyone registers. */
  function Empty(): (s: Store)
    ensures s.users == map[] && s.wallets == map[] && s.ledger == [] && s.keys == map[]
  {
    Store(map[], map[], [], map[], 0, 0)
  }

  /** The empty store is consistent. */
  lemma EmptyConsistent()
    ensures Consistent(Empty())
  {
  }

  /** Posting one row: a wallet whose balance moves by the row's signed
      amount, and the row appended at a time not before any earlier row,
      keeps the store consistent (keys may change freely). */
  lemma {:induction false} PostKeepsConsistent(s: Store, s': Store, u: UserId, t: Transaction)
    requires Consistent(s)
    requires u in s.wallets && t.walletId == s.wallets[u].id
    requires ClockAfter(s, t.timestamp)
    requires s.wallets[u].balance + Signed(t) >= 0
    requires s'.users == s.users && s'.nextUserId == s.nextUserId && s'.nextWalletId == s.nextWalletId
    requires s'.ledger == s.ledger + [t]
    requires s'.wallets == s.wallets[u := Rebalanced(s.wallets[u], s.wallets[u].balance + Signed(t))]
    ensures Consistent(s')
    ensures ClockAfter(s', t.timestamp)
  {
    forall v | v in s'.wallets
      ensures s'.wallets[v].balance == Net(s'.ledger, s'.wallets[v].id)
    {
      NetAppendOne(s.ledger, t, s'.wallets[v].id);
    }
    assert TimeOrdered(s'.ledger) by {
      forall i, j | 0 <= i < j < |s'.ledger|
        ensures s'.ledger[i].timestamp <= s'.ledger[j].timestamp
      {
        if j == |s.ledger| {
          assert s'.ledger[i] == s.ledger[i];
        }
      }
    }
    assert forall i :: 0 <= i < |s'.ledger| ==> s'.ledger[i].walletId < s'.nextWalletId by {
      forall i | 0 <= i < |s'.ledger|
        ensures s'.ledger[i].walletId < s'.nextWalletId
      {
        if i < |s.ledger| {
          assert s'.ledger[i] == s.ledger[i];
        }
      }
    }
  }
}

/** The ledger store as the engine sees it: users, wallets, ledger rows and
    idempotency keys, with the lookups and writes of the Spring Data
    repositories, and the guarded bulk updates of `WalletRepository`. */
module Repository {
  import opened Common
  import opened Requests
  import opened Ledger

  /** A registered user; the password is already encoded. */
  datatype User = User(id: UserId, username: Username, password: string)

  /** A wallet row; `version` is the optimistic-locking counter. */
  datatype Wallet = Wallet(id: WalletId, userId: UserId, balance: int, version: nat)

  /** An idempotency-key row (the key itself is the map key). */
  datatype KeyRecord = KeyRecord(operationType: string, owner: UserId, completed: bool)

  /** The whole store. Wallets are indexed by their owner, since every
      executor looks a wallet up by user id; idempotency keys are indexed
      by the key alone, as `existsByKey` looks them up. */
  datatype Store = Store(
    users: map<Username, User>,
    wallets: map<UserId, Wallet>,
    ledger: seq<Transaction>,
    keys: map<string, KeyRecord>,
    nextUserId: nat,
    nextWalletId: nat)

  /** Ledger rows appear in the order of their timestamps. */
  predicate TimeOrdered(ledger: seq<Transaction>)
  {
    forall i, j :: 0 <= i < j < |ledger| ==> ledger[i].timestamp <= ledger[j].timestamp
  }

  /** `now` is not earlier than any row already in the ledger. */
  predicate ClockAfter(s: Store, now: Instant)
  {
    forall i :: 0 <= i < |s.ledger| ==> s.ledger[i].timestamp <= now
  }

  /** No wallet holds a negative balance. */
  predicate NonNegative(s: Store)
  {
    forall u :: u in s.wallets ==> s.wallets[u].balance >= 0
  }

  /** The database constraints and the engine's invariants: unique user
      names and ids, at most one wallet per user with a unique id,
      identities below the generators (so every wallet belongs to an issued
      user id and every ledger row to an issued wallet id), non-negative
      balances, a time-ordered ledger. */
  predicate WellFormed(s: Store)
  {
    && (forall n :: n in s.users ==> s.users[n].username == n && s.users[n].id < s.nextUserId)
    && (forall n, m :: n in s.users && m in s.users && s.users[n].id == s.users[m].id ==> n == m)
    && (forall u :: u in s.wallets ==>
          s.wallets[u].userId == u && u < s.nextUserId && s.wallets[u].id < s.nextWalletId)
    && (forall u, v :: u in s.wallets && v in s.wallets && s.wallets[u].id == s.wallets[v].id ==> u == v)
    && NonNegative(s)
    && TimeOrdered(s.ledger)
    && (forall i :: 0 <= i < |s.ledger| ==> s.ledger[i].walletId < s.nextWalletId)
  }

  /** `UserRepository.findByUsername`. */
  function FindUser(s: Store, name: Username): Option<User>
  {
    if name in s.users then Some(s.users[name]) else None
  }

  /** `WalletRepository.findByUserId`. */
  function FindWallet(s: Store, owner: UserId): Option<Wallet>
  {
    if owner in s.wallets then Some(s.wallets[owner]) else None
  }

  /** `IdempotencyKeyRepository.existsByKey`: by the key alone, whoever
      recorded it. */
  predicate KeyExists(s: Store, key: string)
  {
    key in s.keys
  }

  /** The wallet after an executor set its balance and saved it: the
      optimistic-locking version moves on with the save. */
  function Rebalanced(w: Wallet, balance: int): (r: Wallet)
    ensures r.id == w.id && r.userId == w.userId && r.balance == balance
    ensures r.version == w.version + 1
  {
    w.(balance := balance, version := w.version + 1)
  }

  /** `walletRepository.saveAll` of one row loaded for `owner`: the saved
      row replaces the loaded one. */
  function SaveWallet(s: Store, owner: UserId, w: Wallet): (r: Store)
  {
    s.(wallets := s.wallets[owner := w])
  }

  /** `transactionRepository.save` / `saveAll`: rows are appended in order. */
  function SaveTransactions(s: Store, rows: seq<Transaction>): (r: Store)
  {
    s.(ledger := s.ledger + rows)
  }

  /** `idempotencyKeyRepository.save(new IdempotencyKey(key, op, user))`:
      a new key row, not yet marked completed. */
  function SaveKey(s: Store, key: string, op: string, owner: UserId): (r: Store)
  {
    s.(keys := s.keys[key := KeyRecord(op, owner, false)])
  }

  /** Wallets (by owner) whose row id is `id`: the rows an `update ... where
      id = :id` statement touches. */
  function RowsWithId(s: Store, id: WalletId): set<UserId>
  {
    set u | u in s.wallets && s.wallets[u].id == id
  }

  /** Under the unique-id constraint an id names at most one row. */
  lemma {:induction false} RowsWithIdAtMostOne(s: Store, id: WalletId)
    requires WellFormed(s)
    ensures |RowsWithId(s, id)| <= 1
  {
    var rows := RowsWithId(s, id);
    if rows != {} {
      var a :| a in rows;
      assert rows == {a};
    }
  }

  /** Number of rows an update reported, and the store after it. */
  datatype Update = Update(rows: nat, store: Store)

  /** `addAmount`: adds `amount` to the balance of the row(s) with that id;
      other rows, and every other field, stay as they were. */
  function AddAmount(s: Store, amount: int, id: WalletId): (r: Update)
    ensures r.rows == |RowsWithId(s, id)|
    ensures r.rows == 0 <==> forall u :: u in s.wallets ==> s.wallets[u].id != id
    ensures r.store.wallets.Keys == s.wallets.Keys
    ensures forall u :: u in s.wallets && s.wallets[u].id == id ==>
              r.store.wallets[u] == s.wallets[u].(balance := s.wallets[u].balance + amount)
    ensures forall u :: u in s.wallets && s.wallets[u].id != id ==> r.store.wallets[u] == s.wallets[u]
    ensures r.store == s.(wallets := r.store.wallets)
  {
    var rows := RowsWithId(s, id);
    assert forall u :: u in s.wallets && s.wallets[u].id == id ==> u in rows;
    if rows == {} then
      Update(0, s)
    else
      var w := map u | u in s.wallets ::
        if s.wallets[u].id == id then s.wallets[u].(balance := s.wallets[u].balance + amount)
        else s.wallets[u];
      Update(|rows|, s.(wallets := w))
  }

  /** Wallets (by owner) an `update ... where id = :id and balance >=
      :amount` statement touches. */
  function RowsCovering(s: Store, amount: int, id: WalletId): set<UserId>
  {
    set u | u in s.wallets && s.wallets[u].id == id && s.wallets[u].balance >= amount
  }

  /** `subAmountFromBalance`: debits the row with that id only when its
      balance covers the amount; otherwise it reports no rows and changes
      nothing. */
  function SubAmountFromBalance(s: Store, amount: int, id: WalletId): (r: Update)
    ensures r.rows == |RowsCovering(s, amount, id)|
    ensures r.rows == 0 ==> r.store == s
    ensures r.store.wallets.Keys == s.wallets.Keys
    ensures forall u :: u in s.wallets ==>
              r.store.wallets[u] ==
                if s.wallets[u].id == id && s.wallets[u].balance >= amount
                then s.wallets[u].(balance := s.wallets[u].balance - amount)
                else s.wallets[u]
    ensures NonNegative(s) && amount >= 0 ==> NonNegative(r.store)
    ensures r.store == s.(wallets := r.store.wallets)
  {
    var rows := RowsCovering(s, amount, id);
    assert forall u :: u in s.wallets && s.wallets[u].id == id && s.wallets[u].balance >= amount ==> u in rows;
    if rows == {} then
      Update(0, s)
    else
      var w := map u | u in s.wallets ::
        if s.wallets[u].id == id && s.wallets[u].balance >= amount
        then s.wallets[u].(balance := s.wallets[u].balance - amount)
        else s.wallets[u];
      Update(|rows|, s.(wallets := w))
  }

  /** The message of `subAmount`'s exception, naming the wallet. */
  function SubAmountMessage(id: WalletId): string
  {
    "User with id: " + NatString(id) + " has insufficient balance"
  }

  /** `subAmount`: the guarded debit, raising InsufficientFunds exactly when
      the update touched no row. */
  function SubAmount(s: Store, amount: int, id: WalletId): (r: Result<Store, Error>)
    ensures r.Failure? <==> RowsCovering(s, amount, id) == {}
    ensures r.Failure? ==> r.error == InsufficientFunds(SubAmountMessage(id))
    ensures r.Success? ==> r.value == SubAmountFromBalance(s, amount, id).store
    ensures r.Success? ==> exists u :: u in s.wallets && s.wallets[u].id == id
                                        && r.value.wallets[u].balance == s.wallets[u].balance - amount
  {
    var upd := SubAmountFromBalance(s, amount, id);
    if upd.rows <= 0 then
      Failure(InsufficientFunds(SubAmountMessage(id)))
    else
      var u :| u in RowsCovering(s, amount, id);
      assert s.wallets[u].id == id && s.wallets[u].balance >= amount;
      Success(upd.store)
  }
}

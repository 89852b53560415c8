/** `AuthService`: opening an account (a user and its empty wallet) and
    looking a user up by name. Password hashing is an opaque encoder. */
module AuthService {
  import opened Common
  import opened Requests
  import opened Ledger
  import opened Repository
  import opened Invariants

  const TakenMessage: string := "Username already taken."
  const UserMissingMessage: string := "User not found."

  /** The saved user and the store after the registration. */
  datatype Registered = Registered(user: User, store: Store)

  /** `register`: refuses a name already taken; otherwise saves the user
      under the next user id, with the encoded password, and a wallet for
      it under the next wallet id, at balance 0. */
  function Register(s: Store, username: Username, password: string, encode: string -> string): (r: Result<Registered, Error>)
    ensures r.Failure? <==> username in s.users
    ensures r.Failure? ==> r.error == IllegalArgument(TakenMessage)
    ensures r.Success? ==>
              var u := r.value.user;
              var t := r.value.store;
              && u == User(s.nextUserId, username, encode(password))
              && t.users == s.users[username := u]
              && t.wallets == s.wallets[u.id := Wallet(s.nextWalletId, u.id, 0, 0)]
              && t.ledger == s.ledger && t.keys == s.keys
              && t.nextUserId == s.nextUserId + 1 && t.nextWalletId == s.nextWalletId + 1
  {
    if username in s.users then Failure(IllegalArgument(TakenMessage))
    else
      var u := User(s.nextUserId, username, encode(password));
      var w := Wallet(s.nextWalletId, u.id, 0, 0);
      Success(Registered(u, s.(users := s.users[username := u], wallets := s.wallets[u.id := w],
                               nextUserId := s.nextUserId + 1, nextWalletId := s.nextWalletId + 1)))
  }

  /** Registration on a consistent store adds exactly one new user and one
      new wallet, empty and with no rows, and keeps the store consistent. */
  lemma {:induction false} RegisterKeepsConsistent(s: Store, username: Username, password: string, encode: string -> string)
    requires Consistent(s)
    ensures Register(s, username, password, encode).Success? ==>
              var reg := Register(s, username, password, encode).value;
              && reg.user.id !in s.wallets
              && reg.store.wallets.Keys == s.wallets.Keys + {reg.user.id}
              && reg.store.wallets[reg.user.id].balance == 0
              && Net(reg.store.ledger, reg.store.wallets[reg.user.id].id) == 0
              && Consistent(reg.store)
  {
    var r := Register(s, username, password, encode);
    if r.Success? {
      var t := r.value.store;
      var u := r.value.user;
      NetUnnamed(s.ledger, s.nextWalletId);
      assert forall n :: n in s.users ==> s.users[n].id != u.id;
      assert forall v :: v in s.wallets ==> s.wallets[v].id != s.nextWalletId;
    }
  }

  /** `findByUsername`. */
  function FindByUsername(s: Store, name: Username): (r: Result<User, Error>)
    ensures r.Success? <==> name in s.users
    ensures r.Success? ==> r.value == s.users[name]
    ensures r.Failure? ==> r.error == NotFound(UserMissingMessage)
  {
    match FindUser(s, name)
    case None => Failure(NotFound(UserMissingMessage))
    case Some(u) => Success(u)
  }

  /** A registered name can be found again, as the user the registration
      returned. */
  lemma {:induction false} RegisterThenFind(s: Store, username: Username, password: string, encode: string -> string)
    requires Register(s, username, password, encode).Success?
    ensures var reg := Register(s, username, password, encode).value;
            FindByUsername(reg.store, username) == Success(reg.user)
  {
  }
}

/** `TransactionService`: the signed-in user's ledger rows between two
    calendar days, both days included, oldest first. Local date-times are
    nanosecond counts from the start of day 0. */
module TransactionService {
  import opened Common
  import opened Requests
  import opened Ledger
  import opened Repository
  import opened Queries

  /** Nanoseconds in a day. */
  const NanosPerDay: int := 86_400_000_000_000

  /** `date.atStartOfDay()`. */
  function StartOfDay(d: Day): Instant
  {
    d * NanosPerDay
  }

  /** `date.atTime(LocalTime.MAX)`: 23:59:59.999999999 of that day. */
  function EndOfDay(d: Day): Instant
  {
    d * NanosPerDay + NanosPerDay - 1
  }

  /** The calendar day an instant falls on (rounding down, also before day 0). */
  function DayOf(t: Instant): Day
  {
    t / NanosPerDay
  }

  /** An instant lies between the start of one day and the end of another
      exactly when its own day lies between the two. */
  lemma {:induction false} DayBounds(t: Instant, first: Day, last: Day)
    ensures StartOfDay(first) <= t <= EndOfDay(last) <==> first <= DayOf(t) <= last
  {
    var d := DayOf(t);
    assert d * NanosPerDay <= t < d * NanosPerDay + NanosPerDay;
    if first <= d {
      assert first * NanosPerDay <= d * NanosPerDay;
    } else {
      assert first >= d + 1;
      assert first * NanosPerDay >= d * NanosPerDay + NanosPerDay;
    }
    if d <= last {
      assert d * NanosPerDay <= last * NanosPerDay;
    } else {
      assert d >= last + 1;
      assert d * NanosPerDay >= last * NanosPerDay + NanosPerDay;
    }
  }

  /** The message of a missing wallet names what the lookup was given. */
  function WalletMissing(name: Username): string
  {
    "Wallet not found for userId: " + name
  }

  /** The wallet of the signed-in user, looked up through the user's name. */
  function WalletOf(s: Store, name: Username): (r: Result<Wallet, Error>)
    ensures r.Success? <==> name in s.users && s.users[name].id in s.wallets
    ensures r.Success? ==> r.value == s.wallets[s.users[name].id]
    ensures r.Failure? ==> r.error == NotFound(WalletMissing(name))
  {
    match FindUser(s, name)
    case None => Failure(NotFound(WalletMissing(name)))
    case Some(u) =>
      match FindWallet(s, u.id)
      case None => Failure(NotFound(WalletMissing(name)))
      case Some(w) => Success(w)
  }

  /** `getTransactionsForWalletByDateRange`: the rows of the user's wallet
      from the first instant of `startDate` to the last instant of `endDate`,
      oldest first. */
  function ByDateRange(s: Store, name: Username, startDate: Day, endDate: Day): (r: Result<seq<Transaction>, Error>)
    ensures r.Failure? <==> WalletOf(s, name).Failure?
    ensures r.Failure? ==> r.error == WalletOf(s, name).error
    ensures r.Success? ==>
              var w := WalletOf(s, name).value;
              && (forall t :: t in r.value <==>
                    t in s.ledger && t.walletId == w.id && startDate <= DayOf(t.timestamp) <= endDate)
              && (forall t :: multiset(r.value)[t] ==
                    if t.walletId == w.id && startDate <= DayOf(t.timestamp) <= endDate
                    then multiset(s.ledger)[t] else 0)
              && (TimeOrdered(s.ledger) ==> TimeOrdered(r.value))
  {
    match WalletOf(s, name)
    case Failure(e) => Failure(e)
    case Success(w) =>
      var lo := StartOfDay(startDate);
      var hi := EndOfDay(endDate);
      ByWalletBetweenSpec(s.ledger, w.id, lo, hi);
      var rows := ByWalletBetweenOldestFirst(s.ledger, w.id, lo, hi);
      assert forall t :: t in rows ==> startDate <= DayOf(t.timestamp) <= endDate by {
        forall t | t in rows
          ensures startDate <= DayOf(t.timestamp) <= endDate
        {
          DayBounds(t.timestamp, startDate, endDate);
        }
      }
      assert forall t :: t in s.ledger && t.walletId == w.id && startDate <= DayOf(t.timestamp) <= endDate ==> t in rows by {
        forall t | t in s.ledger && t.walletId == w.id && startDate <= DayOf(t.timestamp) <= endDate
          ensures t in rows
        {
          DayBounds(t.timestamp, startDate, endDate);
        }
      }
      assert forall t :: multiset(rows)[t] ==
               if t.walletId == w.id && startDate <= DayOf(t.timestamp) <= endDate
               then multiset(s.ledger)[t] else 0 by {
        forall t
          ensures multiset(rows)[t] ==
                  if t.walletId == w.id && startDate <= DayOf(t.timestamp) <= endDate
                  then multiset(s.ledger)[t] else 0
        {
          DayBounds(t.timestamp, startDate, endDate);
        }
      }
      Success(rows)
  }

  /** A one-day range returns every row of that day and nothing else. */
  lemma {:induction false} SingleDay(s: Store, name: Username, day: Day, t: Transaction)
    requires ByDateRange(s, name, day, day).Success?
    requires t in s.ledger && t.walletId == WalletOf(s, name).value.id
    ensures t in ByDateRange(s, name, day, day).value <==> DayOf(t.timestamp) == day
  {
  }
}

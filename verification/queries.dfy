/** The two derived finders of `TransactionRepository`, over a ledger that
    is kept in timestamp order: a filter keeps that order, and reading the
    filtered rows backwards gives newest first. Rows with equal timestamps
    come in ledger order (ascending) or its reverse (descending). */
module Queries {
  import opened Common
  import opened Ledger
  import opened Repository

  /** The rows `keep` accepts, in ledger order. */
  function Select(ledger: seq<Transaction>, keep: Transaction -> bool): (r: seq<Transaction>)
    ensures |r| <= |ledger|
    ensures forall t :: t in r <==> t in ledger && keep(t)
    decreases |ledger|
  {
    if ledger == [] then []
    else (if keep(ledger[0]) then [ledger[0]] else []) + Select(ledger[1..], keep)
  }

  /** A filter keeps every accepted row as often as the ledger holds it,
      equal rows included, and drops every other row. */
  lemma {:induction false} SelectCounts(ledger: seq<Transaction>, keep: Transaction -> bool)
    ensures forall t :: multiset(Select(ledger, keep))[t] == if keep(t) then multiset(ledger)[t] else 0
    decreases |ledger|
  {
    if ledger != [] {
      SelectCounts(ledger[1..], keep);
      assert ledger == [ledger[0]] + ledger[1..];
      assert multiset(ledger) == multiset([ledger[0]]) + multiset(ledger[1..]);
      var head := if keep(ledger[0]) then [ledger[0]] else [];
      assert Select(ledger, keep) == head + Select(ledger[1..], keep);
      assert multiset(Select(ledger, keep)) == multiset(head) + multiset(Select(ledger[1..], keep));
    }
  }

  /** The rows after the first of a time-ordered ledger are time-ordered,
      and none is older than the first. */
  lemma {:induction false} OrderedTail(ledger: seq<Transaction>)
    requires TimeOrdered(ledger) && ledger != []
    ensures TimeOrdered(ledger[1..])
    ensures forall t :: t in ledger[1..] ==> ledger[0].timestamp <= t.timestamp
  {
    var rest := ledger[1..];
    forall i, j | 0 <= i < j < |rest|
      ensures rest[i].timestamp <= rest[j].timestamp
    {
      assert rest[i] == ledger[i + 1] && rest[j] == ledger[j + 1];
    }
    forall t | t in rest
      ensures ledger[0].timestamp <= t.timestamp
    {
      var j :| 0 <= j < |rest| && rest[j] == t;
      assert ledger[j + 1] == t;
    }
  }

  /** A row no newer than any of a time-ordered sequence can go in front. */
  lemma {:induction false} OrderedCons(x: Transaction, tail: seq<Transaction>)
    requires TimeOrdered(tail)
    requires forall t :: t in tail ==> x.timestamp <= t.timestamp
    ensures TimeOrdered([x] + tail)
  {
    var r := [x] + tail;
    forall i, j | 0 <= i < j < |r|
      ensures r[i].timestamp <= r[j].timestamp
    {
      assert r[j] == tail[j - 1];
      if i == 0 {
        assert r[j] in tail;
      } else {
        assert r[i] == tail[i - 1];
      }
    }
  }

  /** Filtering a time-ordered ledger leaves it time-ordered. */
  lemma {:induction false} SelectOrdered(ledger: seq<Transaction>, keep: Transaction -> bool)
    requires TimeOrdered(ledger)
    ensures TimeOrdered(Select(ledger, keep))
    decreases |ledger|
  {
    if ledger != [] {
      var rest := ledger[1..];
      OrderedTail(ledger);
      SelectOrdered(rest, keep);
      var tail := Select(rest, keep);
      if keep(ledger[0]) {
        OrderedCons(ledger[0], tail);
        assert Select(ledger, keep) == [ledger[0]] + tail;
      } else {
        assert Select(ledger, keep) == tail;
      }
    }
  }

  /** `xs` read backwards. */
  function Reverse(xs: seq<Transaction>): (r: seq<Transaction>)
    ensures |r| == |xs|
    ensures forall i :: 0 <= i < |xs| ==> r[i] == xs[|xs| - 1 - i]
    ensures multiset(r) == multiset(xs)
    decreases |xs|
  {
    if xs == [] then []
    else
      assert xs == xs[..|xs| - 1] + [xs[|xs| - 1]];
      [xs[|xs| - 1]] + Reverse(xs[..|xs| - 1])
  }

  /** Rows newest first. */
  predicate NewestFirst(xs: seq<Transaction>)
  {
    forall i, j :: 0 <= i < j < |xs| ==> xs[i].timestamp >= xs[j].timestamp
  }

  /** `findByWalletIdOrderByTimestampDesc`. */
  function ByWalletNewestFirst(ledger: seq<Transaction>, id: WalletId): (r: seq<Transaction>)
  {
    Reverse(Select(ledger, (t: Transaction) => t.walletId == id))
  }

  /** Exactly the wallet's rows, newest first. */
  lemma {:induction false} ByWalletNewestFirstSpec(ledger: seq<Transaction>, id: WalletId)
    ensures var r := ByWalletNewestFirst(ledger, id);
            && (forall t :: t in r <==> t in ledger && t.walletId == id)
            && (forall t :: multiset(r)[t] == if t.walletId == id then multiset(ledger)[t] else 0)
            && (TimeOrdered(ledger) ==> NewestFirst(r))
  {
    var keep := (t: Transaction) => t.walletId == id;
    var sel := Select(ledger, keep);
    SelectCounts(ledger, keep);
    if TimeOrdered(ledger) {
      SelectOrdered(ledger, keep);
    }
    var r := Reverse(sel);
    assert multiset(r) == multiset(sel);
    forall t
      ensures t in r <==> t in sel
    {
      assert t in r <==> t in multiset(r);
      assert t in sel <==> t in multiset(sel);
    }
  }

  /** `findByWalletIdAndTimestampBetweenOrderByTimestampAsc`: `between` is
      inclusive at both ends. */
  function ByWalletBetweenOldestFirst(ledger: seq<Transaction>, id: WalletId, lo: Instant, hi: Instant): (r: seq<Transaction>)
  {
    Select(ledger, (t: Transaction) => t.walletId == id && lo <= t.timestamp <= hi)
  }

  /** Exactly the wallet's rows stamped within [lo, hi], oldest first. */
  lemma {:induction false} ByWalletBetweenSpec(ledger: seq<Transaction>, id: WalletId, lo: Instant, hi: Instant)
    ensures var r := ByWalletBetweenOldestFirst(ledger, id, lo, hi);
            && (forall t :: t in r <==> t in ledger && t.walletId == id && lo <= t.timestamp <= hi)
            && (forall t :: multiset(r)[t] ==
                  if t.walletId == id && lo <= t.timestamp <= hi then multiset(ledger)[t] else 0)
            && (TimeOrdered(ledger) ==> TimeOrdered(r))
  {
    SelectCounts(ledger, (t: Transaction) => t.walletId == id && lo <= t.timestamp <= hi);
    if TimeOrdered(ledger) {
      SelectOrdered(ledger, (t: Transaction) => t.walletId == id && lo <= t.timestamp <= hi);
    }
  }
}

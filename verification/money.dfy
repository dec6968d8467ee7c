/** What the billing engine owes its users, over every interleaved run. */
module Money {
  import opened Options
  import opened Tables
  import opened Ledger
  import opened Billing
  import opened Invariants
  import opened Transactions
  import opened Runs

  /** What a user's orders have cost: charges at full total, less what was refunded. */
  function OrdersCost(orders: seq<Order>, l: seq<Entry>, user: nat): int {
    if orders == [] then 0
    else
      var o := orders[|orders| - 1];
      OrdersCost(orders[..|orders| - 1], l, user)
      + if o.user == user then Total(l, Purchases(o.number)) * o.total - o.refunded else 0
  }

  /** The ledger amounts that name a user's orders. */
  function OrdersAmount(orders: seq<Order>, l: seq<Entry>, user: nat): int {
    if orders == [] then 0
    else
      var o := orders[|orders| - 1];
      OrdersAmount(orders[..|orders| - 1], l, user) + if o.user == user then Total(l, OrderAmount(o.number)) else 0
  }

  lemma {:induction false} AmountWithoutMatch(orders: seq<Order>, l: seq<Entry>, e: Entry, user: nat)
    requires forall i | 0 <= i < |orders| :: e.reference != OrderRef(orders[i].number)
    ensures OrdersAmount(orders, l + [e], user) == OrdersAmount(orders, l, user)
  {
    hide OrderRef;
    if orders == [] {
    } else {
      AmountWithoutMatch(orders[..|orders| - 1], l, e, user);
      TotalAppend(l, e, OrderAmount(orders[|orders| - 1].number));
    }
  }

  /** A row that names one order counts once: order numbers are unique. */
  lemma {:induction false} AmountWithMatch(orders: seq<Order>, l: seq<Entry>, e: Entry, user: nat, i: nat)
    requires forall j, k | 0 <= j < k < |orders| :: orders[j].number != orders[k].number
    requires i < |orders| && e.reference == OrderRef(orders[i].number)
    ensures OrdersAmount(orders, l + [e], user)
            == OrdersAmount(orders, l, user) + if orders[i].user == user then e.amount else 0
  {
    hide OrderRef;
    var rest, o := orders[..|orders| - 1], orders[|orders| - 1];
    TotalAppend(l, e, OrderAmount(o.number));
    if i == |orders| - 1 {
      forall j | 0 <= j < |rest| ensures e.reference != OrderRef(rest[j].number) {
        OrderRefIsInjective(rest[j].number, o.number);
      }
      AmountWithoutMatch(rest, l, e, user);
    } else {
      OrderRefIsInjective(orders[i].number, o.number);
      AmountWithMatch(rest, l, e, user, i);
    }
  }

  /** Every row of a user either belongs to no order or to exactly one of that user's. */
  lemma {:induction false} RowsPartition(orders: seq<Order>, l: seq<Entry>, user: nat)
    requires RowsAttributed(orders, l) && KeysUnique(orders)
    ensures Total(l, UserAmount(user)) == Total(l, OutsideAmount(user)) + OrdersAmount(orders, l, user)
  {
    hide OrderRef, IsOrderRef;
    if l == [] {
      NoRowsNoAmount(orders, user);
    } else {
      var rest, e := l[..|l| - 1], l[|l| - 1];
      assert l == rest + [e];
      RowsPartition(orders, rest, user);
      if IsOrderRef(e.reference) {
        assert RowAttributed(orders, e);
        var i :| 0 <= i < |orders| && e.reference == OrderRef(orders[i].number) && RowFits(e, orders[i]);
        AmountWithMatch(orders, rest, e, user, i);
      } else {
        AmountWithoutMatch(orders, rest, e, user);
      }
    }
  }

  lemma {:induction false} NoRowsNoAmount(orders: seq<Order>, user: nat)
    ensures OrdersAmount(orders, [], user) == 0
  {
    if orders == [] {
    } else {
      NoRowsNoAmount(orders[..|orders| - 1], user);
    }
  }

  /** An order's rows are whole charges and refunds of it. */
  lemma {:induction false} RowsOfOrder(l: seq<Entry>, o: Order)
    requires forall k | 0 <= k < |l| && l[k].reference == OrderRef(o.number) :: RowFits(l[k], o)
    ensures Total(l, OrderAmount(o.number))
            == Total(l, RefundAmount(o.number)) - Total(l, Purchases(o.number)) * o.total
  {
    hide OrderRef;
    if l == [] {
    } else {
      RowsOfOrder(l[..|l| - 1], o);
    }
  }

  lemma RowsFitOrder(orders: seq<Order>, l: seq<Entry>, i: nat)
    requires RowsAttributed(orders, l) && KeysUnique(orders) && i < |orders|
    ensures forall k | 0 <= k < |l| && l[k].reference == OrderRef(orders[i].number) :: RowFits(l[k], orders[i])
  {
  }

  lemma {:induction false} AmountIsCost(db: Db, n: nat, user: nat)
    requires Inv(db) && n <= |db.orders|
    ensures OrdersAmount(db.orders[..n], db.ledger, user) == -OrdersCost(db.orders[..n], db.ledger, user)
  {
    hide LedgerOk, RowsAttributed, KeysUnique, PaymentsOk;
    if n == 0 {
    } else {
      assert db.orders[..n][..n - 1] == db.orders[..n - 1];
      AmountIsCost(db, n - 1, user);
      assert OrderOk(db.orders[n - 1], n, db.refunds, db.ledger);
      RowsFitOrder(db.orders, db.ledger, n - 1);
      RowsOfOrder(db.ledger, db.orders[n - 1]);
    }
  }

  /** A wallet holds what came in from outside less what its owner's orders have cost. */
  lemma WalletBalances(db: Db, user: nat)
    requires Inv(db)
    ensures BalanceOf(db, user) == Total(db.ledger, OutsideAmount(user)) - OrdersCost(db.orders, db.ledger, user)
  {
    hide LedgerOk, RowsAttributed, KeysUnique, PaymentsOk, OrdersOk;
    BalanceIsLedgerSum(db, user);
    RowsPartition(db.orders, db.ledger, user);
    AmountIsCost(db, |db.orders|, user);
    assert db.orders[..|db.orders|] == db.orders;
  }

  // ---------- the theorems ----------

  /** Every interleaved run conserves money, for every user. */
  lemma RunConservesMoney(steps: seq<Step>, user: nat)
    requires AllAssumed(steps)
    ensures var db := Run(START, steps).db;
            BalanceOf(db, user) == Total(db.ledger, OutsideAmount(user)) - OrdersCost(db.orders, db.ledger, user)
  {
    EveryRunKeeps(steps);
    hide Inv, Run;
    WalletBalances(Run(START, steps).db, user);
  }

  /** In every interleaved run an order never pays back more than it took, and all three records of a refund agree. */
  lemma RunNeverOverpays(steps: seq<Step>, i: nat)
    requires AllAssumed(steps) && i < |Run(START, steps).db.orders|
    ensures var db := Run(START, steps).db;
            var o := db.orders[i];
            && 0 <= o.refunded <= o.total
            && o.refunded == RefundSum(db.refunds, i + 1) == Total(db.ledger, RefundAmount(o.number))
            && Total(db.ledger, RefundAmount(o.number)) <= Total(db.ledger, Purchases(o.number)) * o.total
  {
    EveryRunKeeps(steps);
    hide Run, Inv, Total, RefundSum;
    OrderIsNeverOverpaid(Run(START, steps).db, i);
  }

  lemma OrderIsNeverOverpaid(db: Db, i: nat)
    requires Inv(db) && i < |db.orders|
    ensures var o := db.orders[i];
            && 0 <= o.refunded <= o.total
            && o.refunded == RefundSum(db.refunds, i + 1) == Total(db.ledger, RefundAmount(o.number))
            && o.refunded <= Total(db.ledger, Purchases(o.number)) * o.total
  {
    hide LedgerOk, RowsAttributed, KeysUnique, PaymentsOk, OrderOk, Total, RefundSum;
    assert OrderOk(db.orders[i], i + 1, db.refunds, db.ledger);
    NeverOverpaid(db.orders[i], i + 1, db.refunds, db.ledger);
  }

  lemma NeverOverpaid(o: Order, id: nat, refunds: seq<RefundRow>, l: seq<Entry>)
    requires OrderOk(o, id, refunds, l)
    ensures 0 <= o.refunded <= o.total && o.refunded == RefundSum(refunds, id) == Total(l, RefundAmount(o.number))
    ensures var charges := Total(l, Purchases(o.number)); o.refunded <= charges * o.total
  {
    hide StatusOk, Total, RefundSum, PaysFromBalance;
    CountsAreOrdered(l, o.number);
    if o.refunded > 0 { ProductAtLeast(Total(l, Purchases(o.number)), o.total); }
  }

  lemma ProductAtLeast(charges: int, total: int)
    requires 1 <= charges && 0 <= total
    ensures total <= charges * total
  {
  }

  /** In every interleaved run each order's status is borne out by its other columns and its ledger rows. */
  lemma RunKeepsStatusesCoherent(steps: seq<Step>, i: nat)
    requires AllAssumed(steps) && i < |Run(START, steps).db.orders|
    ensures var db := Run(START, steps).db;
            var o := db.orders[i];
            && (o.status == PartiallyRefunded ==> 0 < o.refunded < o.total)
            && (o.status == Tables.Refunded ==> o.refunded == o.total)
            && (o.status in {Paid, PartiallyRefunded, Tables.Refunded} ==> o.paidAt.Some?)
            && (o.status == Cancelled ==> o.cancelledAt.Some?)
            && (o.status == PendingPayment ==>
                  && o.payMethod == EXTERNAL && o.payStatus == PayPending && o.refunded == 0
                  && forall k | 0 <= k < |db.ledger| :: db.ledger[k].reference != OrderRef(o.number))
  {
    EveryRunKeeps(steps);
    var db := Run(START, steps).db;
    hide Run, LedgerOk, RowsAttributed, KeysUnique, PaymentsOk;
    assert OrderOk(db.orders[i], i + 1, db.refunds, db.ledger);
    if db.orders[i].status == PendingPayment {
      NoRowsWhenCountIsZero(db.ledger, db.orders[i].number);
    }
  }

  lemma {:induction false} NoRowsWhenCountIsZero(l: seq<Entry>, n: string)
    requires Total(l, OrderRows(n)) == 0
    ensures forall k | 0 <= k < |l| :: l[k].reference != OrderRef(n)
  {
    hide OrderRef;
    if l == [] {
    } else {
      CountsAreOrdered(l[..|l| - 1], n);
      NoRowsWhenCountIsZero(l[..|l| - 1], n);
    }
  }

  /** In every interleaved run the ledger is an exact account: sums, stored balance and last row agree. */
  lemma RunKeepsLedgerExact(steps: seq<Step>, user: nat, p: nat)
    requires AllAssumed(steps) && p <= |Run(START, steps).db.ledger|
    ensures var db := Run(START, steps).db;
            && 0 <= Total(db.ledger[..p], UserAmount(user)) <= MAX_INT64
            && (p > 0 && db.ledger[p - 1].user == user ==>
                  db.ledger[p - 1].after == Total(db.ledger[..p], UserAmount(user)))
            && BalanceOf(db, user) == Total(db.ledger, UserAmount(user))
            && (user in db.wallets ==> WalletOk(db.wallets[user], user, db.ledger))
  {
    EveryRunKeeps(steps);
    var db := Run(START, steps).db;
    hide Run, WalletOk;
    EveryPrefixIsSolvent(db, user, p);
    BalanceIsLedgerSum(db, user);
    if p > 0 { assert RowOk(db.ledger, p - 1); }
  }

  /** Exactly-once creation: over every interleaving, one key of one user names one order, debited at most once. */
  lemma RunCreatesOncePerKey(steps: seq<Step>, user: nat, key: string)
    requires AllAssumed(steps)
    ensures var w := Run(START, steps);
            && (forall i, j | 0 <= i < |w.db.orders| && 0 <= j < |w.db.orders|
                              && w.db.orders[i].user == w.db.orders[j].user == user
                              && w.db.orders[i].key == w.db.orders[j].key == Some(key) :: i == j)
            && (forall j, k | 0 <= j < |w.log| && 0 <= k < |w.log|
                              && Makes(w.log[j], user, key) && Makes(w.log[k], user, key) :: j == k)
            && (forall j, k | 0 <= j < |w.log| && 0 <= k < |w.log|
                              && Names(w.log[j], user, key) && Names(w.log[k], user, key) :: w.log[j].id == w.log[k].id)
            && (forall k | 0 <= k < |w.log| && Makes(w.log[k], user, key) ::
                  && HasOrder(w.db, w.log[k].id)
                  && w.log[k].debit == if w.log[k].fromBalance then w.db.orders[w.log[k].id - 1].total as int else 0)
  {
    EveryRunKeeps(steps);
    var w := Run(START, steps);
    hide Run, LedgerOk, RowsAttributed, PaymentsOk, OrdersOk, FlightOk;
    forall j, k | 0 <= j < |w.log| && 0 <= k < |w.log| && Names(w.log[j], user, key) && Names(w.log[k], user, key)
      ensures w.log[j].id == w.log[k].id
    {
      assert EventOk(w.db, w.log[j]) && EventOk(w.db, w.log[k]);
    }
    forall k | 0 <= k < |w.log| && Makes(w.log[k], user, key)
      ensures HasOrder(w.db, w.log[k].id)
      ensures w.log[k].debit == if w.log[k].fromBalance then w.db.orders[w.log[k].id - 1].total as int else 0
    {
      assert EventOk(w.db, w.log[k]);
    }
  }

  /** A transaction that committed an order under a user's key. */
  predicate Makes(e: Event, user: nat, key: string) { e.Created? && e.user == user && e.key == Some(key) }

  /** A commit or a successful answer under a user's key. */
  predicate Names(e: Event, user: nat, key: string) {
    Makes(e, user, key) || (e.Answered? && e.user == user && e.asked == key)
  }

  /** A create that loses, to a conflict or for want of funds, leaves every table as it found it. */
  lemma LosingCreateIsHarmless(db: Db, d: Draft)
    requires Inv(db) && 0 <= d.total
    requires CommitCreate(db, d).1.Err?
    ensures CommitCreate(db, d).0 == db
    ensures d.key.Some? && CommitCreate(db, d).1.error == Conflict
              && (forall i | 0 <= i < |db.orders| :: db.orders[i].number != d.number)
            ==> Recover(db, d).Ok?
  {
    hide Inv, CurrencyFor, Accepts, OrderRef;
  }

  /**
    The loser of a race for one key looks it up again, however much later, and finds the very
    order that won: the one that carries the key, and the only one.
   */
  lemma LoserRecoversWinner(db: Db, d: Draft, later: Db, id: nat)
    requires Inv(db) && 0 <= d.total && d.key.Some?
    requires CommitCreate(db, d).1 == Err(Conflict) && !NumberTaken(db.orders, d.number)
    requires Inv(later) && Extends(db, later)
    ensures Recover(later, d) == Ok(id) <==>
              HasOrder(later, id) && later.orders[id - 1].user == d.user && later.orders[id - 1].key == d.key
    ensures Recover(later, d) == Recover(db, d)
  {
    hide LedgerOk, RowsAttributed, PaymentsOk, OrdersOk, CurrencyFor, Accepts, OrderRef, FindKey, NumberTaken;
    var key := d.key.value;
    var won := FindKey(db.orders, d.user, key);
    assert won.Some?;
    assert OrderGrows(db.orders[won.value - 1], later.orders[won.value - 1]);
    assert FindKey(later.orders, d.user, key).Some?;
  }
}

/** What every transaction keeps true of the tables, and what it never takes back. */
module Invariants {
  import opened Options
  import opened Text
  import opened Tables
  import opened Ledger
  import opened Billing

  /** A ledger row that names an order belongs to that order's user and is its debit or a credit of it. */
  predicate RowFits(e: Entry, o: Order) {
    && e.user == o.user
    && ((e.kind == PURCHASE && o.total > 0 && e.amount == -o.total) || (e.kind == REFUND && e.amount > 0))
  }

  ghost predicate RowAttributed(orders: seq<Order>, e: Entry) {
    exists i :: 0 <= i < |orders| && e.reference == OrderRef(orders[i].number) && RowFits(e, orders[i])
  }

  ghost predicate RowsAttributed(orders: seq<Order>, l: seq<Entry>) {
    forall k | 0 <= k < |l| && IsOrderRef(l[k].reference) :: RowAttributed(orders, l[k])
  }

  /** The two unique indexes of the orders table. */
  ghost predicate KeysUnique(orders: seq<Order>) {
    && (forall i, j | 0 <= i < j < |orders| :: orders[i].number != orders[j].number)
    && (forall i, j | 0 <= i < j < |orders| ::
          orders[i].user == orders[j].user && orders[i].key.Some? ==> orders[i].key != orders[j].key)
  }

  /** Each payment row belongs to one existing order, and no order has two. */
  ghost predicate PaymentsOk(orders: seq<Order>, payments: seq<Payment>) {
    && (forall p | 0 <= p < |payments| ::
          1 <= payments[p].order <= |orders| && payments[p].amount == orders[payments[p].order - 1].total)
    && (forall p, q | 0 <= p < q < |payments| :: payments[p].order != payments[q].order)
  }

  /** The refunded column agrees with the refund rows and with the ledger, and money back needs money in. */
  ghost predicate MoneyOk(o: Order, id: nat, refunds: seq<RefundRow>, ledger: seq<Entry>) {
    && 0 <= o.refunded <= o.total
    && o.refunded == RefundSum(refunds, id)
    && o.refunded == Total(ledger, RefundAmount(o.number))
    && (o.refunded > 0 || (PaysFromBalance(o) && o.total > 0) ==> Total(ledger, Purchases(o.number)) >= 1)
  }

  /** Each status says what the other columns must hold. */
  ghost predicate StatusOk(o: Order, ledger: seq<Entry>) {
    && (o.status == PartiallyRefunded ==> 0 < o.refunded < o.total)
    && (o.status == Tables.Refunded ==> o.refunded == o.total)
    && (o.status == Cancelled ==> o.cancelledAt.Some?)
    && (o.status in {Paid, PartiallyRefunded, Tables.Refunded} || PaysFromBalance(o) ==> o.paidAt.Some?)
    && (o.status == PendingPayment ==>
          && o.payMethod == EXTERNAL
          && o.payStatus == PayPending
          && o.refunded == 0
          && Total(ledger, OrderRows(o.number)) == 0)
  }

  ghost predicate OrderOk(o: Order, id: nat, refunds: seq<RefundRow>, ledger: seq<Entry>) {
    MoneyOk(o, id, refunds, ledger) && StatusOk(o, ledger)
  }

  ghost predicate OrdersOk(orders: seq<Order>, refunds: seq<RefundRow>, l: seq<Entry>) {
    forall i | 0 <= i < |orders| :: OrderOk(orders[i], i + 1, refunds, l)
  }

  ghost predicate Inv(db: Db) {
    && LedgerOk(db.wallets, db.ledger)
    && RowsAttributed(db.orders, db.ledger)
    && KeysUnique(db.orders)
    && PaymentsOk(db.orders, db.payments)
    && (forall k | 0 <= k < |db.refunds| :: 1 <= db.refunds[k].order <= |db.orders| && db.refunds[k].amount > 0)
    && OrdersOk(db.orders, db.refunds, db.ledger)
  }

  // ---------- what no transaction takes back ----------

  /** Columns no update touches. */
  predicate SameIdentity(a: Order, b: Order) {
    a.number == b.number && a.user == b.user && a.key == b.key && a.total == b.total && a.currency == b.currency
  }

  predicate OrderGrows(a: Order, b: Order) {
    && SameIdentity(a, b)
    && a.refunded <= b.refunded
    && (a.paidAt.Some? ==> b.paidAt.Some?)
    && (a.status != PendingPayment ==> b.status != PendingPayment)
  }

  /** Tables only grow; orders keep their identity; the ledger is append-only. */
  ghost predicate Extends(a: Db, b: Db) {
    && |a.orders| <= |b.orders|
    && (forall i | 0 <= i < |a.orders| :: OrderGrows(a.orders[i], b.orders[i]))
    && |a.payments| <= |b.payments|
    && (forall p | 0 <= p < |a.payments| :: a.payments[p].order == b.payments[p].order)
    && a.refunds <= b.refunds
    && a.ledger <= b.ledger
  }

  /** Row counts never fall as the ledger grows. */
  lemma {:induction false} CountGrows(l: seq<Entry>, l': seq<Entry>, n: string)
    requires l <= l'
    ensures Total(l, Purchases(n)) <= Total(l', Purchases(n))
    decreases |l'|
  {
    if l != l' {
      CountGrows(l, l'[..|l'| - 1], n);
    }
  }

  // ---------- posting a movement ----------

  /** A row that names another order, or none, leaves an order's totals alone. */
  lemma ForeignRow(l: seq<Entry>, e: Entry, n: string)
    requires e.reference != OrderRef(n)
    ensures Total(l + [e], RefundAmount(n)) == Total(l, RefundAmount(n))
    ensures Total(l + [e], Purchases(n)) == Total(l, Purchases(n))
    ensures Total(l + [e], OrderRows(n)) == Total(l, OrderRows(n))
  {
  }

  /** A purchase row adds one to its order's count and nothing to its refunds. */
  lemma PurchaseRow(l: seq<Entry>, e: Entry, n: string)
    requires e.reference == OrderRef(n) && e.kind == PURCHASE
    ensures Total(l + [e], RefundAmount(n)) == Total(l, RefundAmount(n))
    ensures Total(l + [e], Purchases(n)) == Total(l, Purchases(n)) + 1
  {
  }

  lemma RefundedRow(l: seq<Entry>, e: Entry, n: string)
    requires e.reference == OrderRef(n) && e.kind == REFUND
    ensures Total(l + [e], RefundAmount(n)) == Total(l, RefundAmount(n)) + e.amount
    ensures Total(l + [e], Purchases(n)) == Total(l, Purchases(n))
  {
  }

  /** An order no ledger row names has neither been charged nor refunded. */
  lemma FreshNumber(db: Db, n: string)
    requires RowsAttributed(db.orders, db.ledger)
    requires forall i | 0 <= i < |db.orders| :: db.orders[i].number != n
    ensures Total(db.ledger, RefundAmount(n)) == Total(db.ledger, OrderRows(n)) == Total(db.ledger, Purchases(n)) == 0
  {
    forall k | 0 <= k < |db.ledger| ensures db.ledger[k].reference != OrderRef(n) {
      if IsOrderRef(db.ledger[k].reference) {
        assert RowAttributed(db.orders, db.ledger[k]);
      }
    }
    TotalOfNone(db.ledger, RefundAmount(n));
    TotalOfNone(db.ledger, OrderRows(n));
    TotalOfNone(db.ledger, Purchases(n));
  }
}

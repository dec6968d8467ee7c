/**
  Every transaction, run on whatever the tables have become since its request's read, keeps
  the invariant.  What a flight remembers stays good enough for that, because no
  transaction takes it back.
 */
module Transactions {
  import opened Options
  import opened Text
  import opened Tables
  import opened Ledger
  import opened Billing
  import opened Invariants

  /** What a flight's snapshot still guarantees about the present tables. */
  ghost predicate FlightOk(db: Db, f: Flight) {
    match f
    case Creating(d) => 0 <= d.total
    case Recovering(d) => d.key.Some?
    case Marking(m, snap) =>
      && HasOrder(db, m.id)
      && SameIdentity(snap, db.orders[m.id - 1])
      && Tidy(m.payMethod)
      && (EqualFold(m.payMethod, BALANCE) ==> m.charge)
    case Refunding(c, snap) =>
      && HasOrder(db, c.id)
      && SameIdentity(snap, db.orders[c.id - 1])
      && 0 < c.amount
      && db.orders[c.id - 1].paidAt.Some?
      && Total(db.ledger, Purchases(snap.number)) >= 1
    case Calling(n) =>
      && HasOrder(db, n.id)
      && HasPayment(db, n.paymentId)
      && db.payments[n.paymentId - 1].order == n.id
      && n.status != PayPending
    case Cancelling(id, _) => HasOrder(db, id)
    case Adjusting(_, m) => !IsOrderRef(m.reference)
  }

  /** A read leaves a flight whose snapshot is good. */
  lemma ReadIsOk(db: Db, req: Request)
    requires Inv(db) && Assumed(req)
    requires Read(db, req).Continue?
    ensures FlightOk(db, Read(db, req).flight)
  {
    hide EqualFold, TrimSpace, CallbackStatus, CreateMethod, Channel, NonBlank, LedgerOk, RowsAttributed, KeysUnique,
      PaymentsOk;
    if req.Refund? {
      assert OrderOk(db.orders[req.refund.id - 1], req.refund.id, db.refunds, db.ledger);
    }
  }

  /** No later transaction spoils a flight's snapshot. */
  lemma FlightStaysOk(db: Db, db': Db, f: Flight)
    requires FlightOk(db, f) && Extends(db, db')
    ensures FlightOk(db', f)
  {
    hide EqualFold;
    if f.Refunding? {
      CountGrows(db.ledger, db'.ledger, f.snap.number);
    }
  }

  // ---------- shared steps ----------

  lemma RowsStayAttributed(orders: seq<Order>, l: seq<Entry>, orders': seq<Order>, l': seq<Entry>)
    requires RowsAttributed(orders, l)
    requires |orders| <= |orders'| && forall i | 0 <= i < |orders| :: SameIdentity(orders[i], orders'[i])
    requires l <= l'
    requires forall k | |l| <= k < |l'| && IsOrderRef(l'[k].reference) :: RowAttributed(orders', l'[k])
    ensures RowsAttributed(orders', l')
  {
  }

  /** The shape of a transaction on one order: at most one ledger row and one refund row, both its own. */
  ghost predicate ChangesOnly(db: Db, db': Db, id: nat) {
    && HasOrder(db, id)
    && |db'.orders| == |db.orders|
    && db'.orders == db.orders[id - 1 := db'.orders[id - 1]]
    && OrderGrows(db.orders[id - 1], db'.orders[id - 1])
    && |db'.payments| == |db.payments|
    && (forall p | 0 <= p < |db.payments| ::
          db'.payments[p].order == db.payments[p].order && db'.payments[p].amount == db.payments[p].amount)
    && (db'.refunds == db.refunds
        || exists r: RefundRow :: db'.refunds == db.refunds + [r] && r.order == id && r.amount > 0)
    && (db'.ledger == db.ledger || exists e: Entry ::
          && db'.ledger == db.ledger + [e]
          && e.reference == OrderRef(db.orders[id - 1].number)
          && RowFits(e, db.orders[id - 1]))
  }

  /** Such a transaction keeps the invariant once it keeps the wallets and its own order in order. */
  lemma OneOrderChanged(db: Db, db': Db, id: nat)
    requires Inv(db) && ChangesOnly(db, db', id)
    requires LedgerOk(db'.wallets, db'.ledger)
    requires OrderOk(db'.orders[id - 1], id, db'.refunds, db'.ledger)
    ensures Inv(db') && Extends(db, db')
  {
    hide LedgerOk, RowsAttributed, OrdersOk, OrderOk, OrderRef, IsOrderRef;
    OneOrderKeepsRows(db, db', id);
    OneOrderKeepsOrders(db, db', id);
  }

  lemma OneOrderKeepsRows(db: Db, db': Db, id: nat)
    requires RowsAttributed(db.orders, db.ledger) && ChangesOnly(db, db', id)
    ensures RowsAttributed(db'.orders, db'.ledger)
  {
    hide OrderRef, IsOrderRef;
    if db'.ledger != db.ledger {
      assert RowFits(db'.ledger[|db.ledger|], db'.orders[id - 1]);
    }
    RowsStayAttributed(db.orders, db.ledger, db'.orders, db'.ledger);
  }

  lemma OneOrderKeepsOrders(db: Db, db': Db, id: nat)
    requires OrdersOk(db.orders, db.refunds, db.ledger) && KeysUnique(db.orders) && ChangesOnly(db, db', id)
    requires OrderOk(db'.orders[id - 1], id, db'.refunds, db'.ledger)
    ensures OrdersOk(db'.orders, db'.refunds, db'.ledger)
  {
    hide OrderOk, OrderRef;
    forall i | 0 <= i < |db'.orders| ensures OrderOk(db'.orders[i], i + 1, db'.refunds, db'.ledger) {
      if i != id - 1 {
        assert OrderOk(db.orders[i], i + 1, db.refunds, db.ledger);
        assert db.orders[i].number != db.orders[id - 1].number;
        OtherOrderKept(db, db', id, i);
      }
    }
  }

  lemma OtherOrderKept(db: Db, db': Db, id: nat, i: nat)
    requires ChangesOnly(db, db', id)
    requires i < |db.orders| && i != id - 1 && db.orders[i].number != db.orders[id - 1].number
    requires OrderOk(db.orders[i], i + 1, db.refunds, db.ledger)
    ensures OrderOk(db.orders[i], i + 1, db'.refunds, db'.ledger)
  {
    hide EqualFold;
    if db'.ledger != db.ledger {
      var e := db'.ledger[|db.ledger|];
      assert db'.ledger == db.ledger + [e];
      ForeignRow(db.ledger, e, db.orders[i].number);
    }
    if db'.refunds != db.refunds {
      var r := db'.refunds[|db.refunds|];
      assert db'.refunds == db.refunds + [r];
      RefundSumAppend(db.refunds, r, i + 1);
    }
  }

  // ---------- the transactions ----------

  lemma AdjustKeeps(db: Db, user: nat, m: Movement)
    requires Inv(db) && !IsOrderRef(m.reference)
    ensures Inv(Post(db, user, m).0) && Extends(db, Post(db, user, m).0)
  {
    hide LedgerOk, RowsAttributed, KeysUnique, PaymentsOk, OrdersOk;
    PostKeepsLedger(db, user, m);
    if Accepts(db, user, m) {
      OutsideRowKeeps(db, Append(db, RowFor(db, user, m)));
    } else {
      ExtendsItself(db);
    }
  }

  lemma ExtendsItself(db: Db)
    ensures Extends(db, db)
  {
  }

  lemma OutsideRowKeeps(db: Db, db': Db)
    requires Inv(db) && LedgerOk(db'.wallets, db'.ledger)
    requires |db'.ledger| == |db.ledger| + 1 && !IsOrderRef(db'.ledger[|db.ledger|].reference)
    requires db == db'.(ledger := db'.ledger[..|db.ledger|], wallets := db.wallets)
    ensures Inv(db') && Extends(db, db')
  {
    hide LedgerOk, IsOrderRef, OrderOk;
    var row := db'.ledger[|db.ledger|];
    assert db'.ledger == db.ledger + [row];
    RowsStayAttributed(db.orders, db.ledger, db.orders, db'.ledger);
    forall i | 0 <= i < |db.orders| ensures OrderOk(db.orders[i], i + 1, db.refunds, db'.ledger) {
      assert OrderOk(db.orders[i], i + 1, db.refunds, db.ledger);
      ForeignRowKeeps(db.orders[i], i + 1, db.refunds, db.ledger, row);
    }
  }

  lemma ForeignRowKeeps(o: Order, id: nat, refunds: seq<RefundRow>, l: seq<Entry>, e: Entry)
    requires OrderOk(o, id, refunds, l) && e.reference != OrderRef(o.number)
    ensures OrderOk(o, id, refunds, l + [e])
  {
    hide EqualFold;
    ForeignRow(l, e, o.number);
  }

  lemma CancelKeeps(db: Db, id: nat, at: int)
    requires Inv(db) && HasOrder(db, id)
    ensures var db' := CommitCancel(db, id, at).0; Inv(db') && Extends(db, db') && ChangesOnly(db, db', id)
  {
    hide LedgerOk, OrderOk;
    var db' := CommitCancel(db, id, at).0;
    assert OrderOk(db.orders[id - 1], id, db.refunds, db.ledger);
    CancelledIsOk(db.orders[id - 1], at, id, db.refunds, db.ledger);
    OneOrderChanged(db, db', id);
  }

  lemma CancelledIsOk(o: Order, at: int, id: nat, refunds: seq<RefundRow>, l: seq<Entry>)
    requires OrderOk(o, id, refunds, l)
    ensures OrderOk(CancelledOrder(o, at), id, refunds, l) && OrderGrows(o, CancelledOrder(o, at))
  {
  }

  lemma CallbackKeeps(db: Db, n: Notice)
    requires Inv(db) && FlightOk(db, Calling(n))
    ensures var db' := CommitCallback(db, n).0; Inv(db') && Extends(db, db') && ChangesOnly(db, db', n.id)
  {
    hide LedgerOk, OrderOk, Written, CalledOrder;
    var db' := CommitCallback(db, n).0;
    assert OrderOk(db.orders[n.id - 1], n.id, db.refunds, db.ledger);
    CalledIsOk(db.orders[n.id - 1], n, n.id, db.refunds, db.ledger);
    OneOrderChanged(db, db', n.id);
  }

  lemma CalledIsOk(o: Order, n: Notice, id: nat, refunds: seq<RefundRow>, l: seq<Entry>)
    requires OrderOk(o, id, refunds, l) && n.status != PayPending
    ensures OrderOk(CalledOrder(o, n), id, refunds, l) && OrderGrows(o, CalledOrder(o, n))
  {
  }

  lemma MarkPaidKeeps(db: Db, m: Mark, snap: Order)
    requires Inv(db) && FlightOk(db, Marking(m, snap))
    ensures var (db', r) := CommitMarkPaid(db, m, snap);
            Inv(db') && Extends(db, db') && (r.Ok? ==> ChangesOnly(db, db', m.id))
  {
    hide LedgerOk, OrderOk, MarkedPaid, OrderRef, EqualFold, ChargeFor;
    var (db', r) := CommitMarkPaid(db, m, snap);
    var o := db.orders[m.id - 1];
    assert OrderOk(o, m.id, db.refunds, db.ledger);
    assert 0 <= o.total by { TotalIsNonNegative(o, m.id, db.refunds, db.ledger); }
    if r.Err? {
      ExtendsItself(db);
    } else if Charges(m, snap) {
      var row := RowFor(db, snap.user, ChargeFor(snap));
      assert row.kind == PURCHASE && row.amount == -o.total && row.reference == OrderRef(o.number) by {
        ChargeIsForOrder(snap);
      }
      PostKeepsLedger(db, snap.user, ChargeFor(snap));
      ChargedIsOk(o, m, m.id, db.refunds, db.ledger, row);
      OneOrderChanged(db, db', m.id);
    } else {
      MarkedIsOk(o, m, m.id, db.refunds, db.ledger);
      OneOrderChanged(db, db', m.id);
    }
  }

  lemma ChargeIsForOrder(snap: Order)
    requires 0 <= snap.total
    ensures var m := ChargeFor(snap);
            m.kind == PURCHASE && m.amount == -snap.total && m.reference == OrderRef(snap.number)
  {
  }

  lemma TotalIsNonNegative(o: Order, id: nat, refunds: seq<RefundRow>, l: seq<Entry>)
    requires OrderOk(o, id, refunds, l)
    ensures 0 <= o.refunded <= o.total
  {
  }

  /** Marked paid without a charge: the method then names something other than the wallet. */
  lemma MarkedIsOk(o: Order, m: Mark, id: nat, refunds: seq<RefundRow>, l: seq<Entry>)
    requires OrderOk(o, id, refunds, l)
    requires EqualFold(m.payMethod, BALANCE) ==> o.total == 0
    ensures OrderOk(MarkedPaid(o, m), id, refunds, l) && OrderGrows(o, MarkedPaid(o, m))
  {
  }

  /** Marked paid with a charge: the purchase row is there before the method says so. */
  lemma ChargedIsOk(o: Order, m: Mark, id: nat, refunds: seq<RefundRow>, l: seq<Entry>, row: Entry)
    requires OrderOk(o, id, refunds, l)
    requires row.kind == PURCHASE && row.reference == OrderRef(o.number)
    ensures OrderOk(MarkedPaid(o, m), id, refunds, l + [row]) && OrderGrows(o, MarkedPaid(o, m))
  {
    hide ToLower, Written, OrderRef;
    PurchaseRow(l, row, o.number);
    CountGrows([], l, o.number);
  }

  lemma RefundKeeps(db: Db, c: Credit, snap: Order)
    requires Inv(db) && FlightOk(db, Refunding(c, snap)) && Launched(db, Refunding(c, snap))
    ensures var (db', r) := CommitRefund(db, c, snap);
            Inv(db') && Extends(db, db') && (r.Ok? ==> ChangesOnly(db, db', c.id))
  {
    hide LedgerOk, OrderOk, RefundedOrder, OrderRef;
    var (db', r) := CommitRefund(db, c, snap);
    var o := db.orders[c.id - 1];
    assert OrderOk(o, c.id, db.refunds, db.ledger);
    if r.Err? {
      ExtendsItself(db);
    } else {
      var row := RowFor(db, snap.user, CreditFor(c, snap));
      PostKeepsLedger(db, snap.user, CreditFor(c, snap));
      var refund := RefundRow(c.id, c.amount, OrderRef(snap.number));
      RefundedIsOk(o, c, snap, db.refunds, refund, db.ledger, row);
      OneOrderChanged(db, db', c.id);
    }
  }

  /** A refund moves the column, the refund rows and the ledger by one and the same amount. */
  lemma RefundedIsOk(o: Order, c: Credit, snap: Order, refunds: seq<RefundRow>, r: RefundRow, l: seq<Entry>, row: Entry)
    requires OrderOk(o, c.id, refunds, l) && SameIdentity(snap, o)
    requires 0 < c.amount && Refundable(o, c.amount) && 0 <= o.refunded <= o.total
    requires o.paidAt.Some? && Total(l, Purchases(o.number)) >= 1
    requires r.order == c.id && r.amount == c.amount
    requires row.kind == REFUND && row.reference == OrderRef(o.number) && row.amount == c.amount
    ensures OrderOk(RefundedOrder(o, c, snap), c.id, refunds + [r], l + [row])
    ensures OrderGrows(o, RefundedOrder(o, c, snap))
  {
    hide EqualFold, OrderRef;
    RefundedRow(l, row, o.number);
    RefundSumAppend(refunds, r, c.id);
  }

  /** An insert that met no conflict keeps both unique indexes. */
  lemma InsertKeepsKeys(orders: seq<Order>, o: Order)
    requires KeysUnique(orders) && !Conflicts(orders, o)
    ensures KeysUnique(orders + [o])
  {
  }

  lemma InsertKeepsPayments(db: Db, d: Draft, o: Order)
    requires PaymentsOk(db.orders, db.payments) && o.total == d.total
    ensures var db' := Insert(db, d, o); PaymentsOk(db'.orders, db'.payments)
  {
  }

  /** A new order starts coherent, with exactly the purchase row it was created with. */
  lemma NewOrderIsOk(db: Db, d: Draft, l: seq<Entry>)
    requires 0 <= d.total && RowsAttributed(db.orders, db.ledger)
    requires forall i | 0 <= i < |db.orders| :: db.orders[i].number != d.number
    requires forall k | 0 <= k < |db.refunds| :: db.refunds[k].order <= |db.orders|
    requires if DebitsNow(d)
             then |l| == |db.ledger| + 1 && l[..|db.ledger|] == db.ledger
                  && l[|db.ledger|].kind == PURCHASE && l[|db.ledger|].reference == OrderRef(d.number)
             else l == db.ledger
    ensures OrderOk(NewOrder(db, d), |db.orders| + 1, db.refunds, l)
  {
    hide CurrencyFor, OrderRef;
    FreshNumber(db, d.number);
    RefundSumOfNone(db.refunds, |db.orders| + 1);
    if DebitsNow(d) {
      assert l == db.ledger + [l[|db.ledger|]];
      PurchaseRow(db.ledger, l[|db.ledger|], d.number);
    }
    assert d.fromBalance || !EqualFold(EXTERNAL, BALANCE) by { ExternalIsNotBalance(); }
  }

  lemma ExternalIsNotBalance()
    ensures !EqualFold(EXTERNAL, BALANCE)
  {
  }

  lemma CreateKeeps(db: Db, d: Draft)
    requires Inv(db) && 0 <= d.total
    ensures var db' := CommitCreate(db, d).0; Inv(db') && Extends(db, db')
  {
    hide LedgerOk, OrderOk, OrderRef, IsOrderRef, CurrencyFor, NewOrder, KeysUnique, PaymentsOk, Conflicts;
    var (db', r) := CommitCreate(db, d);
    var o := NewOrder(db, d);
    if r.Err? {
      ExtendsItself(db);
    } else {
      assert o.number == d.number && o.user == d.user && o.total == d.total by { NewOrderFields(db, d); }
      if DebitsNow(d) { PostKeepsLedger(db, o.user, DebitFor(o)); }
      NewOrderKeepsRows(db, d, db');
      NewOrderKeepsOrders(db, d, db');
      InsertKeepsKeys(db.orders, o);
      InsertKeepsPayments(db, d, o);
    }
  }

  lemma NewOrderFields(db: Db, d: Draft)
    requires 0 <= d.total
    ensures var o := NewOrder(db, d);
            o.number == d.number && o.user == d.user && o.total == d.total && o.key == d.key
  {
  }

  lemma NewOrderKeepsRows(db: Db, d: Draft, db': Db)
    requires 0 <= d.total && RowsAttributed(db.orders, db.ledger)
    requires CommitCreate(db, d).1.Ok? && db' == CommitCreate(db, d).0
    ensures RowsAttributed(db'.orders, db'.ledger)
  {
    hide LedgerOk, OrderRef, IsOrderRef, CurrencyFor, Conflicts;
    if DebitsNow(d) {
      assert db'.orders[|db.orders|] == NewOrder(db, d);
      assert RowFits(db'.ledger[|db.ledger|], db'.orders[|db.orders|]);
    }
    RowsStayAttributed(db.orders, db.ledger, db'.orders, db'.ledger);
  }

  lemma NewOrderKeepsOrders(db: Db, d: Draft, db': Db)
    requires Inv(db) && 0 <= d.total
    requires CommitCreate(db, d).1.Ok? && db' == CommitCreate(db, d).0
    ensures OrdersOk(db'.orders, db'.refunds, db'.ledger)
  {
    hide LedgerOk, OrderOk, OrderRef, IsOrderRef, CurrencyFor, KeysUnique, PaymentsOk, RowsAttributed;
    var o := NewOrder(db, d);
    assert forall i | 0 <= i < |db.orders| :: db.orders[i].number != d.number;
    NewOrderIsOk(db, d, db'.ledger);
    forall i | 0 <= i < |db'.orders| ensures OrderOk(db'.orders[i], i + 1, db'.refunds, db'.ledger) {
      if i < |db.orders| {
        assert OrderOk(db.orders[i], i + 1, db.refunds, db.ledger);
        if DebitsNow(d) {
          ForeignRowKeeps(db.orders[i], i + 1, db.refunds, db.ledger, RowFor(db, o.user, DebitFor(o)));
        }
      }
    }
  }

  // ---------- any transaction ----------

  /** A sound flight can always be committed. */
  lemma FlightIsLaunched(db: Db, f: Flight)
    requires Inv(db) && FlightOk(db, f)
    ensures Launched(db, f)
  {
    hide EqualFold, LedgerOk, RowsAttributed, KeysUnique, PaymentsOk;
    if f.Refunding? {
      assert OrderOk(db.orders[f.credit.id - 1], f.credit.id, db.refunds, db.ledger);
    }
  }

  /** Whatever has happened since its read, a flight's transaction keeps the invariant and takes nothing back. */
  lemma CommitKeeps(db: Db, f: Flight)
    requires Inv(db) && FlightOk(db, f)
    ensures Launched(db, f)
    ensures var db' := Commit(db, f).0; Inv(db') && Extends(db, db')
    ensures Commit(db, f).1.Continue? ==> FlightOk(Commit(db, f).0, Commit(db, f).1.flight)
  {
    FlightIsLaunched(db, f);
    hide Inv, Extends, CommitCreate, CommitMarkPaid, CommitRefund, CommitCallback, CommitCancel, Post, EqualFold;
    match f
    case Creating(d) => CreateKeeps(db, d);
    case Recovering(d) => ExtendsItself(db);
    case Marking(m, snap) => MarkPaidKeeps(db, m, snap);
    case Refunding(c, snap) => RefundKeeps(db, c, snap);
    case Calling(n) => CallbackKeeps(db, n);
    case Cancelling(id, at) => CancelKeeps(db, id, at);
    case Adjusting(user, m) => AdjustKeeps(db, user, m);
  }
}

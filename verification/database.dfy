/**
  The repositories and the transactions over them, changing the tables step by step.
  A transaction that fails restores the snapshot it took when it began; an error inside a
  nested transaction makes the outer one fail too.  Every method is proved against its
  specification in Ledger or Billing.
 */
module Database {
  import opened Options
  import opened Text
  import opened Tables
  import opened Ledger
  import opened Billing

  /** Column values an update may carry; only the ones present are written. */
  datatype StatusParams = StatusParams(
    status: OrderStatus,
    payMethod: Option<string>,
    paidAt: Option<int>,
    cancelledAt: Option<int>)

  datatype StateParams = StateParams(
    payStatus: PayStatus,
    status: Option<OrderStatus>,
    reference: Option<string>,
    failureCode: Option<string>,
    failureMessage: Option<string>,
    paidAt: Option<int>)

  datatype PaymentParams = PaymentParams(
    status: PayStatus,
    reference: Option<string>,
    failureCode: Option<string>,
    failureMessage: Option<string>)

  /** Amounts in the tables are in the range every accepted request keeps them in. */
  predicate Sane(db: Db) {
    && (forall u | u in db.wallets :: 0 <= db.wallets[u].balance)
    && (forall i | 0 <= i < |db.orders| :: 0 <= db.orders[i].refunded <= db.orders[i].total)
  }

  /** The movement type a refund is recorded under. */
  function RefundKind(kind: string): string {
    var k := TrimSpace(ToLower(kind));
    if k == "" then REFUND else k
  }

  /** A blank type is a refund, any other itself, trimmed and lower-cased. */
  lemma RefundKindIs(kind: string)
    ensures RefundKind(kind) == if TrimSpace(kind) == "" then "refund" else ToLower(TrimSpace(kind))
  {
    hide TrimSpace, ToLower;
    TrimAndLowerCommute(kind);
    assert |ToLower(TrimSpace(kind))| == |TrimSpace(kind)|;
  }

  lemma RefundKindIsStable()
    ensures RefundKind(REFUND) == REFUND
  {
    hide TrimSpace;
    assert ToLower(REFUND) == REFUND;
  }

  class Store {
    var orders: seq<Order>
    var payments: seq<Payment>
    var refunds: seq<RefundRow>
    var wallets: map<nat, Wallet>
    var ledger: seq<Entry>

    function State(): Db
      reads this
    {
      Db(orders, payments, refunds, wallets, ledger)
    }

    ghost predicate Valid()
      reads this
    {
      Sane(State())
    }

    constructor ()
      ensures Valid() && State() == EMPTY_DB
    {
      orders, payments, refunds, wallets, ledger := [], [], [], map[], [];
    }

    /** Rolls every table back to a snapshot. */
    method Rollback(saved: Db)
      modifies this
      ensures State() == saved
    {
      orders, payments, refunds := saved.orders, saved.payments, saved.refunds;
      wallets, ledger := saved.wallets, saved.ledger;
    }

    // ---------- wallet ----------

    /** One nested transaction: make the wallet row if missing, test, append, update. */
    method ApplyTransaction(user: nat, m: Movement) returns (r: Result<nat>)
      requires Valid()
      modifies this
      ensures Valid()
      ensures (State(), r) == Post(old(State()), user, m)
    {
      if m.amount == 0 {
        return Err(InvalidArgument);
      }
      var saved := State();
      if user !in wallets {
        wallets := wallets[user := Wallet(0, if m.currency == "" then "CNY" else m.currency, 0)];
      }
      var wallet := wallets[user];
      var currency := wallet.currency;
      if currency == "" { currency := m.currency; }
      if currency == "" { currency := "CNY"; }

      var newBalance := Wrap64(wallet.balance + m.amount);
      if newBalance < 0 {
        SignTestIsExact(wallet.balance, m.amount);
        Rollback(saved);
        return Err(InsufficientBalance);
      }
      SignTestIsExact(wallet.balance, m.amount);
      ledger := ledger + [Entry(user, m.kind, m.amount, currency, newBalance, m.reference)];
      wallets := wallets[user := Wallet(newBalance, currency, |ledger|)];
      assert wallets == saved.wallets[user := Wallet(newBalance, currency, |ledger|)];
      assert currency == CurrencyOf(saved, user, m.currency);
      assert State() == Append(saved, RowFor(saved, user, m));
      r := Ok(|ledger|);
    }

    method RecordRefund(user: nat, m: Movement) returns (r: Result<nat>)
      requires Valid()
      modifies this
      ensures Valid()
      ensures m.amount <= 0 ==> r == Err(InvalidArgument) && State() == old(State())
      ensures m.amount > 0 ==>
                (State(), r) == Post(old(State()), user, m.(kind := RefundKind(m.kind)))
    {
      if m.amount <= 0 {
        return Err(InvalidArgument);
      }
      var kind := TrimSpace(ToLower(m.kind));
      TrimAndLowerCommute(m.kind);
      if kind == "" {
        kind := REFUND;
      } else {
        kind := ToLower(TrimSpace(m.kind));
      }
      r := ApplyTransaction(user, m.(kind := kind));
    }

    // ---------- orders ----------

    method InsertOrder(o: Order) returns (r: Result<nat>)
      requires Valid() && 0 <= o.refunded <= o.total
      modifies this`orders
      ensures Valid()
      ensures Conflicts(old(orders), o) ==> r == Err(Conflict) && orders == old(orders)
      ensures !Conflicts(old(orders), o) ==> r == Ok(|orders|) && orders == old(orders) + [o]
    {
      if Conflicts(orders, o) {
        return Err(Conflict);
      }
      orders := orders + [o];
      r := Ok(|orders|);
    }

    method CreatePayment(p: Payment) returns (r: Result<nat>)
      modifies this`payments
      ensures p.order == 0 ==> r == Err(InvalidArgument) && payments == old(payments)
      ensures p.order != 0 ==> r == Ok(|payments|) && payments == old(payments) + [p]
    {
      if p.order == 0 {
        return Err(InvalidArgument);
      }
      payments := payments + [p];
      r := Ok(|payments|);
    }

    method CreateRefund(row: RefundRow) returns (r: Result<nat>)
      modifies this`refunds
      ensures row.order == 0 || row.amount <= 0 ==> r == Err(InvalidArgument) && refunds == old(refunds)
      ensures row.order != 0 && row.amount > 0 ==> r == Ok(|refunds|) && refunds == old(refunds) + [row]
    {
      if row.order == 0 || row.amount <= 0 {
        return Err(InvalidArgument);
      }
      refunds := refunds + [row];
      r := Ok(|refunds|);
    }

    /** Writes the status and the columns given; money and identity columns are masked. */
    method UpdateStatus(id: nat, p: StatusParams) returns (r: Result<Order>)
      requires Valid()
      modifies this`orders
      ensures Valid()
      ensures !HasOrder(old(State()), id) ==> r == Err(NotFound) && orders == old(orders)
      ensures HasOrder(old(State()), id) ==>
                var o := old(orders)[id - 1];
                var payMethod := if p.payMethod.Some? then TrimSpace(p.payMethod.value) else "";
                && r == Ok(o.(status := p.status,
                              payMethod := if payMethod == "" then o.payMethod else payMethod,
                              paidAt := if p.paidAt.Some? then p.paidAt else o.paidAt,
                              cancelledAt := if p.cancelledAt.Some? then p.cancelledAt else o.cancelledAt))
                && orders == old(orders)[id - 1 := r.value]
    {
      hide TrimSpace;
      if !HasOrder(State(), id) {
        return Err(NotFound);
      }
      var o := orders[id - 1].(status := p.status);
      if p.payMethod.Some? {
        var payMethod := TrimSpace(p.payMethod.value);
        if payMethod != "" { o := o.(payMethod := payMethod); }
      }
      if p.paidAt.Some? { o := o.(paidAt := p.paidAt); }
      if p.cancelledAt.Some? { o := o.(cancelledAt := p.cancelledAt); }
      orders := orders[id - 1 := o];
      r := Ok(o);
    }

    method UpdatePaymentState(id: nat, p: StateParams) returns (r: Result<Order>)
      requires Valid()
      modifies this`orders
      ensures Valid()
      ensures !HasOrder(old(State()), id) ==> r == Err(NotFound) && orders == old(orders)
      ensures HasOrder(old(State()), id) ==>
                var o := old(orders)[id - 1];
                && r == Ok(o.(payStatus := p.payStatus,
                              status := if p.status.Some? then p.status.value else o.status,
                              payReference := Written(p.reference, o.payReference),
                              failureCode := Written(p.failureCode, o.failureCode),
                              failureReason := Written(p.failureMessage, o.failureReason),
                              paidAt := if p.paidAt.Some? then p.paidAt else o.paidAt))
                && orders == old(orders)[id - 1 := r.value]
    {
      hide TrimSpace;
      if !HasOrder(State(), id) {
        return Err(NotFound);
      }
      var o := orders[id - 1].(payStatus := p.payStatus);
      if p.status.Some? { o := o.(status := p.status.value); }
      if p.reference.Some? { o := o.(payReference := TrimSpace(p.reference.value)); }
      if p.failureCode.Some? { o := o.(failureCode := TrimSpace(p.failureCode.value)); }
      if p.failureMessage.Some? { o := o.(failureReason := TrimSpace(p.failureMessage.value)); }
      if p.paidAt.Some? { o := o.(paidAt := p.paidAt); }
      orders := orders[id - 1 := o];
      r := Ok(o);
    }

    /** Re-checks under the lock that the amount still fits, then adds it. */
    method AddRefund(id: nat, amount: Int64, at: int) returns (r: Result<Order>)
      requires Valid()
      modifies this`orders
      ensures Valid()
      ensures r.Err? ==> orders == old(orders)
      ensures amount <= 0 ==> r == Err(InvalidArgument)
      ensures amount > 0 && !HasOrder(old(State()), id) ==> r == Err(NotFound)
      ensures amount > 0 && HasOrder(old(State()), id) ==>
                var o := old(orders)[id - 1];
                && (!Refundable(o, amount) ==> r == Err(InvalidArgument))
                && (Refundable(o, amount) ==>
                      && o.refunded + amount <= MAX_INT64
                      && r == Ok(o.(refunded := o.refunded + amount, refundedAt := Some(at)))
                      && orders == old(orders)[id - 1 := r.value])
    {
      if amount <= 0 {
        return Err(InvalidArgument);
      }
      if !HasOrder(State(), id) {
        return Err(NotFound);
      }
      var o := orders[id - 1];
      var remaining := Wrap64(o.total - o.refunded);
      if remaining <= 0 || amount > remaining {
        return Err(InvalidArgument);
      }
      o := o.(refunded := Wrap64(o.refunded + amount), refundedAt := Some(at));
      orders := orders[id - 1 := o];
      r := Ok(o);
    }

    method UpdatePaymentRecord(id: nat, p: PaymentParams) returns (r: Result<Payment>)
      modifies this`payments
      ensures !HasPayment(old(State()), id) ==> r == Err(NotFound) && payments == old(payments)
      ensures HasPayment(old(State()), id) ==>
                var row := old(payments)[id - 1];
                && r == Ok(row.(status := p.status,
                                reference := Written(p.reference, row.reference),
                                failureCode := Written(p.failureCode, row.failureCode),
                                failureMessage := Written(p.failureMessage, row.failureMessage)))
                && payments == old(payments)[id - 1 := r.value]
    {
      hide TrimSpace;
      if !HasPayment(State(), id) {
        return Err(NotFound);
      }
      var row := payments[id - 1].(status := p.status);
      if p.reference.Some? { row := row.(reference := TrimSpace(p.reference.value)); }
      if p.failureCode.Some? { row := row.(failureCode := TrimSpace(p.failureCode.value)); }
      if p.failureMessage.Some? { row := row.(failureMessage := TrimSpace(p.failureMessage.value)); }
      payments := payments[id - 1 := row];
      r := Ok(row);
    }

    // ---------- transactions ----------

    /** Debits the wallet first; a conflict on insert then takes the debit back. */
    method CreateOrder(d: Draft) returns (r: Result<nat>)
      requires Valid() && 0 <= d.total
      modifies this
      ensures Valid()
      ensures (State(), r) == CommitCreate(old(State()), d)
    {
      hide TrimSpace, OrderRef, CurrencyOf, CurrencyFor;
      var saved := State();
      var o := Order(d.number, d.user, d.key, PendingPayment, if d.fromBalance then BALANCE else EXTERNAL, PayPending,
                     d.total, CurrencyFor(State(), d), 0, None, None, None, "", "", "");
      if d.total == 0 || d.fromBalance {
        if d.total > 0 {
          var posted := ApplyTransaction(o.user, Movement(PURCHASE, -d.total, o.currency, OrderRef(o.number)));
          if posted.Err? {
            Rollback(saved);
            return posted;
          }
        }
        o := o.(status := Paid, payStatus := PaySucceeded, paidAt := Some(d.now));
      }
      assert o == NewOrder(saved, d);
      r := InsertOrder(o);
      if r.Err? {
        Rollback(saved);
        return;
      }
      if !d.fromBalance && d.total > 0 {
        // the order's identifier is never zero, so this insert is accepted
        var _ := CreatePayment(Payment(r.value, d.channel, PayPending, d.total, "", "", ""));
      }
    }

    method MarkPaid(m: Mark, snap: Order) returns (r: Result<nat>)
      requires Valid() && 0 <= snap.total && Tidy(m.payMethod)
      modifies this
      ensures Valid()
      ensures (State(), r) == CommitMarkPaid(old(State()), m, snap)
    {
      hide TrimSpace, EqualFold, OrderRef, CurrencyOf, RowFor, Accepts;
      var saved := State();
      if m.charge && snap.total > 0 {
        var currency := snap.currency;
        if TrimSpace(currency) == "" { currency := "CNY"; }
        assert Movement(PURCHASE, -snap.total, currency, OrderRef(snap.number)) == ChargeFor(snap);
        var posted := ApplyTransaction(snap.user, Movement(PURCHASE, -snap.total, currency, OrderRef(snap.number)));
        if posted.Err? {
          Rollback(saved);
          return posted;
        }
      }
      var params := StateParams(PaySucceeded, Some(Paid), m.reference, None, None, Some(m.at));
      var updated := UpdatePaymentState(m.id, params);
      if updated.Err? {
        Rollback(saved);
        return Err(updated.error);
      }
      if m.payMethod != "" && !EqualFold(updated.value.payMethod, m.payMethod) {
        updated := UpdateStatus(m.id, StatusParams(Paid, Some(m.payMethod), Some(m.at), None));
      }
      assert updated.value == MarkedPaid(saved.orders[m.id - 1], m);
      assert orders == saved.orders[m.id - 1 := updated.value];
      r := Ok(m.id);
    }

    /** Credits the wallet and writes the refund row before the locked re-check. */
    method Refund(c: Credit, snap: Order) returns (r: Result<nat>)
      requires Valid() && 0 < c.amount && 0 < c.id
      modifies this
      ensures Valid()
      ensures (State(), r) == CommitRefund(old(State()), c, snap)
    {
      hide RefundKind, OrderRef, Accepts, RowFor, TrimSpace, ToLower, CurrencyOf;
      RefundKindIsStable();
      var saved := State();
      var posted := RecordRefund(snap.user, Movement(REFUND, c.amount, snap.currency, OrderRef(snap.number)));
      if posted.Err? {
        Rollback(saved);
        return posted;
      }
      var _ := CreateRefund(RefundRow(c.id, c.amount, OrderRef(snap.number)));
      var updated := AddRefund(c.id, c.amount, c.at);
      if updated.Err? {
        Rollback(saved);
        return Err(updated.error);
      }
      if 0 < updated.value.refunded < snap.total && updated.value.status != PartiallyRefunded {
        updated := UpdateStatus(c.id, StatusParams(PartiallyRefunded, None, None, None));
      }
      if updated.value.refunded >= snap.total && updated.value.status != Tables.Refunded {
        updated := UpdateStatus(c.id, StatusParams(Tables.Refunded, None, None, None));
      }
      assert updated.value == RefundedOrder(saved.orders[c.id - 1], c, snap);
      assert orders == saved.orders[c.id - 1 := updated.value];
      r := Ok(c.id);
    }

    method ProcessCallback(n: Notice) returns (r: Result<nat>)
      requires Valid()
      modifies this
      ensures Valid()
      ensures (State(), r) == CommitCallback(old(State()), n)
    {
      var saved := State();
      var record := PaymentParams(n.status, n.reference, n.failureCode, n.failureMessage);
      var payment := UpdatePaymentRecord(n.paymentId, record);
      if payment.Err? {
        Rollback(saved);
        return Err(payment.error);
      }
      var params := StateParams(n.status, None, None, None, None, None);
      if n.status == PaySucceeded {
        params := params.(status := Some(Paid), paidAt := Some(n.at), reference := n.reference);
      } else {
        params := params.(status := Some(PaymentFailed));
        params := params.(failureCode := n.failureCode, failureMessage := n.failureMessage);
      }
      var updated := UpdatePaymentState(n.id, params);
      if updated.Err? {
        Rollback(saved);
        return Err(updated.error);
      }
      r := Ok(n.id);
    }

    method CancelOrder(id: nat, at: int) returns (r: Result<nat>)
      requires Valid()
      modifies this
      ensures Valid()
      ensures (State(), r) == CommitCancel(old(State()), id, at)
    {
      var updated := UpdateStatus(id, StatusParams(Cancelled, None, None, Some(at)));
      if updated.Err? {
        return Err(updated.error);
      }
      r := Ok(id);
    }

    // ---------- reads ----------

    /** The identifiers of an order's payments, ascending. */
    method ListPayments(order: nat) returns (ids: seq<nat>)
      ensures forall id :: id in ids <==> HasPayment(State(), id) && payments[id - 1].order == order
      ensures forall i, j | 0 <= i < j < |ids| :: ids[i] < ids[j]
    {
      ids := [];
      for k := 0 to |payments|
        invariant forall id :: id in ids <==> 1 <= id <= k && payments[id - 1].order == order
        invariant forall i, j | 0 <= i < j < |ids| :: ids[i] < ids[j]
      {
        if payments[k].order == order {
          assert forall i | 0 <= i < |ids| :: ids[i] in ids;
          ids := ids + [k + 1];
        }
      }
    }

    /** Searches an order's payments for one. */
    method FindPayment(order: nat, id: nat) returns (found: bool)
      ensures found <==> HasPayment(State(), id) && payments[id - 1].order == order
    {
      var ids := ListPayments(order);
      found := false;
      for i := 0 to |ids|
        invariant !found
        invariant id !in ids[..i]
      {
        if ids[i] == id {
          return true;
        }
      }
      assert ids[..|ids|] == ids;
    }

    /** The callback's read: look the payment up among the order's, then judge its status. */
    method BeginCallback(q: CallbackReq) returns (outcome: Outcome)
      ensures outcome == ReadCallback(State(), q)
    {
      hide CallbackStatus, NonBlank;
      if q.id == 0 || q.paymentId == 0 || CallbackStatus(q).None? {
        return Reply(Err(InvalidArgument));
      }
      if !HasOrder(State(), q.id) {
        return Reply(Err(NotFound));
      }
      var found := FindPayment(q.id, q.paymentId);
      if !found {
        return Reply(Err(NotFound));
      }
      var status := payments[q.paymentId - 1].status;
      var announced := CallbackStatus(q).value;
      if status == announced {
        return Reply(Ok(q.id));
      }
      if status == PaySucceeded && announced == PayFailed {
        return Reply(Err(InvalidState));
      }
      outcome := Continue(Calling(NoticeOf(q, announced)));
    }
  }
}

/** Gateway callbacks arrive late, twice and out of order; serially that makes no difference. */
module Callbacks {
  import opened Options
  import opened Text
  import opened Tables
  import opened Ledger
  import opened Billing
  import opened Invariants
  import opened Transactions
  import opened Guards
  import opened Serial

  /** The later of two payment statuses: pending, then failed, then succeeded. */
  function Join(a: PayStatus, b: PayStatus): PayStatus {
    if a == PaySucceeded || b == PaySucceeded then PaySucceeded
    else if a == PayFailed || b == PayFailed then PayFailed
    else PayPending
  }

  /** The order status that belongs to a payment status. */
  function Settled(s: PayStatus): OrderStatus {
    match s
    case PayPending => PendingPayment
    case PayFailed => PaymentFailed
    case PaySucceeded => Paid
  }

  /** What a request announces about one payment of one order. */
  function Delivered(req: Request, order: nat, payment: nat): PayStatus {
    if req.Callback? && req.callback.id == order && req.callback.paymentId == payment
       && CallbackStatus(req.callback).Some?
    then CallbackStatus(req.callback).value
    else PayPending
  }

  function JoinAll(reqs: seq<Request>, order: nat, payment: nat): PayStatus {
    if reqs == [] then PayPending
    else Join(JoinAll(reqs[..|reqs| - 1], order, payment), Delivered(reqs[|reqs| - 1], order, payment))
  }

  /** Requests other than callbacks keep their hands off the order. */
  predicate LeavesOrder(req: Request, order: nat) {
    match req
    case MarkPaid(q) => q.id != order
    case Refund(q) => q.id != order
    case Cancel(q) => q.id != order
    case _ => true
  }

  /** The order and its payment tell the same story, and the story is a given status. */
  predicate Tells(db: Db, order: nat, payment: nat, s: PayStatus) {
    && HasOrder(db, order)
    && HasPayment(db, payment)
    && db.payments[payment - 1].order == order
    && db.payments[payment - 1].status == s
    && db.orders[order - 1].payStatus == s
    && db.orders[order - 1].status == Settled(s)
  }

  /** An order created for the gateway starts the story with its own new payment. */
  lemma CreateStartsStory(db: Db, d: Draft)
    requires AwaitsGateway(d) && CommitCreate(db, d).1.Ok?
    ensures var db' := CommitCreate(db, d).0; Tells(db', |db'.orders|, |db'.payments|, PayPending)
  {
    hide CurrencyFor, Conflicts;
  }

  /** A request that is no callback and leaves the order alone leaves its payment alone too. */
  lemma OthersLeaveStory(db: Db, req: Request, order: nat, payment: nat, s: PayStatus)
    requires Inv(db) && Assumed(req) && LeavesOrder(req, order) && !req.Callback?
    requires Tells(db, order, payment, s)
    ensures Tells(Serve(db, req), order, payment, s)
  {
    hide Inv, TrimSpace, ToLower, EqualFold, CreateMethod, Channel, NonBlank, OrderRef, CurrencyFor, Conflicts, Accepts,
      ChargeFor, MarkedPaid, RefundedOrder, RowFor, Assumed, NewOrder, Settled;
  }

  /** One callback, served serially, moves the story to the join. */
  lemma CallbackJoins(db: Db, req: Request, order: nat, payment: nat, s: PayStatus)
    requires Inv(db) && req.Callback? && Tells(db, order, payment, s)
    ensures Tells(Serve(db, req), order, payment, Join(s, Delivered(req, order, payment)))
  {
    hide LedgerOk, RowsAttributed, KeysUnique, OrdersOk, CallbackStatus, NonBlank, Written, PickTime;
    var q := req.callback;
    if Read(db, req).Continue? {
      assert db.payments[q.paymentId - 1].order == q.id;
      assert q.id == order ==> q.paymentId == payment;
    }
  }

  /**
    Over any serial run in which only callbacks touch an order, its payment ends at the join
    of the statuses delivered for it, and the order's two statuses follow from that.
   */
  lemma {:induction false} DeliveryReachesJoin(db: Db, reqs: seq<Request>, order: nat, payment: nat)
    requires SerialOk(db) && Sound(reqs)
    requires forall k | 0 <= k < |reqs| :: LeavesOrder(reqs[k], order)
    requires Tells(db, order, payment, PayPending)
    ensures Tells(ServeAll(db, reqs), order, payment, JoinAll(reqs, order, payment))
  {
    hide Inv, AllHold, Serve, Assumed, Tells, Join, Delivered, LeavesOrder;
    if reqs == [] {
    } else {
      var rest, req := reqs[..|reqs| - 1], reqs[|reqs| - 1];
      DeliveryReachesJoin(db, rest, order, payment);
      SerialRunKeeps(db, rest);
      var mid, s := ServeAll(db, rest), JoinAll(rest, order, payment);
      if req.Callback? {
        CallbackJoins(mid, req, order, payment, s);
      } else {
        OthersLeaveStory(mid, req, order, payment, s);
        NothingDelivered(req, order, payment, s);
      }
    }
  }

  lemma NothingDelivered(req: Request, order: nat, payment: nat, s: PayStatus)
    requires !req.Callback?
    ensures Join(s, Delivered(req, order, payment)) == s
  {
  }

  predicate Announces(reqs: seq<Request>, order: nat, payment: nat, s: PayStatus) {
    exists k :: 0 <= k < |reqs| && Delivered(reqs[k], order, payment) == s
  }

  /** The join only asks whether a success, or else a failure, was delivered at all. */
  lemma {:induction false} JoinIsBySet(reqs: seq<Request>, order: nat, payment: nat)
    ensures JoinAll(reqs, order, payment) ==
            if Announces(reqs, order, payment, PaySucceeded) then PaySucceeded
            else if Announces(reqs, order, payment, PayFailed) then PayFailed
            else PayPending
  {
    hide Delivered;
    if reqs == [] {
    } else {
      var rest, last := reqs[..|reqs| - 1], reqs[|reqs| - 1];
      JoinIsBySet(rest, order, payment);
      forall s: PayStatus
        ensures Announces(reqs, order, payment, s)
                <==> Announces(rest, order, payment, s) || Delivered(last, order, payment) == s
      {
        if Announces(rest, order, payment, s) {
          var k :| 0 <= k < |rest| && Delivered(rest[k], order, payment) == s;
          assert reqs[k] == rest[k];
        }
        if Announces(reqs, order, payment, s) {
          var k :| 0 <= k < |reqs| && Delivered(reqs[k], order, payment) == s;
          assert k < |rest| ==> rest[k] == reqs[k];
        }
      }
    }
  }

  /** Two runs that deliver the same statuses, however ordered, repeated or mixed with other traffic, end alike. */
  lemma DeliveryIsOrderInsensitive(db: Db, reqs: seq<Request>, others: seq<Request>, order: nat, payment: nat)
    requires SerialOk(db) && Sound(reqs) && Sound(others)
    requires forall k | 0 <= k < |reqs| :: LeavesOrder(reqs[k], order)
    requires forall k | 0 <= k < |others| :: LeavesOrder(others[k], order)
    requires Tells(db, order, payment, PayPending)
    requires forall s: PayStatus | s != PayPending ::
               Announces(reqs, order, payment, s) <==> Announces(others, order, payment, s)
    ensures var s := JoinAll(reqs, order, payment);
            Tells(ServeAll(db, reqs), order, payment, s) && Tells(ServeAll(db, others), order, payment, s)
  {
    hide SerialOk, ServeAll, Tells, Announces, LeavesOrder, Assumed;
    DeliveryReachesJoin(db, reqs, order, payment);
    DeliveryReachesJoin(db, others, order, payment);
    JoinIsBySet(reqs, order, payment);
    JoinIsBySet(others, order, payment);
  }

  /** Read earlier and committed late, a callback still reaches the join unless it is a failure meeting a success. */
  lemma LateCallbackJoinsIff(db: Db, n: Notice)
    requires Inv(db) && FlightOk(db, Calling(n))
    ensures var before := db.payments[n.paymentId - 1].status;
            var after := CommitCallback(db, n).0.payments[n.paymentId - 1].status;
            after == Join(before, n.status) <==> !(before == PaySucceeded && n.status == PayFailed)
  {
    hide Inv, Written, CalledOrder;
  }
}

/**
  Guards that a request asks before its transaction and not again inside it, the property
  each protects, and the commits that break the property when the guard has gone stale.
 */
module Guards {
  import opened Options
  import opened Text
  import opened Tables
  import opened Ledger
  import opened Billing
  import opened Invariants
  import opened Transactions
  import opened Runs
  import opened Money

  /** The properties that stale guards can cost. */
  datatype Property = SingleCharges | Agreement | SquareCancels

  /** No order is charged twice. */
  ghost predicate ChargedOnce(orders: seq<Order>, l: seq<Entry>) {
    forall i | 0 <= i < |orders| :: Total(l, Purchases(orders[i].number)) <= 1
  }

  /** A payment and its order report the same, unless the order was marked paid while the gateway was silent. */
  predicate Agree(p: PayStatus, o: PayStatus) { p == o || (p == PayPending && o == PaySucceeded) }

  ghost predicate PaymentsAgree(orders: seq<Order>, payments: seq<Payment>) {
    forall p | 0 <= p < |payments| && 1 <= payments[p].order <= |orders| ::
      Agree(payments[p].status, orders[payments[p].order - 1].payStatus)
  }

  /** A cancelled order has given back whatever it took. */
  ghost predicate CancelledIsSquare(orders: seq<Order>, l: seq<Entry>) {
    forall i | 0 <= i < |orders| && orders[i].status == Cancelled :: Total(l, OrderAmount(orders[i].number)) == 0
  }

  ghost predicate Holds(db: Db, p: Property) {
    match p
    case SingleCharges => ChargedOnce(db.orders, db.ledger)
    case Agreement => PaymentsAgree(db.orders, db.payments)
    case SquareCancels => CancelledIsSquare(db.orders, db.ledger)
  }

  /** The commits that break a property: what the stale guard should have met, they no longer meet. */
  ghost predicate Breaks(db: Db, f: Flight, p: Property) {
    match p
    case SingleCharges =>
      && f.Marking? && Charges(f.mark, f.snap) && CommitMarkPaid(db, f.mark, f.snap).1.Ok?
      && Total(db.ledger, Purchases(f.snap.number)) >= 1
    case Agreement =>
      && f.Marking? && CommitMarkPaid(db, f.mark, f.snap).1.Ok?
      && exists k :: 0 <= k < |db.payments| && db.payments[k].order == f.mark.id && db.payments[k].status == PayFailed
    case SquareCancels =>
      && f.Cancelling? && HasOrder(db, f.id)
      && Total(db.ledger, OrderAmount(db.orders[f.id - 1].number)) != 0
  }

  // ---------- charges ----------

  /** A row that is no purchase of any order leaves every charge count as it is. */
  lemma NoNewCharge(db: Db, row: Entry)
    requires ChargedOnce(db.orders, db.ledger)
    requires row.kind == REFUND || !IsOrderRef(row.reference)
    ensures ChargedOnce(db.orders, db.ledger + [row])
  {
    hide OrderRef;
    forall i | 0 <= i < |db.orders| ensures Total(db.ledger + [row], Purchases(db.orders[i].number)) <= 1 {
      TotalAppend(db.ledger, row, Purchases(db.orders[i].number));
    }
  }

  /** Charging an order adds one to its count and nothing to the others. */
  lemma ChargeCounts(orders: seq<Order>, l: seq<Entry>, row: Entry, i: nat)
    requires KeysUnique(orders) && i < |orders|
    requires forall j | 0 <= j < |orders| && j != i :: Total(l, Purchases(orders[j].number)) <= 1
    requires row.reference == OrderRef(orders[i].number) && row.kind == PURCHASE
    ensures ChargedOnce(orders, l + [row]) <==> Total(l, Purchases(orders[i].number)) <= 0
  {
    hide OrderRef;
    forall j | 0 <= j < |orders|
      ensures Total(l + [row], Purchases(orders[j].number))
              == Total(l, Purchases(orders[j].number)) + if j == i then 1 else 0
    {
      TotalAppend(l, row, Purchases(orders[j].number));
      OrderRefIsInjective(orders[j].number, orders[i].number);
    }
  }

  /** Charge counts depend on the orders' numbers only. */
  lemma ChargedOnceByNumber(orders: seq<Order>, orders': seq<Order>, l: seq<Entry>)
    requires |orders| == |orders'| && forall i | 0 <= i < |orders| :: SameIdentity(orders[i], orders'[i])
    ensures ChargedOnce(orders, l) <==> ChargedOnce(orders', l)
  {
    if ChargedOnce(orders', l) {
      forall i | 0 <= i < |orders| ensures Total(l, Purchases(orders[i].number)) <= 1 {
        assert SameIdentity(orders[i], orders'[i]);
      }
    }
    if ChargedOnce(orders, l) {
      forall i | 0 <= i < |orders'| ensures Total(l, Purchases(orders'[i].number)) <= 1 {
        assert SameIdentity(orders[i], orders'[i]);
      }
    }
  }

  lemma NewNumberIsFresh(db: Db, d: Draft)
    requires 0 <= d.total && CommitCreate(db, d).1.Ok?
    ensures forall i | 0 <= i < |db.orders| :: db.orders[i].number != d.number
  {
    hide CurrencyFor, Accepts;
  }

  lemma CreateChargesOnce(db: Db, d: Draft)
    requires Inv(db) && ChargedOnce(db.orders, db.ledger) && 0 <= d.total && CommitCreate(db, d).1.Ok?
    ensures var db' := CommitCreate(db, d).0; ChargedOnce(db'.orders, db'.ledger)
  {
    hide LedgerOk, OrdersOk, PaymentsOk, CurrencyFor, OrderRef, Conflicts, IsOrderRef;
    var db' := CommitCreate(db, d).0;
    var o := db'.orders[|db.orders|];
    NewNumberIsFresh(db, d);
    FreshNumber(db, d.number);
    if DebitsNow(d) {
      InsertKeepsKeys(db.orders, o);
      ChargeCounts(db'.orders, db.ledger, RowFor(db, o.user, DebitFor(o)), |db.orders|);
    }
  }

  lemma MarkPaidChargesOnceIff(db: Db, m: Mark, snap: Order)
    requires Inv(db) && FlightOk(db, Marking(m, snap)) && ChargedOnce(db.orders, db.ledger)
    requires CommitMarkPaid(db, m, snap).1.Ok?
    ensures var db' := CommitMarkPaid(db, m, snap).0;
            ChargedOnce(db'.orders, db'.ledger) <==> !Breaks(db, Marking(m, snap), SingleCharges)
  {
    hide LedgerOk, PaymentsOk, RowsAttributed, OrderRef, OrderOk, EqualFold, ChargeFor, MarkedPaid, ChargedOnce;
    MarkPaidKeeps(db, m, snap);
    var db' := CommitMarkPaid(db, m, snap).0;
    assert OrderOk(db.orders[m.id - 1], m.id, db.refunds, db.ledger);
    TotalIsNonNegative(db.orders[m.id - 1], m.id, db.refunds, db.ledger);
    if Charges(m, snap) {
      ChargeIsForOrder(snap);
      assert forall j | 0 <= j < |db.orders| :: Total(db.ledger, Purchases(db.orders[j].number)) <= 1 by {
        OnceForEach(db.orders, db.ledger);
      }
      ChargeCounts(db.orders, db.ledger, RowFor(db, snap.user, ChargeFor(snap)), m.id - 1);
    }
    ChargedOnceByNumber(db.orders, db'.orders, db'.ledger);
  }

  lemma OnceForEach(orders: seq<Order>, l: seq<Entry>)
    requires ChargedOnce(orders, l)
    ensures forall j | 0 <= j < |orders| :: Total(l, Purchases(orders[j].number)) <= 1
  {
  }

  /** A commit keeps charges single exactly when it is not a charge that meets an earlier one. */
  lemma ChargesStaySingleIff(db: Db, f: Flight)
    requires Inv(db) && FlightOk(db, f) && Launched(db, f) && ChargedOnce(db.orders, db.ledger)
    ensures var db' := Commit(db, f).0;
            ChargedOnce(db'.orders, db'.ledger) <==> !Breaks(db, f, SingleCharges)
  {
    hide LedgerOk, OrdersOk, PaymentsOk, RowsAttributed, KeysUnique, CommitCreate, CommitMarkPaid,
      OrderRef, EqualFold, ChargedOnce, Written, Accepts, CurrencyOf, IsOrderRef, Breaks;
    CommitKeeps(db, f);
    var db' := Commit(db, f).0;
    OnlyMarksBreak(db, f);
    match f
    case Creating(d) =>
      if CommitCreate(db, d).1.Ok? { CreateChargesOnce(db, d); } else { LosersChangeNothing(db, f); }
    case Marking(m, snap) =>
      if CommitMarkPaid(db, m, snap).1.Ok? { MarkPaidChargesOnceIff(db, m, snap); } else { LosersChangeNothing(db, f); }
    case Refunding(c, snap) =>
      if CommitRefund(db, c, snap).1.Ok? {
        NoNewCharge(db, RowFor(db, snap.user, CreditFor(c, snap)));
        ChargedOnceByNumber(db.orders, db'.orders, db'.ledger);
      }
    case Adjusting(user, m) => if Accepts(db, user, m) { NoNewCharge(db, RowFor(db, user, m)); }
    case Calling(_) => ChargedOnceByNumber(db.orders, db'.orders, db'.ledger);
    case Cancelling(_, _) => ChargedOnceByNumber(db.orders, db'.orders, db'.ledger);
    case Recovering(_) =>
  }

  lemma OnlyMarksBreak(db: Db, f: Flight)
    ensures Breaks(db, f, SingleCharges) || Breaks(db, f, Agreement) ==>
              f.Marking? && CommitMarkPaid(db, f.mark, f.snap).1.Ok?
  {
    hide CommitMarkPaid;
  }

  /** A transaction that answers with an error has changed nothing. */
  lemma LosersChangeNothing(db: Db, f: Flight)
    requires Launched(db, f) && (Commit(db, f).1.Reply? ==> Commit(db, f).1.result.Err?)
    ensures Commit(db, f).0 == db
  {
    hide CurrencyFor, Conflicts, Accepts, OrderRef, Written, MarkedPaid;
  }

  // ---------- agreement ----------

  /** Updating one order's row keeps the agreement exactly when its own payment row still agrees. */
  lemma AgreementOfOne(db: Db, db': Db, id: nat)
    requires PaymentsAgree(db.orders, db.payments) && HasOrder(db, id)
    requires |db'.orders| == |db.orders| && |db'.payments| == |db.payments|
    requires db'.orders == db.orders[id - 1 := db'.orders[id - 1]]
    requires forall p | 0 <= p < |db.payments| ::
               db'.payments[p].order == db.payments[p].order
               && (db.payments[p].order != id ==> db'.payments[p] == db.payments[p])
    ensures PaymentsAgree(db'.orders, db'.payments) <==>
              forall p | 0 <= p < |db.payments| && db.payments[p].order == id ::
                Agree(db'.payments[p].status, db'.orders[id - 1].payStatus)
  {
    hide Agree;
    if PaymentsAgree(db'.orders, db'.payments) {
      forall p | 0 <= p < |db.payments| && db.payments[p].order == id
        ensures Agree(db'.payments[p].status, db'.orders[id - 1].payStatus)
      {
        assert db'.payments[p].order == id;
      }
    }
  }

  lemma PostLeavesOrders(db: Db, user: nat, m: Movement)
    ensures var db' := Post(db, user, m).0; db'.orders == db.orders && db'.payments == db.payments
  {
  }

  lemma CreateKeepsAgreement(db: Db, d: Draft)
    requires PaymentsAgree(db.orders, db.payments) && PaymentsOk(db.orders, db.payments)
    requires 0 <= d.total && CommitCreate(db, d).1.Ok?
    ensures var db' := CommitCreate(db, d).0; PaymentsAgree(db'.orders, db'.payments)
  {
    hide CurrencyFor, Conflicts, Accepts, OrderRef;
  }

  /** Marking an order paid agrees with its payment exactly when the gateway has not reported a failure. */
  lemma MarkPaidAgreesIff(db: Db, m: Mark, snap: Order)
    requires PaymentsAgree(db.orders, db.payments) && CommitMarkPaid(db, m, snap).1.Ok?
    ensures var db' := CommitMarkPaid(db, m, snap).0;
            PaymentsAgree(db'.orders, db'.payments) <==> !Breaks(db, Marking(m, snap), Agreement)
  {
    hide EqualFold, OrderRef, ChargeFor, Written, Accepts, PaymentsAgree;
    AgreementOfOne(db, CommitMarkPaid(db, m, snap).0, m.id);
  }

  lemma CallbackKeepsAgreement(db: Db, n: Notice)
    requires Inv(db) && PaymentsAgree(db.orders, db.payments) && FlightOk(db, Calling(n))
    ensures var db' := CommitCallback(db, n).0; PaymentsAgree(db'.orders, db'.payments)
  {
    hide LedgerOk, RowsAttributed, KeysUnique, OrdersOk, Written;
    AgreementOfOne(db, CommitCallback(db, n).0, n.id);
  }

  lemma RefundKeepsAgreement(db: Db, c: Credit, snap: Order)
    requires PaymentsAgree(db.orders, db.payments) && Launched(db, Refunding(c, snap))
    requires CommitRefund(db, c, snap).1.Ok?
    ensures var db' := CommitRefund(db, c, snap).0; PaymentsAgree(db'.orders, db'.payments)
  {
    hide Accepts, OrderRef;
    AgreementOfOne(db, CommitRefund(db, c, snap).0, c.id);
  }

  lemma CancelKeepsAgreement(db: Db, id: nat, at: int)
    requires PaymentsAgree(db.orders, db.payments) && HasOrder(db, id)
    ensures var db' := CommitCancel(db, id, at).0; PaymentsAgree(db'.orders, db'.payments)
  {
    AgreementOfOne(db, CommitCancel(db, id, at).0, id);
  }

  /** A commit keeps the agreement exactly when it does not mark an order whose payment has failed. */
  lemma AgreementStaysIff(db: Db, f: Flight)
    requires Inv(db) && FlightOk(db, f) && Launched(db, f) && PaymentsAgree(db.orders, db.payments)
    ensures var db' := Commit(db, f).0; PaymentsAgree(db'.orders, db'.payments) <==> !Breaks(db, f, Agreement)
  {
    hide LedgerOk, OrdersOk, PaymentsOk, PaymentsAgree, RowsAttributed, KeysUnique, Breaks,
      CommitCreate, CommitMarkPaid, CommitRefund, CommitCallback, CommitCancel, Post, EqualFold;
    OnlyMarksBreak(db, f);
    match f
    case Creating(d) =>
      if CommitCreate(db, d).1.Ok? { CreateKeepsAgreement(db, d); } else { LosersChangeNothing(db, f); }
    case Marking(m, snap) =>
      if CommitMarkPaid(db, m, snap).1.Ok? { MarkPaidAgreesIff(db, m, snap); } else { LosersChangeNothing(db, f); }
    case Calling(n) => CallbackKeepsAgreement(db, n);
    case Refunding(c, snap) =>
      if CommitRefund(db, c, snap).1.Ok? { RefundKeepsAgreement(db, c, snap); } else { LosersChangeNothing(db, f); }
    case Cancelling(id, at) => CancelKeepsAgreement(db, id, at);
    case Adjusting(user, m) => PostLeavesOrders(db, user, m);
    case Recovering(_) =>
  }

  // ---------- cancelled orders ----------

  /** A row that names no order, or another one, moves no amount of an order. */
  lemma ForeignAmount(l: seq<Entry>, e: Entry, n: string)
    requires e.reference != OrderRef(n)
    ensures Total(l + [e], OrderAmount(n)) == Total(l, OrderAmount(n))
  {
    TotalAppend(l, e, OrderAmount(n));
  }

  /** A transaction on one order is square with it unless it leaves the order cancelled with something owing. */
  lemma SquareOfOne(db: Db, db': Db, id: nat)
    requires KeysUnique(db.orders) && CancelledIsSquare(db.orders, db.ledger) && ChangesOnly(db, db', id)
    ensures CancelledIsSquare(db'.orders, db'.ledger) <==>
              (db'.orders[id - 1].status == Cancelled ==> Total(db'.ledger, OrderAmount(db.orders[id - 1].number)) == 0)
  {
    hide OrderRef, Total;
    forall i | 0 <= i < |db.orders| && i != id - 1
      ensures Total(db'.ledger, OrderAmount(db.orders[i].number)) == Total(db.ledger, OrderAmount(db.orders[i].number))
    {
      if db'.ledger != db.ledger {
        var e := db'.ledger[|db.ledger|];
        assert db'.ledger == db.ledger + [e];
        OrderRefIsInjective(db.orders[i].number, db.orders[id - 1].number);
        ForeignAmount(db.ledger, e, db.orders[i].number);
      }
    }
    if CancelledIsSquare(db'.orders, db'.ledger) && db'.orders[id - 1].status == Cancelled {
      assert db'.orders[id - 1].number == db.orders[id - 1].number;
    }
  }

  /** Rows that name no cancelled order leave cancelled orders square. */
  lemma SquareOfNone(db: Db, db': Db)
    requires CancelledIsSquare(db.orders, db.ledger)
    requires |db.orders| <= |db'.orders| && db'.orders[..|db.orders|] == db.orders
    requires forall i | |db.orders| <= i < |db'.orders| :: db'.orders[i].status != Cancelled
    requires db'.ledger == db.ledger || (|db'.ledger| == |db.ledger| + 1 && db'.ledger[..|db.ledger|] == db.ledger
               && forall i | 0 <= i < |db.orders| :: db'.ledger[|db.ledger|].reference != OrderRef(db.orders[i].number))
    ensures CancelledIsSquare(db'.orders, db'.ledger)
  {
    hide OrderRef, Total;
    forall i | 0 <= i < |db'.orders| && db'.orders[i].status == Cancelled
      ensures Total(db'.ledger, OrderAmount(db'.orders[i].number)) == 0
    {
      assert db'.orders[i] == db'.orders[..|db.orders|][i] == db.orders[i];
      if db'.ledger != db.ledger {
        var e := db'.ledger[|db.ledger|];
        assert db'.ledger == db.ledger + [e];
        ForeignAmount(db.ledger, e, db.orders[i].number);
      }
    }
  }

  lemma CreateKeepsSquare(db: Db, d: Draft)
    requires CancelledIsSquare(db.orders, db.ledger) && 0 <= d.total && CommitCreate(db, d).1.Ok?
    ensures var db' := CommitCreate(db, d).0; CancelledIsSquare(db'.orders, db'.ledger)
  {
    hide OrderRef, CurrencyFor, Conflicts, CancelledIsSquare, Accepts;
    NewNumberIsFresh(db, d);
    var db' := CommitCreate(db, d).0;
    forall i | 0 <= i < |db.orders| ensures OrderRef(d.number) != OrderRef(db.orders[i].number) {
      OrderRefIsInjective(d.number, db.orders[i].number);
    }
    SquareOfNone(db, db');
  }

  lemma AdjustKeepsSquare(db: Db, user: nat, m: Movement)
    requires CancelledIsSquare(db.orders, db.ledger) && !IsOrderRef(m.reference)
    ensures var db' := Post(db, user, m).0; CancelledIsSquare(db'.orders, db'.ledger)
  {
    hide OrderRef, CancelledIsSquare, CurrencyOf;
    SquareOfNone(db, Post(db, user, m).0);
  }

  /** A commit keeps cancelled orders square exactly when it does not cancel one that has taken money it still keeps. */
  lemma SquareStaysIff(db: Db, f: Flight)
    requires Inv(db) && FlightOk(db, f) && Launched(db, f) && CancelledIsSquare(db.orders, db.ledger)
    ensures var db' := Commit(db, f).0; CancelledIsSquare(db'.orders, db'.ledger) <==> !Breaks(db, f, SquareCancels)
  {
    hide LedgerOk, OrdersOk, PaymentsOk, RowsAttributed, KeysUnique, CancelledIsSquare, ChangesOnly, Written, Extends,
      CommitCreate, Post, EqualFold, OrderRef, Total, Accepts, RowFor;
    var db' := Commit(db, f).0;
    match f
    case Creating(d) => if CommitCreate(db, d).1.Ok? { CreateKeepsSquare(db, d); } else { LosersChangeNothing(db, f); }
    case Marking(m, snap) =>
      if CommitMarkPaid(db, m, snap).1.Ok? { MarkPaidKeeps(db, m, snap); SquareOfOne(db, db', m.id); }
    case Refunding(c, snap) =>
      if CommitRefund(db, c, snap).1.Ok? { RefundKeeps(db, c, snap); SquareOfOne(db, db', c.id); }
    case Calling(n) => CallbackKeeps(db, n); SquareOfOne(db, db', n.id);
    case Cancelling(id, at) => CancelKeeps(db, id, at); SquareOfOne(db, db', id);
    case Adjusting(user, m) => AdjustKeepsSquare(db, user, m);
    case Recovering(_) =>
  }

  // ---------- any property, over any run ----------

  lemma CommitHoldsIff(db: Db, f: Flight, p: Property)
    requires Inv(db) && FlightOk(db, f) && Holds(db, p)
    ensures Launched(db, f)
    ensures Holds(Commit(db, f).0, p) <==> !Breaks(db, f, p)
  {
    hide Inv, FlightOk, Breaks, Commit, Launched, ChargedOnce, PaymentsAgree, CancelledIsSquare;
    FlightIsLaunched(db, f);
    match p
    case SingleCharges => ChargesStaySingleIff(db, f);
    case Agreement => AgreementStaysIff(db, f);
    case SquareCancels => SquareStaysIff(db, f);
  }

  /** The step is a commit that breaks the property. */
  ghost predicate BreaksAt(w: World, s: Step, p: Property) {
    s.Resume? && s.i < |w.flights| && Breaks(w.db, w.flights[s.i], p)
  }

  lemma StepHoldsIff(w: World, s: Step, p: Property)
    requires WorldOk(w) && Holds(w.db, p)
    ensures Holds(Exec(w, s).db, p) <==> !BreaksAt(w, s, p)
  {
    hide Inv, FlightOk, Breaks, Commit, Launched, Holds, LogOk, Read;
    if s.Resume? && s.i < |w.flights| { CommitHoldsIff(w.db, w.flights[s.i], p); }
  }

  ghost predicate HoldsThroughout(steps: seq<Step>, p: Property) {
    forall k | 0 <= k <= |steps| :: Holds(Run(START, steps[..k]).db, p)
  }

  ghost predicate NeverBroken(steps: seq<Step>, p: Property) {
    forall k | 0 <= k < |steps| :: !BreaksAt(Run(START, steps[..k]), steps[k], p)
  }

  lemma HoldsByLast(steps: seq<Step>, p: Property)
    requires steps != []
    ensures HoldsThroughout(steps, p) <==>
              HoldsThroughout(steps[..|steps| - 1], p) && Holds(Run(START, steps).db, p)
  {
    hide Exec, Holds, Run;
    var rest := steps[..|steps| - 1];
    assert steps[..|steps|] == steps;
    forall k | 0 <= k <= |rest| ensures steps[..k] == rest[..k] {
    }
    if HoldsThroughout(rest, p) && Holds(Run(START, steps).db, p) {
      forall k | 0 <= k <= |steps| ensures Holds(Run(START, steps[..k]).db, p) {
        if k < |steps| { assert Holds(Run(START, rest[..k]).db, p); }
      }
    }
  }

  lemma NeverByLast(steps: seq<Step>, p: Property)
    requires steps != []
    ensures var rest := steps[..|steps| - 1];
            NeverBroken(steps, p) <==> NeverBroken(rest, p) && !BreaksAt(Run(START, rest), steps[|steps| - 1], p)
  {
    hide Exec, BreaksAt, Run;
    var rest := steps[..|steps| - 1];
    assert forall k | 0 <= k <= |rest| :: steps[..k] == rest[..k];
    assert forall k | 0 <= k < |rest| :: steps[k] == rest[k];
    assert rest[..|rest|] == rest;
  }

  /** A property holds all along an interleaved run if and only if no commit of the run breaks it. */
  lemma {:induction false} RunHoldsIff(steps: seq<Step>, p: Property)
    requires AllAssumed(steps)
    ensures HoldsThroughout(steps, p) <==> NeverBroken(steps, p)
  {
    hide Exec, WorldOk, Holds, BreaksAt, HoldsThroughout, NeverBroken;
    if steps == [] {
      EmptyRunHolds(p);
    } else {
      var rest := steps[..|steps| - 1];
      RunHoldsIff(rest, p);
      HoldsByLast(steps, p);
      NeverByLast(steps, p);
      if HoldsThroughout(rest, p) {
        HoldsAtEnd(rest, p);
        EveryRunKeeps(rest);
        StepHoldsIff(Run(START, rest), steps[|steps| - 1], p);
      }
    }
  }

  lemma HoldsAtEnd(steps: seq<Step>, p: Property)
    requires HoldsThroughout(steps, p)
    ensures Holds(Run(START, steps).db, p)
  {
    hide Run, Holds;
    assert steps[..|steps|] == steps;
  }

  lemma EmptyRunHolds(p: Property)
    ensures HoldsThroughout([], p) && NeverBroken([], p)
  {
  }

  // ---------- single charges can be judged at the end ----------

  lemma StepExtends(w: World, s: Step)
    requires WorldOk(w)
    ensures Extends(w.db, Exec(w, s).db)
  {
    hide Inv, FlightOk, Commit, Launched, LogOk, Read, Extends;
    ExtendsItself(w.db);
    if s.Resume? && s.i < |w.flights| { CommitKeeps(w.db, w.flights[s.i]); }
  }

  /** Charge counts only grow, so an order charged twice stays so. */
  lemma ChargesOnlyGrow(db: Db, db': Db)
    requires Extends(db, db') && ChargedOnce(db'.orders, db'.ledger)
    ensures ChargedOnce(db.orders, db.ledger)
  {
    forall i | 0 <= i < |db.orders| ensures Total(db.ledger, Purchases(db.orders[i].number)) <= 1 {
      assert OrderGrows(db.orders[i], db'.orders[i]);
      CountGrows(db.ledger, db'.ledger, db.orders[i].number);
    }
  }

  /** An interleaved run ends with every order charged at most once if and only if no charge met an earlier one. */
  lemma {:induction false} RunChargesOnceIff(steps: seq<Step>)
    requires AllAssumed(steps)
    ensures var db := Run(START, steps).db;
            ChargedOnce(db.orders, db.ledger) <==> NeverBroken(steps, SingleCharges)
  {
    hide Exec, WorldOk, BreaksAt, HoldsThroughout, NeverBroken, ChargedOnce, Extends;
    if steps == [] {
      EmptyRunHolds(SingleCharges);
      HoldsAtEnd([], SingleCharges);
    } else {
      var rest := steps[..|steps| - 1];
      var w, db := Run(START, rest), Run(START, steps).db;
      RunChargesOnceIff(rest);
      NeverByLast(steps, SingleCharges);
      EveryRunKeeps(rest);
      StepExtends(w, steps[|steps| - 1]);
      if ChargedOnce(db.orders, db.ledger) { ChargesOnlyGrow(w.db, db); }
      if ChargedOnce(w.db.orders, w.db.ledger) { StepHoldsIff(w, steps[|steps| - 1], SingleCharges); }
    }
  }

  // ---------- what a cancellation must meet ----------

  /** An order's ledger rows come to what was refunded less what was charged. */
  lemma AmountOfOrder(db: Db, i: nat)
    requires Inv(db) && i < |db.orders|
    ensures var o := db.orders[i];
            Total(db.ledger, OrderAmount(o.number)) == o.refunded - Total(db.ledger, Purchases(o.number)) * o.total
  {
    hide LedgerOk, RowsAttributed, KeysUnique, PaymentsOk, RowFits;
    assert OrderOk(db.orders[i], i + 1, db.refunds, db.ledger);
    RowsFitOrder(db.orders, db.ledger, i);
    RowsOfOrder(db.ledger, db.orders[i]);
  }

  /** A cancellation leaves its order square exactly when it was free, never charged, or charged once and paid back. */
  lemma CancelIsSquareIff(db: Db, id: nat, at: int)
    requires Inv(db) && HasOrder(db, id)
    ensures var o, charges := db.orders[id - 1], Total(db.ledger, Purchases(db.orders[id - 1].number));
            Total(CommitCancel(db, id, at).0.ledger, OrderAmount(o.number)) == 0
            <==> o.total == 0 || charges == 0 || (charges == 1 && o.refunded == o.total)
  {
    hide LedgerOk, RowsAttributed, KeysUnique, PaymentsOk, StatusOk, PaysFromBalance;
    var o := db.orders[id - 1];
    assert OrderOk(o, id, db.refunds, db.ledger);
    AmountOfOrder(db, id - 1);
    CountsAreOrdered(db.ledger, o.number);
    var charges := Total(db.ledger, Purchases(o.number));
    if charges >= 2 && o.total > 0 { TwiceIsMore(charges, o.total); }
  }

  lemma TwiceIsMore(charges: int, total: int)
    requires 2 <= charges && 0 < total
    ensures charges * total > total
  {
  }

  // ---------- asking again under the lock ----------

  /** What the guards of marking and cancelling would find if they were asked inside the transaction. */
  ghost predicate Rechecked(db: Db, f: Flight) {
    match f
    case Marking(m, _) => HasOrder(db, m.id) && db.orders[m.id - 1].status == PendingPayment
    case Cancelling(id, _) =>
      && HasOrder(db, id)
      && var o := db.orders[id - 1];
      && (o.status == PendingPayment || (o.status == Paid && (o.total == 0 || o.refunded == o.total)))
    case _ => true
  }

  ghost predicate AllHold(db: Db) { forall p: Property :: Holds(db, p) }

  /** A pending order has not been charged. */
  lemma PendingIsUncharged(db: Db, i: nat)
    requires Inv(db) && i < |db.orders| && db.orders[i].status == PendingPayment
    ensures Total(db.ledger, Purchases(db.orders[i].number)) == 0
    ensures db.orders[i].payStatus == PayPending && db.orders[i].refunded == 0
  {
    hide LedgerOk, RowsAttributed, KeysUnique, PaymentsOk, MoneyOk;
    assert OrderOk(db.orders[i], i + 1, db.refunds, db.ledger);
    CountsAreOrdered(db.ledger, db.orders[i].number);
  }

  lemma RecheckedBreaksNothing(db: Db, f: Flight, p: Property)
    requires Inv(db) && FlightOk(db, f) && AllHold(db) && Rechecked(db, f)
    ensures !Breaks(db, f, p)
  {
    hide Inv, CommitMarkPaid, EqualFold, Total;
    assert Holds(db, SingleCharges) && Holds(db, Agreement);
    match f
    case Marking(m, snap) => PendingIsUncharged(db, m.id - 1);
    case Cancelling(id, at) => RecheckedCancelIsSquare(db, id, at);
    case _ =>
  }

  lemma RecheckedCancelIsSquare(db: Db, id: nat, at: int)
    requires Inv(db) && ChargedOnce(db.orders, db.ledger) && Rechecked(db, Cancelling(id, at))
    ensures Total(db.ledger, OrderAmount(db.orders[id - 1].number)) == 0
  {
    hide LedgerOk, RowsAttributed, KeysUnique, PaymentsOk, StatusOk, PaysFromBalance, Total;
    var o := db.orders[id - 1];
    CancelIsSquareIff(db, id, at);
    assert OrderOk(o, id, db.refunds, db.ledger);
    CountsAreOrdered(db.ledger, o.number);
    if o.status == PendingPayment { PendingIsUncharged(db, id - 1); }
  }

  /** So asking both guards again inside the transaction would be enough, for all three properties, in every run. */
  lemma {:induction false} RecheckingIsEnough(steps: seq<Step>)
    requires AllAssumed(steps)
    requires forall k | 0 <= k < |steps| && steps[k].Resume? ::
               var w := Run(START, steps[..k]); steps[k].i < |w.flights| ==> Rechecked(w.db, w.flights[steps[k].i])
    ensures AllHold(Run(START, steps).db)
  {
    hide Exec, WorldOk, Holds, Rechecked;
    if steps == [] {
      forall p: Property ensures Holds(Run(START, steps).db, p) {
        EmptyRunHolds(p);
        HoldsAtEnd([], p);
      }
    } else {
      var n := |steps| - 1;
      var rest, s := steps[..n], steps[n];
      forall k | 0 <= k < n ensures rest[..k] == steps[..k] && rest[k] == steps[k] {
      }
      RecheckingIsEnough(rest);
      EveryRunKeeps(rest);
      RecheckedStepHolds(Run(START, rest), s);
    }
  }

  lemma RecheckedStepHolds(w: World, s: Step)
    requires WorldOk(w) && AllHold(w.db)
    requires s.Resume? && s.i < |w.flights| ==> Rechecked(w.db, w.flights[s.i])
    ensures AllHold(Exec(w, s).db)
  {
    hide Exec, Inv, FlightOk, LogOk, Holds, Rechecked, Breaks;
    forall p: Property ensures Holds(Exec(w, s).db, p) {
      if s.Resume? && s.i < |w.flights| { RecheckedBreaksNothing(w.db, w.flights[s.i], p); }
      StepHoldsIff(w, s, p);
    }
  }

  // ---------- a success that should last ----------

  ghost predicate SucceededAt(steps: seq<Step>, k: nat, p: nat)
    requires k <= |steps|
  {
    var payments := Run(START, steps[..k]).db.payments;
    p < |payments| && payments[p].status == PaySucceeded
  }

  /** The step commits a failure notice on the payment. */
  predicate Fails(w: World, s: Step, p: nat) {
    && s.Resume? && s.i < |w.flights|
    && var f := w.flights[s.i];
    && f.Calling? && f.notice.paymentId == p + 1 && f.notice.status == PayFailed
  }

  lemma StepKeepsSuccessIff(w: World, s: Step, p: nat)
    requires WorldOk(w) && p < |w.db.payments| && w.db.payments[p].status == PaySucceeded
    ensures p < |Exec(w, s).db.payments|
    ensures Exec(w, s).db.payments[p].status == PaySucceeded <==> !Fails(w, s, p)
  {
    hide Inv, LogOk, Read, Written, CurrencyFor, Conflicts, Accepts, OrderRef, MarkedPaid, CalledOrder,
      EqualFold, RowFor;
    if s.Resume? && s.i < |w.flights| { FlightIsLaunched(w.db, w.flights[s.i]); }
  }

  ghost predicate LastsFrom(steps: seq<Step>, at: nat, p: nat) {
    forall k | at <= k <= |steps| :: SucceededAt(steps, k, p)
  }

  ghost predicate NoFailureFrom(steps: seq<Step>, at: nat, p: nat) {
    forall k | at <= k < |steps| :: !Fails(Run(START, steps[..k]), steps[k], p)
  }

  /** Once succeeded, a payment stays so along an interleaved run if and only if no failure notice commits on it. */
  lemma {:induction false} SuccessLastsIff(steps: seq<Step>, at: nat, p: nat)
    requires AllAssumed(steps) && at <= |steps| && SucceededAt(steps, at, p)
    ensures LastsFrom(steps, at, p) <==> NoFailureFrom(steps, at, p)
    decreases |steps|
  {
    hide Exec, WorldOk, Run, Fails, LastsFrom, NoFailureFrom;
    if at == |steps| {
      LastsAtOnce(steps, p);
    } else {
      var n := |steps| - 1;
      var rest := steps[..n];
      SucceededByPrefix(steps, n, at, p);
      SuccessLastsIff(rest, at, p);
      LastsByLast(steps, at, p);
      NoFailureByLast(steps, at, p);
      SucceededAtEnd(steps, p);
      EveryRunKeeps(rest);
      if LastsFrom(rest, at, p) {
        assert SucceededAt(rest, n, p) by { LastAtEnd(rest, at, p); }
        SucceededAtEnd(rest, p);
        StepKeepsSuccessIff(Run(START, rest), steps[n], p);
        RunByLast(steps);
      }
    }
  }

  lemma LastsAtOnce(steps: seq<Step>, p: nat)
    requires SucceededAt(steps, |steps|, p)
    ensures LastsFrom(steps, |steps|, p) && NoFailureFrom(steps, |steps|, p)
  {
    hide SucceededAt;
  }

  lemma LastAtEnd(steps: seq<Step>, at: nat, p: nat)
    requires at <= |steps| && LastsFrom(steps, at, p)
    ensures SucceededAt(steps, |steps|, p)
  {
    hide SucceededAt;
  }

  lemma RunByLast(steps: seq<Step>)
    requires steps != []
    ensures Run(START, steps) == Exec(Run(START, steps[..|steps| - 1]), steps[|steps| - 1])
  {
  }

  lemma SucceededAtEnd(steps: seq<Step>, p: nat)
    ensures SucceededAt(steps, |steps|, p) <==>
              p < |Run(START, steps).db.payments| && Run(START, steps).db.payments[p].status == PaySucceeded
  {
    hide Run;
    assert steps[..|steps|] == steps;
  }

  lemma SucceededByPrefix(steps: seq<Step>, n: nat, k: nat, p: nat)
    requires k <= n <= |steps|
    ensures SucceededAt(steps[..n], k, p) <==> SucceededAt(steps, k, p)
  {
    hide Run;
    assert steps[..n][..k] == steps[..k];
  }

  lemma LastsByLast(steps: seq<Step>, at: nat, p: nat)
    requires at < |steps|
    ensures var n := |steps| - 1;
            LastsFrom(steps, at, p) <==> LastsFrom(steps[..n], at, p) && SucceededAt(steps, |steps|, p)
  {
    hide Run, SucceededAt;
    var n := |steps| - 1;
    forall k | at <= k <= n ensures SucceededAt(steps[..n], k, p) <==> SucceededAt(steps, k, p) {
      SucceededByPrefix(steps, n, k, p);
    }
  }

  lemma NoFailureByLast(steps: seq<Step>, at: nat, p: nat)
    requires at < |steps|
    ensures var n := |steps| - 1;
            NoFailureFrom(steps, at, p) <==>
              NoFailureFrom(steps[..n], at, p) && !Fails(Run(START, steps[..n]), steps[n], p)
  {
    hide Run, Fails;
    var n := |steps| - 1;
    var rest := steps[..n];
    forall k | at <= k < n
      ensures Fails(Run(START, rest[..k]), rest[k], p) <==> Fails(Run(START, steps[..k]), steps[k], p)
    {
      assert rest[..k] == steps[..k];
    }
    if NoFailureFrom(steps, at, p) {
      assert !Fails(Run(START, steps[..n]), steps[n], p);
    }
  }
}

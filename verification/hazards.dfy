/**
  What interleaving breaks.  Guards read outside the lock are not asked again under it.
  Four properties depend on one: that an order is charged once, that its payment row agrees
  with it, that a cancelled order has given back what it took, and that a success lasts.
  One run each shows the property lost; Guards has the exact conditions, over all runs.
  The refund's own guard on the payment method goes stale too, without harm: the charge it
  stands for is never taken back.
 */
module Hazards {
  import opened Options
  import opened Text
  import opened Tables
  import opened Ledger
  import opened Billing
  import opened Invariants
  import opened Transactions
  import opened Runs
  import opened Money
  import opened Guards
  import opened Serial
  import opened Callbacks

  const TOP_UP := Adjust(7, Movement("recharge", 20, "CNY", "bank"))
  const NEW_ORDER :=
    Create(CreateReq(LoggedIn(7, false), 1, Some(Plan(true, "active", 10, "CNY")), 1, EXTERNAL, "g", "", "1", 0))
  const CHARGE := MarkPaid(MarkPaidReq(LoggedIn(1, true), 1, "", true, "", None, 0))

  /** A user with 20 in the wallet orders something for 10 through the gateway "g". */
  const PENDING_ORDER_STEPS: seq<Step> := [Begin(TOP_UP), Resume(0), Begin(NEW_ORDER), Resume(0)]

  function CallbackOf(status: string): Request { Callback(CallbackReq(1, 1, status, "", "", "", None, 0)) }

  ghost predicate HasPendingOrder(w: World) {
    && w.flights == []
    && |w.db.orders| == 1
    && w.db.orders[0].user == 7 && w.db.orders[0].total == 10 && w.db.orders[0].number == "1"
    && BalanceOf(w.db, 7) == 20
    && |w.db.payments| == 1
    && Tells(w.db, 1, 1, PayPending)
  }

  lemma LowerWordIsItself(s: string)
    requires Tidy(s) && forall i | 0 <= i < |s| :: 'a' <= s[i] <= 'z'
    ensures TrimSpace(ToLower(s)) == s
  {
    hide TrimSpace, IsSpace;
    assert ToLower(s) == s;
  }

  lemma NewOrderNormalises()
    ensures var q := NEW_ORDER.create;
            && CreateMethod(q) == EXTERNAL && Channel(q) == "g" && NonBlank(q.key) == None
            && EqualFold(q.plan.value.status, "active") && OrderTotal(q.plan.value, q.quantity) == 10
            && TrimSpace(q.plan.value.currency) == "CNY"
  {
    hide TrimSpace, ToLower;
    LowerWordIsItself(EXTERNAL);
    LowerWordIsItself("g");
  }

  lemma NewOrderIsRead(db: Db)
    requires db.orders == []
    ensures Read(db, NEW_ORDER) == Continue(Creating(Draft(7, None, false, "g", 10, "CNY", "1", 0)))
  {
    NewOrderNormalises();
    hide TrimSpace, ToLower, CreateMethod, Channel, NonBlank, EqualFold, OrderTotal;
  }

  lemma BeginStep(w: World, req: Request, f: Flight)
    requires Read(w.db, req) == Continue(f)
    ensures Exec(w, Begin(req)) == w.(flights := w.flights + [f])
  {
    hide Read;
  }

  lemma ResumeStep(w: World, i: nat)
    requires i < |w.flights| && Launched(w.db, w.flights[i]) && Commit(w.db, w.flights[i]).1.Reply?
    ensures var w' := Exec(w, Resume(i));
            w'.db == Commit(w.db, w.flights[i]).0 && w'.flights == w.flights[..i] + w.flights[i + 1..]
  {
    hide Commit, CommitEvents;
  }

  lemma TwoInFlight(w: World, a: Request, fa: Flight, b: Request, fb: Flight)
    requires w.flights == [] && Read(w.db, a) == Continue(fa) && Read(w.db, b) == Continue(fb)
    ensures Exec(Exec(w, Begin(a)), Begin(b)) == w.(flights := [fa, fb])
  {
    hide Read, Exec;
    BeginStep(w, a, fa);
    assert w.flights + [fa] == [fa];
    BeginStep(w.(flights := [fa]), b, fb);
    assert [fa] + [fb] == [fa, fb];
  }

  /** Two flights that read the same tables, committed in the order they were read. */
  lemma RaceInOrder(w: World, a: Request, fa: Flight, b: Request, fb: Flight)
    requires w.flights == [] && Read(w.db, a) == Continue(fa) && Read(w.db, b) == Continue(fb)
    requires Launched(w.db, fa) && Commit(w.db, fa).1.Reply?
    requires var db := Commit(w.db, fa).0; Launched(db, fb) && Commit(db, fb).1.Reply?
    ensures Exec(Exec(Exec(Exec(w, Begin(a)), Begin(b)), Resume(0)), Resume(0)).db == Commit(Commit(w.db, fa).0, fb).0
  {
    hide Exec, Read, Commit, Launched;
    TwoInFlight(w, a, fa, b, fb);
    var w2 := w.(flights := [fa, fb]);
    ResumeStep(w2, 0);
    var w3 := Exec(w2, Resume(0));
    assert w3.flights == [fb];
    ResumeStep(w3, 0);
  }

  /** The same two, the later read committed first. */
  lemma RaceReversed(w: World, a: Request, fa: Flight, b: Request, fb: Flight)
    requires w.flights == [] && Read(w.db, a) == Continue(fa) && Read(w.db, b) == Continue(fb)
    requires Launched(w.db, fb) && Commit(w.db, fb).1.Reply?
    requires var db := Commit(w.db, fb).0; Launched(db, fa) && Commit(db, fa).1.Reply?
    ensures var w3 := Exec(Exec(Exec(w, Begin(a)), Begin(b)), Resume(1));
            w3.db == Commit(w.db, fb).0 && Exec(w3, Resume(0)).db == Commit(Commit(w.db, fb).0, fa).0
  {
    hide Exec, Read, Commit, Launched;
    TwoInFlight(w, a, fa, b, fb);
    var w2 := w.(flights := [fa, fb]);
    ResumeStep(w2, 1);
    var w3 := Exec(w2, Resume(1));
    assert w3.flights == [fa];
    ResumeStep(w3, 0);
  }

  lemma TopUpStep()
    ensures var w := Exec(Exec(START, Begin(TOP_UP)), Resume(0));
            w.flights == [] && w.db.orders == [] && w.db.payments == [] && BalanceOf(w.db, 7) == 20
  {
    var f := Adjusting(7, TOP_UP.movement);
    BeginStep(START, TOP_UP, f);
    TopUpCommits(TOP_UP.movement);
    hide Exec, Post, BalanceOf;
    assert START.flights + [f] == [f];
    ResumeStep(START.(flights := [f]), 0);
  }

  lemma TopUpCommits(m: Movement)
    requires m.amount == 20
    ensures var (db, r) := Post(EMPTY_DB, 7, m);
            r.Ok? && db.orders == [] && db.payments == [] && BalanceOf(db, 7) == 20
  {
  }

  const DRAFT := Draft(7, None, false, "g", 10, "CNY", "1", 0)

  lemma NewOrderCommits(db: Db)
    requires db.orders == [] && db.payments == []
    ensures var (db', r) := CommitCreate(db, DRAFT);
            && r == Ok(1) && |db'.orders| == 1 && |db'.payments| == 1 && db'.wallets == db.wallets
            && Tells(db', 1, 1, PayPending)
            && db'.orders[0].user == 7 && db'.orders[0].total == 10 && db'.orders[0].number == "1"
  {
    hide CurrencyFor;
  }

  lemma NewOrderStep(w: World)
    requires w.flights == [] && w.db.orders == [] && w.db.payments == [] && BalanceOf(w.db, 7) == 20
    ensures HasPendingOrder(Exec(Exec(w, Begin(NEW_ORDER)), Resume(0)))
  {
    hide Read, CommitCreate, Tells, Exec;
    NewOrderIsRead(w.db);
    NewOrderCommits(w.db);
    BeginStep(w, NEW_ORDER, Creating(DRAFT));
    assert w.flights + [Creating(DRAFT)] == [Creating(DRAFT)];
    ResumeStep(w.(flights := [Creating(DRAFT)]), 0);
  }

  lemma PendingOrderIsReachable()
    ensures HasPendingOrder(Run(START, PENDING_ORDER_STEPS)) && AllAssumed(PENDING_ORDER_STEPS)
  {
    hide Exec, HasPendingOrder, Run;
    TopUpStep();
    NewOrderStep(Exec(Exec(START, Begin(TOP_UP)), Resume(0)));
    RunFour(START, [], Begin(TOP_UP), Resume(0), Begin(NEW_ORDER), Resume(0));
    assert [] + [Begin(TOP_UP), Resume(0), Begin(NEW_ORDER), Resume(0)] == PENDING_ORDER_STEPS;
    EmptyRun();
  }

  lemma EmptyRun()
    ensures Run(START, []) == START
  {
  }

  lemma RunFour(w: World, steps: seq<Step>, a: Step, b: Step, c: Step, d: Step)
    ensures Run(w, steps + [a, b, c, d]) == Exec(Exec(Exec(Exec(Run(w, steps), a), b), c), d)
  {
    hide Exec, Run;
    RunThree(w, steps, a, b, c);
    RunOne(w, steps + [a, b, c], d);
    assert steps + [a, b, c, d] == steps + [a, b, c] + [d];
  }

  // ---------- charged twice ----------

  /** Two administrators charge the same pending order; both read it before either commits. */
  const DOUBLE_CHARGE := PENDING_ORDER_STEPS + [Begin(CHARGE), Begin(CHARGE), Resume(0), Resume(0)]

  lemma ChargeIsRead(db: Db, q: MarkPaidReq)
    requires HasOrder(db, q.id) && db.orders[q.id - 1].status == PendingPayment
    requires q.caller.LoggedIn? && q.caller.admin
    ensures Read(db, MarkPaid(q)) == Continue(Marking(MarkOf(q), db.orders[q.id - 1]))
  {
    hide MarkOf;
  }

  /** A charge commits whenever the wallet can bear it, whatever became of the order since. */
  lemma ChargeCommits(db: Db, m: Mark, snap: Order)
    requires HasOrder(db, m.id) && m.charge && 0 < snap.total <= BalanceOf(db, snap.user)
    ensures var (db', r) := CommitMarkPaid(db, m, snap);
            && r == Ok(m.id) && |db'.orders| == |db.orders|
            && SameIdentity(db.orders[m.id - 1], db'.orders[m.id - 1])
            && db'.orders[m.id - 1].refunded == db.orders[m.id - 1].refunded
            && BalanceOf(db', snap.user) == BalanceOf(db, snap.user) - snap.total
            && Total(db'.ledger, Purchases(snap.number)) == Total(db.ledger, Purchases(snap.number)) + 1
  {
    hide EqualFold, Written, OrderRef, CurrencyOf, TrimSpace;
    PurchaseRow(db.ledger, RowFor(db, snap.user, ChargeFor(snap)), snap.number);
  }

  lemma TwoChargesTake(w: World, q: MarkPaidReq)
    requires w.flights == [] && HasOrder(w.db, q.id) && w.db.orders[q.id - 1].status == PendingPayment
    requires q.caller.LoggedIn? && q.caller.admin && q.charge
    requires var o := w.db.orders[q.id - 1]; 0 < o.total && 2 * o.total <= BalanceOf(w.db, o.user)
    ensures var w' := Exec(Exec(Exec(Exec(w, Begin(MarkPaid(q))), Begin(MarkPaid(q))), Resume(0)), Resume(0));
            var n := w.db.orders[q.id - 1].number;
            && |w'.db.orders| == |w.db.orders| && w'.db.orders[q.id - 1].number == n
            && Total(w'.db.ledger, Purchases(n)) == Total(w.db.ledger, Purchases(n)) + 2
  {
    hide Exec, Read, Commit, Launched, CommitMarkPaid, MarkOf, BalanceOf;
    var snap := w.db.orders[q.id - 1];
    var f := Marking(MarkOf(q), snap);
    ChargeIsRead(w.db, q);
    MarkingCommits(w.db, f.mark, snap);
    MarkingCommits(Commit(w.db, f).0, f.mark, snap);
    RaceInOrder(w, MarkPaid(q), f, MarkPaid(q), f);
    ChargesTakeTwice(w.db, f.mark, snap);
  }

  lemma MarkingCommits(db: Db, m: Mark, snap: Order)
    ensures var f := Marking(m, snap);
            Launched(db, f) && Commit(db, f).1.Reply? && Commit(db, f).0 == CommitMarkPaid(db, m, snap).0
  {
  }

  lemma ChargesTakeTwice(db: Db, m: Mark, snap: Order)
    requires HasOrder(db, m.id) && m.charge && 0 < snap.total && 2 * snap.total <= BalanceOf(db, snap.user)
    ensures var db' := CommitMarkPaid(CommitMarkPaid(db, m, snap).0, m, snap).0;
            && |db'.orders| == |db.orders| && db'.orders[m.id - 1].number == db.orders[m.id - 1].number
            && Total(db'.ledger, Purchases(snap.number)) == Total(db.ledger, Purchases(snap.number)) + 2
  {
    hide CommitMarkPaid, BalanceOf;
    ChargeCommits(db, m, snap);
    ChargeCommits(CommitMarkPaid(db, m, snap).0, m, snap);
  }

  /** So an interleaved run can charge one order twice, which no serial run can. */
  lemma RunCanChargeTwice()
    ensures AllAssumed(DOUBLE_CHARGE)
    ensures var db := Run(START, DOUBLE_CHARGE).db;
            |db.orders| == 1 && Total(db.ledger, Purchases(db.orders[0].number)) == 2
  {
    PendingOrderIsReachable();
    hide Run, Exec, Inv, FlightOk;
    var w := Run(START, PENDING_ORDER_STEPS);
    RunFour(START, PENDING_ORDER_STEPS, Begin(CHARGE), Begin(CHARGE), Resume(0), Resume(0));
    TwoChargesTake(w, CHARGE.mark);
    EveryRunKeeps(PENDING_ORDER_STEPS);
    PendingIsUncharged(w.db, 0);
  }

  /** A charge is the order's only one exactly when, at its commit, the ledger holds no earlier one. */
  lemma ChargeIsOnlyOneIff(db: Db, m: Mark, snap: Order)
    requires Inv(db) && FlightOk(db, Marking(m, snap)) && Charges(m, snap)
    requires CommitMarkPaid(db, m, snap).1.Ok?
    ensures var after := Total(CommitMarkPaid(db, m, snap).0.ledger, Purchases(snap.number));
            after <= 1 <==> forall k | 0 <= k < |db.ledger| ::
              !(db.ledger[k].reference == OrderRef(snap.number) && db.ledger[k].kind == PURCHASE)
  {
    hide Inv, MarkedPaid, OrderRef, CurrencyOf, TrimSpace, EqualFold;
    PurchaseRow(db.ledger, RowFor(db, snap.user, ChargeFor(snap)), snap.number);
    CountsAreOrdered(db.ledger, snap.number);
    NoPurchaseIff(db.ledger, snap.number);
  }

  lemma {:induction false} NoPurchaseIff(l: seq<Entry>, n: string)
    ensures Total(l, Purchases(n)) <= 0
            <==> forall k | 0 <= k < |l| :: !(l[k].reference == OrderRef(n) && l[k].kind == PURCHASE)
  {
    hide OrderRef;
    if l == [] {
    } else {
      var rest := l[..|l| - 1];
      NoPurchaseIff(rest, n);
      CountsAreOrdered(rest, n);
      assert forall k | 0 <= k < |rest| :: l[k] == rest[k];
    }
  }

  // ---------- a failure over a success ----------

  /** Both callbacks read the pending payment; the success commits first, the failure last. */
  const STALE_FAILURE := PENDING_ORDER_STEPS
                         + [Begin(CallbackOf("failed")), Begin(CallbackOf("succeeded")), Resume(1), Resume(0)]

  lemma CallbackIsRead(db: Db, q: CallbackReq)
    requires q.id > 0 && q.paymentId > 0 && Tells(db, q.id, q.paymentId, PayPending) && CallbackStatus(q).Some?
    ensures Read(db, Callback(q)) == Continue(Calling(NoticeOf(q, CallbackStatus(q).value)))
  {
    hide CallbackStatus, NoticeOf;
  }

  lemma StatusWords()
    ensures CallbackStatus(CallbackOf("failed").callback) == Some(PayFailed)
    ensures CallbackStatus(CallbackOf("succeeded").callback) == Some(PaySucceeded)
  {
    hide TrimSpace, ToLower;
    LowerWordIsItself("failed");
    LowerWordIsItself("succeeded");
    assert |"failed"| != |"succeeded"|;
  }

  /** So an interleaved run can take a payment from succeeded back to failed, and its order with it. */
  lemma RunCanLoseASuccess()
    ensures AllAssumed(STALE_FAILURE)
    ensures var before, after := Run(START, STALE_FAILURE[..|STALE_FAILURE| - 1]).db, Run(START, STALE_FAILURE).db;
            Tells(before, 1, 1, PaySucceeded) && Tells(after, 1, 1, PayFailed)
  {
    PendingOrderIsReachable();
    StatusWords();
    hide Run, Exec, CallbackStatus;
    var w := Run(START, PENDING_ORDER_STEPS);
    var failed, succeeded := CallbackOf("failed"), CallbackOf("succeeded");
    StaleFailureLast(w, failed.callback, succeeded.callback);
    RunThree(START, PENDING_ORDER_STEPS, Begin(failed), Begin(succeeded), Resume(1));
    RunFour(START, PENDING_ORDER_STEPS, Begin(failed), Begin(succeeded), Resume(1), Resume(0));
    assert STALE_FAILURE[..|STALE_FAILURE| - 1] == PENDING_ORDER_STEPS + [Begin(failed), Begin(succeeded), Resume(1)];
  }

  lemma StaleFailureLast(w: World, qf: CallbackReq, qs: CallbackReq)
    requires w.flights == [] && Tells(w.db, 1, 1, PayPending)
    requires qf.id == qf.paymentId == qs.id == qs.paymentId == 1
    requires CallbackStatus(qf) == Some(PayFailed) && CallbackStatus(qs) == Some(PaySucceeded)
    ensures var w3 := Exec(Exec(Exec(w, Begin(Callback(qf))), Begin(Callback(qs))), Resume(1));
            Tells(w3.db, 1, 1, PaySucceeded) && Tells(Exec(w3, Resume(0)).db, 1, 1, PayFailed)
  {
    CallbackIsRead(w.db, qf);
    CallbackIsRead(w.db, qs);
    var ff, fs := Calling(NoticeOf(qf, PayFailed)), Calling(NoticeOf(qs, PaySucceeded));
    assert ff.notice.id == ff.notice.paymentId == fs.notice.id == fs.notice.paymentId == 1;
    hide Exec, Read, Commit, Launched, CommitCallback, Tells, CallbackStatus, NoticeOf;
    NoticeCommits(w.db, fs.notice, PayPending);
    NoticeCommits(Commit(w.db, fs).0, ff.notice, PaySucceeded);
    RaceReversed(w, Callback(qf), ff, Callback(qs), fs);
  }

  lemma NoticeCommits(db: Db, n: Notice, s: PayStatus)
    requires Tells(db, n.id, n.paymentId, s) && n.status != PayPending
    ensures var f := Calling(n);
            Launched(db, f) && Commit(db, f).1.Reply? && Tells(Commit(db, f).0, n.id, n.paymentId, n.status)
  {
  }

  // ---------- a payment at odds with its order ----------

  const MARK := MarkPaid(MarkPaidReq(LoggedIn(1, true), 1, "", false, "", None, 0))

  /** The order is read as pending and marked paid by hand after the gateway's failure has come in. */
  const OVERRIDDEN_FAILURE := PENDING_ORDER_STEPS
                              + [Begin(MARK), Begin(CallbackOf("failed")), Resume(1), Resume(0)]

  lemma MarkCommits(db: Db, m: Mark, snap: Order)
    requires HasOrder(db, m.id) && !m.charge
    ensures var (db', r) := CommitMarkPaid(db, m, snap);
            && r == Ok(m.id) && db'.payments == db.payments && |db'.orders| == |db.orders|
            && db'.orders[m.id - 1].payStatus == PaySucceeded && db'.orders[m.id - 1].status == Paid
  {
    hide EqualFold, Written;
  }

  lemma MarkAfterFailure(w: World, qm: MarkPaidReq, qc: CallbackReq)
    requires w.flights == [] && Tells(w.db, 1, 1, PayPending)
    requires qm.id == qc.id == qc.paymentId == 1 && CallbackStatus(qc) == Some(PayFailed)
    requires qm.caller.LoggedIn? && qm.caller.admin && !qm.charge
    ensures var db := Exec(Exec(Exec(Exec(w, Begin(MarkPaid(qm))), Begin(Callback(qc))), Resume(1)), Resume(0)).db;
            && HasOrder(db, 1) && HasPayment(db, 1) && db.payments[0].order == 1
            && db.payments[0].status == PayFailed && db.orders[0].payStatus == PaySucceeded
  {
    ChargeIsRead(w.db, qm);
    CallbackIsRead(w.db, qc);
    var fm, fc := Marking(MarkOf(qm), w.db.orders[0]), Calling(NoticeOf(qc, PayFailed));
    assert fc.notice.id == fc.notice.paymentId == 1 && fc.notice.status == PayFailed;
    assert fm.mark.id == 1 && !fm.mark.charge;
    hide Exec, Read, Commit, Launched, CommitCallback, CommitMarkPaid, CallbackStatus, NoticeOf, MarkOf;
    NoticeCommits(w.db, fc.notice, PayPending);
    var db := Commit(w.db, fc).0;
    MarkingCommits(db, fm.mark, fm.snap);
    MarkCommits(db, fm.mark, fm.snap);
    RaceReversed(w, MarkPaid(qm), fm, Callback(qc), fc);
  }

  lemma BlankIsNotBalance()
    ensures !EqualFold(TrimSpace(""), BALANCE)
  {
    assert |ToLower("")| != |ToLower(BALANCE)|;
  }

  /** So an interleaved run can leave a failed payment under an order that counts as paid. */
  lemma RunCanOverrideAFailure()
    ensures AllAssumed(OVERRIDDEN_FAILURE)
    ensures var db := Run(START, OVERRIDDEN_FAILURE).db;
            && HasOrder(db, 1) && HasPayment(db, 1) && db.payments[0].order == 1
            && db.payments[0].status == PayFailed && db.orders[0].payStatus == PaySucceeded
            && !PaymentsAgree(db.orders, db.payments)
  {
    PendingOrderIsReachable();
    StatusWords();
    BlankIsNotBalance();
    hide Run, Exec, CallbackStatus, EqualFold, TrimSpace;
    var failed := CallbackOf("failed");
    MarkAfterFailure(Run(START, PENDING_ORDER_STEPS), MARK.mark, failed.callback);
    RunFour(START, PENDING_ORDER_STEPS, Begin(MARK), Begin(failed), Resume(1), Resume(0));
  }

  // ---------- cancelled after a charge ----------

  const CANCEL := Cancel(CancelReq(LoggedIn(7, false), false, 1, None, 0))

  /** The user's cancellation reads the order while it is pending and commits after it was charged. */
  const CANCELLED_CHARGE := PENDING_ORDER_STEPS + [Begin(CHARGE), Begin(CANCEL), Resume(0), Resume(0)]

  lemma CancelIsRead(db: Db, q: CancelReq)
    requires HasOrder(db, q.id) && db.orders[q.id - 1].status == PendingPayment
    requires q.caller.LoggedIn? && !q.byAdmin && db.orders[q.id - 1].user == q.caller.id
    ensures Read(db, Cancel(q)) == Continue(Cancelling(q.id, q.now))
  {
    hide ReadCreate, ReadMarkPaid, ReadRefund, ReadCallback, PickTime;
  }

  lemma CancelCommits(db: Db, id: nat, at: int)
    requires HasOrder(db, id)
    ensures var f := Cancelling(id, at);
            && Launched(db, f) && Commit(db, f).1.Reply? && Commit(db, f).0.ledger == db.ledger
            && Commit(db, f).0.orders == db.orders[id - 1 := CancelledOrder(db.orders[id - 1], at)]
  {
    hide CommitCreate, CommitMarkPaid, CommitRefund, CommitCallback, Post;
  }

  lemma CancelAfterCharge(w: World, qm: MarkPaidReq, qc: CancelReq)
    requires w.flights == [] && HasOrder(w.db, qm.id) && w.db.orders[qm.id - 1].status == PendingPayment
    requires qm.caller.LoggedIn? && qm.caller.admin && qm.charge && qc.id == qm.id
    requires qc.caller.LoggedIn? && !qc.byAdmin && w.db.orders[qm.id - 1].user == qc.caller.id
    requires var o := w.db.orders[qm.id - 1]; 0 < o.total <= BalanceOf(w.db, o.user)
    ensures var db := Exec(Exec(Exec(Exec(w, Begin(MarkPaid(qm))), Begin(Cancel(qc))), Resume(0)), Resume(0)).db;
            var n := w.db.orders[qm.id - 1].number;
            && |db.orders| == |w.db.orders|
            && db.orders[qm.id - 1].status == Cancelled && SameIdentity(w.db.orders[qm.id - 1], db.orders[qm.id - 1])
            && db.orders[qm.id - 1].refunded == w.db.orders[qm.id - 1].refunded
            && Total(db.ledger, Purchases(n)) == Total(w.db.ledger, Purchases(n)) + 1
  {
    var snap := w.db.orders[qm.id - 1];
    var fm, fc := Marking(MarkOf(qm), snap), Cancelling(qc.id, qc.now);
    ChargeIsRead(w.db, qm);
    CancelIsRead(w.db, qc);
    hide Exec, Read, Commit, Launched, CommitMarkPaid, MarkOf, BalanceOf;
    MarkingCommits(w.db, fm.mark, snap);
    ChargeCommits(w.db, fm.mark, snap);
    CancelCommits(Commit(w.db, fm).0, qc.id, qc.now);
    RaceInOrder(w, MarkPaid(qm), fm, Cancel(qc), fc);
  }

  /** So an interleaved run can cancel an order, keep its charge and pay nothing back. */
  lemma RunCanCancelACharge()
    ensures AllAssumed(CANCELLED_CHARGE)
    ensures var db := Run(START, CANCELLED_CHARGE).db;
            && |db.orders| == 1 && db.orders[0].status == Cancelled && db.orders[0].refunded == 0
            && Total(db.ledger, Purchases(db.orders[0].number)) == 1
            && !CancelledIsSquare(db.orders, db.ledger)
  {
    PendingOrderIsReachable();
    hide Run, Exec, Inv, FlightOk, Total;
    var w := Run(START, PENDING_ORDER_STEPS);
    RunFour(START, PENDING_ORDER_STEPS, Begin(CHARGE), Begin(CANCEL), Resume(0), Resume(0));
    CancelAfterCharge(w, CHARGE.mark, CANCEL.cancel);
    EveryRunKeeps(PENDING_ORDER_STEPS);
    PendingIsUncharged(w.db, 0);
    var db := Run(START, CANCELLED_CHARGE).db;
    EveryRunKeeps(CANCELLED_CHARGE);
    AmountOfOrder(db, 0);
  }

  // ---------- why marking with the wallet needs its charge ----------

  /**
    Marking keeps an order's money sound exactly when it charges, or has nothing to charge,
    or does not name the wallet, or follows an earlier charge.
   */
  lemma MarkingIsSoundIff(db: Db, m: Mark, snap: Order)
    requires Inv(db) && HasOrder(db, m.id) && SameIdentity(snap, db.orders[m.id - 1])
    requires CommitMarkPaid(db, m, snap).1.Ok?
    ensures var db' := CommitMarkPaid(db, m, snap).0;
            MoneyOk(db'.orders[m.id - 1], m.id, db'.refunds, db'.ledger)
            <==> m.charge || snap.total == 0 || !EqualFold(m.payMethod, BALANCE)
                 || Total(db.ledger, Purchases(snap.number)) >= 1
  {
    hide LedgerOk, RowsAttributed, KeysUnique, PaymentsOk, StatusOk, MoneyOk, OrderRef, CurrencyOf, TrimSpace,
      EqualFold, Accepts, MarkedPaid;
    var o := db.orders[m.id - 1];
    assert OrderOk(o, m.id, db.refunds, db.ledger);
    TotalIsNonNegative(o, m.id, db.refunds, db.ledger);
    if Charges(m, snap) {
      ChargedIsSound(o, m, m.id, db.refunds, db.ledger, RowFor(db, snap.user, ChargeFor(snap)));
    } else {
      MarkedIsSoundIff(o, m, m.id, db.refunds, db.ledger);
    }
  }

  lemma ChargedIsSound(o: Order, m: Mark, id: nat, refunds: seq<RefundRow>, l: seq<Entry>, row: Entry)
    requires MoneyOk(o, id, refunds, l) && row.kind == PURCHASE && row.reference == OrderRef(o.number)
    ensures MoneyOk(MarkedPaid(o, m), id, refunds, l + [row])
  {
    hide EqualFold, OrderRef, Written;
    PurchaseRow(l, row, o.number);
    CountsAreOrdered(l, o.number);
  }

  lemma MarkedIsSoundIff(o: Order, m: Mark, id: nat, refunds: seq<RefundRow>, l: seq<Entry>)
    requires MoneyOk(o, id, refunds, l)
    ensures MoneyOk(MarkedPaid(o, m), id, refunds, l)
            <==> o.total == 0 || !EqualFold(m.payMethod, BALANCE) || Total(l, Purchases(o.number)) >= 1
  {
    hide ToLower, Written;
    assert !EqualFold("", BALANCE) by { assert |ToLower("")| != |ToLower(BALANCE)|; }
  }
}

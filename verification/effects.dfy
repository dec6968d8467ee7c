/**
  What each request answers and writes, said of the request as it came in.  A request is read
  on some tables and committed on any later ones, so every result holds whatever happened in
  between.  No column below is named through the functions that compute it.
 */
module Effects {
  import opened Options
  import opened Text
  import opened Tables
  import opened Ledger
  import opened Billing
  import opened Invariants
  import opened Transactions

  /** A client's time counts when it is positive. */
  predicate TimeIs(t: Option<int>, given: Option<int>, now: int) {
    if given.Some? && given.value > 0 then t == given else t == Some(now)
  }

  /** A client's text is trimmed; a blank one leaves the column alone. */
  predicate TextIs(column: string, given: string, before: string) {
    if TrimSpace(given) != "" then column == TrimSpace(given) else column == before
  }

  predicate IsAdmin(c: Caller) { c.LoggedIn? && c.admin }

  /** Neither wallets nor ledger moved. */
  predicate NoMoney(db: Db, db': Db) { db'.wallets == db.wallets && db'.ledger == db.ledger }

  lemma BalanceIsSolvent(db: Db, user: nat)
    requires LedgerOk(db.wallets, db.ledger)
    ensures 0 <= BalanceOf(db, user)
  {
    if user in db.wallets { assert WalletOk(db.wallets[user], user, db.ledger); }
  }

  /** A transaction that took over an appended row has posted it. */
  lemma PostedShows(db: Db, user: nat, m: Movement, db': Db)
    requires Accepts(db, user, m)
    ensures var posted := Append(db, RowFor(db, user, m));
            db'.ledger == posted.ledger && db'.wallets == posted.wallets ==>
              Posted(db, db', user, m.kind, m.amount, m.currency, m.reference)
  {
    hide RowFor, CurrencyIs, Accepts;
    AppendPosts(db, user, m);
  }

  // ---------- marking paid ----------

  lemma MarkPaidReads(db: Db, q: MarkPaidReq)
    ensures var out := Read(db, MarkPaid(q));
            && (out == Reply(Err(Unauthorized)) <==> q.caller.Anonymous?)
            && (out == Reply(Err(Forbidden)) <==> q.caller.LoggedIn? && !q.caller.admin)
            && (out == Reply(Err(NotFound)) <==> IsAdmin(q.caller) && !HasOrder(db, q.id))
            && (out == Reply(Ok(q.id)) <==>
                IsAdmin(q.caller) && HasOrder(db, q.id) && db.orders[q.id - 1].status == Paid)
            && (out.Continue? <==>
                IsAdmin(q.caller) && HasOrder(db, q.id) && db.orders[q.id - 1].status == PendingPayment)
            && (out.Reply? && out.result.Ok? ==> out.result.value == q.id)
            && (out.Reply? && out.result.Err? ==>
                  out.result.error in {Unauthorized, Forbidden, NotFound, InvalidArgument})
  {
    hide MarkOf;
  }

  /** The order is paid now, under the method, reference and time that were asked for. */
  predicate MarkedIs(o: Order, o': Order, q: MarkPaidReq) {
    && o' == o.(payStatus := PaySucceeded, status := Paid,
                paidAt := o'.paidAt, payReference := o'.payReference, payMethod := o'.payMethod)
    && TimeIs(o'.paidAt, q.paidAt, q.now)
    && TextIs(o'.payReference, q.reference, o.payReference)
    && var wanted := if q.charge then "balance" else TrimSpace(q.payMethod);
       o'.payMethod == if wanted == "" || EqualFold(o.payMethod, wanted) then o.payMethod else wanted
  }

  lemma MarkedColumns(o: Order, q: MarkPaidReq)
    ensures MarkedIs(o, MarkedPaid(o, MarkOf(q)), q)
  {
    hide TrimSpace, EqualFold;
  }

  /** The order is marked, a charge takes its total, and nothing else moves. */
  ghost predicate Marks(db: Db, db': Db, q: MarkPaidReq) {
    && HasOrder(db, q.id) && HasOrder(db', q.id)
    && var o, o' := db.orders[q.id - 1], db'.orders[q.id - 1];
    && db' == db.(orders := db.orders[q.id - 1 := o'], wallets := db'.wallets, ledger := db'.ledger)
    && MarkedIs(o, o', q)
    && if q.charge && o.total > 0 then
         Posted(db, db', o.user, "purchase", -o.total,
                if TrimSpace(o.currency) == "" then "CNY" else o.currency, "order:" + o.number)
       else NoMoney(db, db')
  }

  lemma MarkPaidCommits(was: Db, db: Db, q: MarkPaidReq)
    requires Inv(was) && Inv(db) && Extends(was, db) && Read(was, MarkPaid(q)).Continue?
    ensures var f := Read(was, MarkPaid(q)).flight;
            && Launched(db, f) && HasOrder(db, q.id)
            && var (db', out) := Commit(db, f);
            if q.charge && BalanceOf(db, db.orders[q.id - 1].user) < db.orders[q.id - 1].total
            then out == Reply(Err(InsufficientBalance)) && db' == db
            else out == Reply(Ok(q.id)) && Marks(db, db', q)
  {
    hide LedgerOk, RowsAttributed, KeysUnique, PaymentsOk, OrderOk, OrderRef, TrimSpace, RowFor, Append, CurrencyOf,
      Posted, MarkedPaid, MarkedIs, ReadCreate, ReadRefund, ReadCallback, ReadCancel, EqualFold, NonBlank, PickTime;
    var snap, o := was.orders[q.id - 1], db.orders[q.id - 1];
    MarkedColumns(o, q);
    assert OrderGrows(snap, o);
    assert OrderOk(o, q.id, db.refunds, db.ledger);
    TotalIsNonNegative(o, q.id, db.refunds, db.ledger);
    BalanceIsSolvent(db, o.user);
    if q.charge && 0 < o.total <= BalanceOf(db, o.user) {
      AppendPosts(db, o.user, ChargeFor(snap));
      PostedShows(db, o.user, ChargeFor(snap), Commit(db, Read(was, MarkPaid(q)).flight).0);
    }
    OrderRefText(o.number);
  }

  lemma OrderRefText(number: string)
    ensures OrderRef(number) == "order:" + number
  {
  }

  // ---------- refunding ----------

  lemma RefundReads(db: Db, q: RefundReq)
    requires Inv(db)
    ensures var out := Read(db, Request.Refund(q));
            && (out == Reply(Err(Unauthorized)) <==> q.caller.Anonymous?)
            && (out == Reply(Err(Forbidden)) <==> q.caller.LoggedIn? && !q.caller.admin)
            && (out == Reply(Err(NotFound)) <==> IsAdmin(q.caller) && q.amount > 0 && !HasOrder(db, q.id))
            && (out.Continue? <==>
                && IsAdmin(q.caller) && HasOrder(db, q.id)
                && var o := db.orders[q.id - 1];
                EqualFold(o.payMethod, "balance") && 0 < q.amount <= o.total - o.refunded)
            && (out.Reply? ==>
                  out.result.Err? && out.result.error in {Unauthorized, Forbidden, NotFound, InvalidArgument})
  {
    hide LedgerOk, RowsAttributed, KeysUnique, PaymentsOk, OrderOk, EqualFold;
    if HasOrder(db, q.id) {
      assert OrderOk(db.orders[q.id - 1], q.id, db.refunds, db.ledger);
      TotalIsNonNegative(db.orders[q.id - 1], q.id, db.refunds, db.ledger);
    }
  }

  /** The amount moves to the wallet, onto the order and into a refund row, and the status says how far that went. */
  ghost predicate Refunds(db: Db, db': Db, q: RefundReq) {
    && HasOrder(db, q.id)
    && var o := db.orders[q.id - 1];
    && var sum := o.refunded + q.amount;
    && 0 < q.amount && sum <= o.total
    && db'.orders == db.orders[q.id - 1 :=
         o.(refunded := sum, refundedAt := Some(q.now),
            status := if sum == o.total then Tables.Refunded else PartiallyRefunded)]
    && db'.refunds == db.refunds + [RefundRow(q.id, q.amount, "order:" + o.number)]
    && db'.payments == db.payments
    && Posted(db, db', o.user, "refund", q.amount, o.currency, "order:" + o.number)
  }

  lemma RefundCommits(was: Db, db: Db, q: RefundReq)
    requires Inv(was) && Inv(db) && Extends(was, db) && Read(was, Request.Refund(q)).Continue?
    ensures var f := Read(was, Request.Refund(q)).flight;
            && Launched(db, f) && HasOrder(db, q.id)
            && var (db', out) := Commit(db, f);
            var o := db.orders[q.id - 1];
            if BalanceOf(db, o.user) + q.amount > MAX_INT64
            then out == Reply(Err(InsufficientBalance)) && db' == db
            else if q.amount > o.total - o.refunded then out == Reply(Err(InvalidArgument)) && db' == db
            else out == Reply(Ok(q.id)) && Refunds(db, db', q)
  {
    hide LedgerOk, RowsAttributed, KeysUnique, PaymentsOk, OrderOk, OrderRef, EqualFold, RowFor, Append, CurrencyOf,
      Posted;
    var snap, o := was.orders[q.id - 1], db.orders[q.id - 1];
    assert OrderGrows(snap, o);
    assert OrderOk(o, q.id, db.refunds, db.ledger);
    TotalIsNonNegative(o, q.id, db.refunds, db.ledger);
    BalanceIsSolvent(db, o.user);
    var credit := CreditFor(Credit(q.id, q.amount, q.now), snap);
    if Accepts(db, o.user, credit) {
      AppendPosts(db, o.user, credit);
      PostedShows(db, o.user, credit, Commit(db, Read(was, Request.Refund(q)).flight).0);
    }
    OrderRefText(o.number);
  }

  // ---------- gateway callbacks ----------

  /** The gateway's word for a status, in any case and with white space around it. */
  function Word(q: CallbackReq): string { TrimSpace(ToLower(q.status)) }

  lemma CallbackReads(db: Db, q: CallbackReq)
    ensures var out := Read(db, Callback(q));
            var known := q.id != 0 && q.paymentId != 0 && Word(q) in {"succeeded", "failed"};
            var found := HasOrder(db, q.id) && HasPayment(db, q.paymentId)
                         && db.payments[q.paymentId - 1].order == q.id;
            && (out == Reply(Err(InvalidArgument)) <==> !known)
            && (out == Reply(Err(NotFound)) <==> known && !found)
            && (out == Reply(Ok(q.id)) <==>
                known && found
                && db.payments[q.paymentId - 1].status == (if Word(q) == "failed" then PayFailed else PaySucceeded))
            && (out == Reply(Err(InvalidState)) <==>
                known && found && db.payments[q.paymentId - 1].status == PaySucceeded && Word(q) == "failed")
            && (out.Reply? && out.result.Ok? ==> out.result.value == q.id)
            && (out.Reply? && out.result.Err? ==> out.result.error in {InvalidArgument, NotFound, InvalidState})
  {
    hide TrimSpace, ToLower, NoticeOf;
  }

  /** The payment takes the announced status and the texts that came with it. */
  predicate NotedPayment(p: Payment, p': Payment, q: CallbackReq) {
    && p' == p.(status := if Word(q) == "failed" then PayFailed else PaySucceeded,
                reference := p'.reference, failureCode := p'.failureCode, failureMessage := p'.failureMessage)
    && TextIs(p'.reference, q.reference, p.reference)
    && TextIs(p'.failureCode, q.failureCode, p.failureCode)
    && TextIs(p'.failureMessage, q.failureMessage, p.failureMessage)
  }

  /** The order fails with the gateway's reasons, or is paid under its reference at its time. */
  predicate NotedOrder(o: Order, o': Order, q: CallbackReq) {
    if Word(q) == "failed" then
      && o' == o.(payStatus := PayFailed, status := PaymentFailed,
                  failureCode := o'.failureCode, failureReason := o'.failureReason)
      && TextIs(o'.failureCode, q.failureCode, o.failureCode)
      && TextIs(o'.failureReason, q.failureMessage, o.failureReason)
    else
      && o' == o.(payStatus := PaySucceeded, status := Paid, paidAt := o'.paidAt, payReference := o'.payReference)
      && TimeIs(o'.paidAt, q.paidAt, q.now)
      && TextIs(o'.payReference, q.reference, o.payReference)
  }

  lemma NotedColumns(o: Order, p: Payment, q: CallbackReq)
    requires CallbackStatus(q).Some?
    ensures var n := NoticeOf(q, CallbackStatus(q).value);
            NotedOrder(o, CalledOrder(o, n), q) && NotedPayment(p, CalledPayment(p, n), q)
  {
    hide TrimSpace, ToLower;
  }

  /** Both rows move together and nothing else does. */
  ghost predicate Notes(db: Db, db': Db, q: CallbackReq) {
    && HasOrder(db, q.id) && HasPayment(db, q.paymentId) && HasOrder(db', q.id) && HasPayment(db', q.paymentId)
    && var o, o' := db.orders[q.id - 1], db'.orders[q.id - 1];
    && var p, p' := db.payments[q.paymentId - 1], db'.payments[q.paymentId - 1];
    && db' == db.(orders := db.orders[q.id - 1 := o'], payments := db.payments[q.paymentId - 1 := p'])
    && NotedOrder(o, o', q) && NotedPayment(p, p', q)
  }

  lemma CallbackCommits(was: Db, db: Db, q: CallbackReq)
    requires Extends(was, db) && Read(was, Callback(q)).Continue?
    ensures var f := Read(was, Callback(q)).flight;
            && Launched(db, f)
            && var (db', out) := Commit(db, f);
            out == Reply(Ok(q.id)) && Notes(db, db', q)
  {
    hide CallbackStatus, NoticeOf, CalledOrder, CalledPayment, NotedOrder, NotedPayment, ReadCreate, ReadMarkPaid,
      ReadRefund, ReadCancel;
    NoticeIds(q, CallbackStatus(q).value);
    assert OrderGrows(was.orders[q.id - 1], db.orders[q.id - 1]);
    NotedColumns(db.orders[q.id - 1], db.payments[q.paymentId - 1], q);
  }

  lemma NoticeIds(q: CallbackReq, status: PayStatus)
    ensures NoticeOf(q, status).id == q.id && NoticeOf(q, status).paymentId == q.paymentId
  {
  }

  // ---------- cancelling ----------

  lemma CancelReads(db: Db, q: CancelReq)
    requires Inv(db)
    ensures var out := Read(db, Cancel(q));
            var named := q.caller.LoggedIn? && (q.byAdmin ==> q.caller.admin);
            && (out == Reply(Err(Unauthorized)) <==> q.caller.Anonymous?)
            && (out == Reply(Err(Forbidden)) <==>
                q.caller.LoggedIn? && if q.byAdmin then !q.caller.admin
                                      else HasOrder(db, q.id) && db.orders[q.id - 1].user != q.caller.id)
            && (out == Reply(Err(NotFound)) <==> named && !HasOrder(db, q.id))
            && (out == Reply(Ok(q.id)) <==>
                && named && HasOrder(db, q.id) && (q.byAdmin || db.orders[q.id - 1].user == q.caller.id)
                && db.orders[q.id - 1].status == Cancelled)
            && (out.Continue? <==>
                && named && HasOrder(db, q.id) && (q.byAdmin || db.orders[q.id - 1].user == q.caller.id)
                && var o := db.orders[q.id - 1];
                (o.status == PendingPayment
                 || (o.status == Paid && (o.total == 0 || (q.byAdmin && o.refunded == o.total)))))
            && (out.Reply? && out.result.Ok? ==> out.result.value == q.id)
            && (out.Reply? && out.result.Err? ==>
                  out.result.error in {Unauthorized, Forbidden, NotFound, InvalidArgument})
  {
    hide LedgerOk, RowsAttributed, KeysUnique, PaymentsOk, OrderOk, PickTime;
    if HasOrder(db, q.id) {
      assert OrderOk(db.orders[q.id - 1], q.id, db.refunds, db.ledger);
      TotalIsNonNegative(db.orders[q.id - 1], q.id, db.refunds, db.ledger);
    }
  }

  /** The order is cancelled, at the administrator's time if one was given; nothing else moves. */
  ghost predicate Cancels(db: Db, db': Db, q: CancelReq) {
    && HasOrder(db, q.id) && HasOrder(db', q.id)
    && var o, o' := db.orders[q.id - 1], db'.orders[q.id - 1];
    && db' == db.(orders := db.orders[q.id - 1 := o'])
    && o' == o.(status := Cancelled, cancelledAt := o'.cancelledAt)
    && TimeIs(o'.cancelledAt, if q.byAdmin then q.cancelledAt else None, q.now)
  }

  lemma CancelCommits(was: Db, db: Db, q: CancelReq)
    requires Extends(was, db) && Read(was, Cancel(q)).Continue?
    ensures var f := Read(was, Cancel(q)).flight;
            && Launched(db, f)
            && var (db', out) := Commit(db, f);
            out == Reply(Ok(q.id)) && Cancels(db, db', q)
  {
  }

  // ---------- creating ----------

  function Method(q: CreateReq): string { TrimSpace(ToLower(q.payMethod)) }

  /** The wallet pays unless the client says otherwise. */
  predicate FromBalance(q: CreateReq) { Method(q) in {"", "balance"} }

  /** An order of the client's that carries the key of the request. */
  predicate CarriesKey(o: Order, q: CreateReq) {
    q.caller.LoggedIn? && o.user == q.caller.id && o.key == Some(TrimSpace(q.key))
  }

  predicate KeyIsUsed(db: Db, q: CreateReq) {
    TrimSpace(q.key) != "" && exists i :: 0 <= i < |db.orders| && CarriesKey(db.orders[i], q)
  }

  /** The checks up to the plan. */
  predicate Proceeds(db: Db, q: CreateReq) {
    && Method(q) in {"", "balance", "external"}
    && q.caller.LoggedIn?
    && (TrimSpace(q.key) != "" ==> q.caller.id != 0)
    && !KeyIsUsed(db, q)
  }

  predicate Orderable(q: CreateReq) {
    && q.planId != 0 && q.plan.Some? && q.plan.value.visible && ToLower(q.plan.value.status) == "active"
    && (FromBalance(q) || q.plan.value.price == 0 || TrimSpace(ToLower(q.channel)) != "")
  }

  lemma CreateReads(db: Db, q: CreateReq)
    requires Inv(db) && Assumed(Create(q))
    ensures var out := Read(db, Create(q));
            && (out == Reply(Err(Unauthorized)) <==> Method(q) in {"", "balance", "external"} && q.caller.Anonymous?)
            && (out == Reply(Err(NotFound)) <==> Proceeds(db, q) && q.planId != 0 && q.plan.None?)
            && (out.Continue? <==> Proceeds(db, q) && Orderable(q))
            && (out.Reply? && out.result.Err? ==> out.result.error in {Unauthorized, NotFound, InvalidArgument})
            && forall id :: out == Reply(Ok(id)) <==>
                 && Method(q) in {"", "balance", "external"}
                 && TrimSpace(q.key) != "" && q.caller.LoggedIn? && q.caller.id != 0
                 && HasOrder(db, id) && CarriesKey(db.orders[id - 1], q)
  {
    hide LedgerOk, RowsAttributed, PaymentsOk, OrdersOk, TrimSpace, ToLower, FindKey;
    ActiveWord(q);
    if q.plan.Some? { TotalOfPlan(q.plan.value, q.quantity); }
  }

  lemma ActiveWord(q: CreateReq)
    ensures q.plan.Some? ==> (EqualFold(q.plan.value.status, "active") <==> ToLower(q.plan.value.status) == "active")
  {
    assert ToLower("active") == "active";
  }

  lemma TotalOfPlan(plan: Plan, quantity: int)
    requires PriceOk(plan)
    ensures TotalIs(OrderTotal(plan, quantity), plan.price, quantity)
    ensures OrderTotal(plan, quantity) >= 0 && (OrderTotal(plan, quantity) == 0 <==> plan.price == 0)
  {
  }

  /** The plan's currency, or the wallet's, or CNY. */
  predicate OrderCurrencyIs(currency: string, db: Db, user: nat, plan: Plan) {
    if TrimSpace(plan.currency) != "" then currency == TrimSpace(plan.currency)
    else if user in db.wallets && TrimSpace(db.wallets[user].currency) != "" then
      currency == TrimSpace(db.wallets[user].currency)
    else currency == "CNY"
  }

  /** What a create carries from its read to its transaction. */
  predicate DraftIs(d: Draft, q: CreateReq) {
    && q.caller.LoggedIn? && q.plan.Some?
    && TotalIs(d.total, q.plan.value.price, q.quantity)
    && d == Draft(q.caller.id, if TrimSpace(q.key) == "" then None else Some(TrimSpace(q.key)), FromBalance(q),
                  TrimSpace(ToLower(q.channel)), d.total, TrimSpace(q.plan.value.currency), q.number, q.now)
  }

  lemma CreateDrafts(was: Db, q: CreateReq)
    requires Assumed(Create(q)) && Read(was, Create(q)).Continue?
    ensures var f := Read(was, Create(q)).flight; f.Creating? && 0 <= f.draft.total && DraftIs(f.draft, q)
  {
    hide TrimSpace, ToLower, FindKey, EqualFold, OrderTotal;
    TotalOfPlan(q.plan.value, q.quantity);
  }

  /** A new order, column by column. */
  predicate OrderIs(o: Order, db: Db, q: CreateReq) {
    && q.caller.LoggedIn? && q.plan.Some?
    && var settled := FromBalance(q) || o.total == 0;
    && TotalIs(o.total, q.plan.value.price, q.quantity)
    && OrderCurrencyIs(o.currency, db, q.caller.id, q.plan.value)
    && o == Order(q.number, q.caller.id, if TrimSpace(q.key) == "" then None else Some(TrimSpace(q.key)),
                  if settled then Paid else PendingPayment,
                  if FromBalance(q) then "balance" else "external",
                  if settled then PaySucceeded else PayPending,
                  o.total, o.currency, 0, None, if settled then Some(q.now) else None, None, "", "", "")
  }

  lemma NewOrderColumns(db: Db, d: Draft, q: CreateReq)
    requires DraftIs(d, q)
    ensures OrderIs(NewOrder(db, d), db, q)
  {
    hide TrimSpace, FromBalance, TotalIs;
    assert TrimSpace("CNY") == "CNY" by { assert Tidy("CNY"); }
  }

  /** One new order, its debit or its gateway payment, and nothing else. */
  ghost predicate Creates(db: Db, db': Db, q: CreateReq) {
    && |db'.orders| == |db.orders| + 1
    && var o := db'.orders[|db.orders|];
    && OrderIs(o, db, q)
    && db' == db.(orders := db.orders + [o], payments := db'.payments, wallets := db'.wallets, ledger := db'.ledger)
    && (var gateway := Payment(|db'.orders|, TrimSpace(ToLower(q.channel)), PayPending, o.total, "", "", "");
        db'.payments == if FromBalance(q) || o.total == 0 then db.payments else db.payments + [gateway])
    && if FromBalance(q) && o.total > 0 then
         Posted(db, db', o.user, "purchase", -o.total, o.currency, "order:" + q.number)
       else NoMoney(db, db')
  }

  /** The wallet is to pay and cannot. */
  predicate Broke(db: Db, q: CreateReq, total: int) {
    FromBalance(q) && q.caller.LoggedIn? && BalanceOf(db, q.caller.id) < total
  }

  predicate NumberIsUsed(db: Db, q: CreateReq) { exists i :: 0 <= i < |db.orders| && db.orders[i].number == q.number }

  lemma ConflictsIff(db: Db, o: Order, q: CreateReq)
    requires OrderIs(o, db, q)
    ensures Conflicts(db.orders, o) <==> NumberIsUsed(db, q) || KeyIsUsed(db, q)
  {
    hide TrimSpace, FindKey, FromBalance, TotalIs, OrderCurrencyIs;
  }

  /** A create that cannot be paid or meets its number or key changes nothing; any other makes its order. */
  ghost predicate CreateEnds(db: Db, q: CreateReq, total: int, db': Db, out: Outcome) {
    if Broke(db, q, total) then out == Reply(Err(InsufficientBalance)) && db' == db
    else if NumberIsUsed(db, q) || KeyIsUsed(db, q) then
      && db' == db
      && if TrimSpace(q.key) == "" then out == Reply(Err(Conflict))
         else out.Continue? && out.flight.Recovering? && DraftIs(out.flight.draft, q)
    else out == Reply(Ok(|db'.orders|)) && Creates(db, db', q)
  }

  /** A create goes through exactly when the wallet bears it and neither number nor key is used by then. */
  lemma CreateCommits(was: Db, db: Db, q: CreateReq, total: int)
    requires Inv(db) && Assumed(Create(q)) && Read(was, Create(q)).Continue?
    requires q.plan.Some? ==> TotalIs(total, q.plan.value.price, q.quantity)
    ensures var f := Read(was, Create(q)).flight;
            && Launched(db, f)
            && var (db', out) := Commit(db, f);
            CreateEnds(db, q, total, db', out)
  {
    hide LedgerOk, RowsAttributed, KeysUnique, PaymentsOk, OrdersOk, OrderRef, TrimSpace, ToLower, FromBalance, TotalIs,
      Read, NewOrder, Conflicts, RowFor, Append, CurrencyOf, Posted, NumberIsUsed, KeyIsUsed, OrderCurrencyIs;
    CreateDrafts(was, q);
    var d := Read(was, Create(q)).flight.draft;
    var o := NewOrder(db, d);
    NewOrderColumns(db, d, q);
    ConflictsIff(db, o, q);
    SameTotal(total, d.total, q);
    NewOrderFields(db, d);
    BalanceIsSolvent(db, d.user);
    if DebitsNow(d) && Accepts(db, o.user, DebitFor(o)) {
      AppendPosts(db, o.user, DebitFor(o));
      PostedShows(db, o.user, DebitFor(o), CommitCreate(db, d).0);
    }
    OrderRefText(q.number);
  }

  lemma SameTotal(a: int, b: int, q: CreateReq)
    requires q.plan.Some? && TotalIs(a, q.plan.value.price, q.quantity) && TotalIs(b, q.plan.value.price, q.quantity)
    ensures a == b
  {
  }

  /** The second lookup answers with the order that carries the key, or with the conflict when there is none. */
  lemma CreateRecovers(db: Db, d: Draft, q: CreateReq)
    requires Inv(db) && DraftIs(d, q) && TrimSpace(q.key) != ""
    ensures var (db', out) := Commit(db, Recovering(d));
            && db' == db
            && (out == Reply(Err(Conflict)) <==> !KeyIsUsed(db, q))
            && forall id :: out == Reply(Ok(id)) <==> HasOrder(db, id) && CarriesKey(db.orders[id - 1], q)
  {
    hide LedgerOk, RowsAttributed, PaymentsOk, OrdersOk, TrimSpace, FindKey, FromBalance, TotalIs;
  }
}

/** What each request does, what it answers and exactly when, served in one piece on any reachable tables. */
module Outcomes {
  import opened Options
  import opened Text
  import opened Tables
  import opened Ledger
  import opened Billing
  import opened Invariants
  import opened Transactions
  import opened Serial
  import opened Effects

  /** A request that answers at once changes nothing. */
  lemma RepliedAtOnce(db: Db, req: Request)
    requires Read(db, req).Reply?
    ensures Serve(db, req) == db && Answer(db, req) == Read(db, req).result
  {
    hide Read;
  }

  /** A request that goes on and needs no second lookup does and answers what its transaction does. */
  lemma CommittedAtOnce(db: Db, req: Request)
    requires Read(db, req).Continue?
    requires var f := Read(db, req).flight; Launched(db, f) && Commit(db, f).1.Reply?
    ensures var (db', out) := Commit(db, Read(db, req).flight);
            Serve(db, req) == db' && Answer(db, req) == out.result
  {
    hide Read, Commit, Launched;
  }

  /** After a conflict the second lookup answers, and changes nothing. */
  lemma LookedUpAgain(db: Db, req: Request)
    requires Read(db, req).Continue? && Launched(db, Read(db, req).flight)
    requires var (db', out) := Commit(db, Read(db, req).flight);
             out.Continue? && Launched(db', out.flight) && Commit(db', out.flight).1.Reply?
    ensures var (db', out) := Commit(db, Read(db, req).flight);
            Serve(db, req) == db' && Answer(db, req) == Commit(db', out.flight).1.result
  {
    hide Read, Commit, Launched;
  }

  // ---------- refunds ----------

  /** The refund asked for is one of a wallet order, within what is left of it. */
  predicate Fits(db: Db, q: RefundReq) {
    && HasOrder(db, q.id)
    && var o := db.orders[q.id - 1];
    EqualFold(o.payMethod, "balance") && 0 < q.amount <= o.total - o.refunded
  }

  /** The wallet has room for it. */
  predicate HasRoom(db: Db, q: RefundReq)
    requires HasOrder(db, q.id)
  {
    BalanceOf(db, db.orders[q.id - 1].user) + q.amount <= MAX_INT64
  }

  predicate MayRefund(db: Db, q: RefundReq) { IsAdmin(q.caller) && Fits(db, q) && HasRoom(db, q) }

  lemma RefundsChange(db: Db, db': Db, q: RefundReq)
    requires Refunds(db, db', q)
    ensures db' != db
  {
    hide Posted;
    assert |db'.refunds| == |db.refunds| + 1;
  }

  /** A refund changes the tables exactly when it may; a refused one changes nothing. */
  lemma RefundServedIff(db: Db, q: RefundReq)
    requires Inv(db)
    ensures var db' := Serve(db, Request.Refund(q));
            && (db' != db <==> MayRefund(db, q))
            && (MayRefund(db, q) ==> Refunds(db, db', q))
  {
    hide Inv, Read, Commit, Launched, Serve, Answer, EqualFold, BalanceOf, Refunds;
    var req := Request.Refund(q);
    RefundReads(db, q);
    if Read(db, req).Continue? {
      ExtendsItself(db);
      RefundCommits(db, db, q);
      CommittedAtOnce(db, req);
      if MayRefund(db, q) { RefundsChange(db, Serve(db, req), q); }
    } else {
      RepliedAtOnce(db, req);
    }
  }

  /** A refund is answered with its order exactly when it may be made; every refusal has its own reason. */
  lemma RefundAnsweredIff(db: Db, q: RefundReq)
    requires Inv(db)
    ensures var r := Answer(db, Request.Refund(q));
            && (r == Ok(q.id) <==> MayRefund(db, q))
            && (r == Err(Unauthorized) <==> q.caller.Anonymous?)
            && (r == Err(Forbidden) <==> q.caller.LoggedIn? && !q.caller.admin)
            && (r == Err(NotFound) <==> IsAdmin(q.caller) && q.amount > 0 && !HasOrder(db, q.id))
            && (r == Err(InsufficientBalance) <==> IsAdmin(q.caller) && Fits(db, q) && !HasRoom(db, q))
            && (r == Err(InvalidArgument) <==>
                IsAdmin(q.caller) && (q.amount <= 0 || HasOrder(db, q.id)) && !Fits(db, q))
  {
    hide Inv, Read, Commit, Launched, Serve, Answer, EqualFold, BalanceOf, Refunds;
    var req := Request.Refund(q);
    RefundReads(db, q);
    if Read(db, req).Continue? {
      ExtendsItself(db);
      RefundCommits(db, db, q);
      CommittedAtOnce(db, req);
    } else {
      RepliedAtOnce(db, req);
    }
  }

  // ---------- marking paid ----------

  predicate MayMark(db: Db, q: MarkPaidReq) {
    && IsAdmin(q.caller)
    && HasOrder(db, q.id)
    && var o := db.orders[q.id - 1];
    && o.status == PendingPayment
    && (q.charge ==> o.total <= BalanceOf(db, o.user))
  }

  /** Marking paid changes the tables exactly when it may; an order that is paid already is answered as it is. */
  lemma MarkPaidServedIff(db: Db, q: MarkPaidReq)
    requires Inv(db)
    ensures var db', r := Serve(db, MarkPaid(q)), Answer(db, MarkPaid(q));
            && (db' != db <==> MayMark(db, q))
            && (MayMark(db, q) ==> r == Ok(q.id) && Marks(db, db', q))
            && (r.Ok? <==> MayMark(db, q)
                           || (IsAdmin(q.caller) && HasOrder(db, q.id) && db.orders[q.id - 1].status == Paid))
            && (r.Ok? ==> r.value == q.id)
            && (r == Err(Unauthorized) <==> q.caller.Anonymous?)
            && (r == Err(Forbidden) <==> q.caller.LoggedIn? && !q.caller.admin)
            && (r == Err(NotFound) <==> IsAdmin(q.caller) && !HasOrder(db, q.id))
            && (r == Err(InsufficientBalance) <==>
                && IsAdmin(q.caller) && HasOrder(db, q.id) && q.charge
                && db.orders[q.id - 1].status == PendingPayment
                && BalanceOf(db, db.orders[q.id - 1].user) < db.orders[q.id - 1].total)
            && (r.Err? ==> r.error in {Unauthorized, Forbidden, NotFound, InsufficientBalance, InvalidArgument})
  {
    hide Inv, Read, Commit, Launched, Serve, Answer, BalanceOf, Posted, TextIs, EqualFold, TimeIs;
    MarkPaidReads(db, q);
    if Read(db, MarkPaid(q)).Continue? {
      ExtendsItself(db);
      MarkPaidCommits(db, db, q);
      CommittedAtOnce(db, MarkPaid(q));
    } else {
      RepliedAtOnce(db, MarkPaid(q));
    }
  }

  // ---------- gateway callbacks ----------

  predicate Known(q: CallbackReq) { q.id != 0 && q.paymentId != 0 && Word(q) in {"succeeded", "failed"} }

  predicate Found(db: Db, q: CallbackReq) {
    HasOrder(db, q.id) && HasPayment(db, q.paymentId) && db.payments[q.paymentId - 1].order == q.id
  }

  /** A failure that arrives after a success. */
  predicate Downgrades(db: Db, q: CallbackReq)
    requires Found(db, q)
  {
    Word(q) == "failed" && db.payments[q.paymentId - 1].status == PaySucceeded
  }

  predicate Repeats(db: Db, q: CallbackReq)
    requires Found(db, q)
  {
    db.payments[q.paymentId - 1].status == if Word(q) == "failed" then PayFailed else PaySucceeded
  }

  /** A callback is accepted unless it is unknown, unfound or a downgrade; a repeated one changes nothing. */
  lemma CallbackServedIff(db: Db, q: CallbackReq)
    requires Inv(db)
    ensures var db', r := Serve(db, Callback(q)), Answer(db, Callback(q));
            && (r == Ok(q.id) <==> Known(q) && Found(db, q) && !Downgrades(db, q))
            && (r == Err(InvalidState) <==> Known(q) && Found(db, q) && Downgrades(db, q))
            && (r == Err(NotFound) <==> Known(q) && !Found(db, q))
            && (r == Err(InvalidArgument) <==> !Known(q))
            && (db' != db <==> Known(q) && Found(db, q) && !Downgrades(db, q) && !Repeats(db, q))
            && (db' != db ==> Notes(db, db', q))
  {
    hide Inv, Read, Commit, Launched, Serve, Answer, Word, TextIs, TimeIs;
    CallbackReads(db, q);
    if Read(db, Callback(q)).Continue? {
      ExtendsItself(db);
      CallbackCommits(db, db, q);
      CommittedAtOnce(db, Callback(q));
      assert db.payments[q.paymentId - 1].status != Serve(db, Callback(q)).payments[q.paymentId - 1].status;
    } else {
      RepliedAtOnce(db, Callback(q));
    }
  }

  // ---------- cancelling ----------

  /** Administrators cancel any order, users their own. */
  predicate MayAsk(db: Db, q: CancelReq)
    requires HasOrder(db, q.id)
  {
    q.caller.LoggedIn? && if q.byAdmin then q.caller.admin else db.orders[q.id - 1].user == q.caller.id
  }

  predicate MayCancel(db: Db, q: CancelReq) {
    && HasOrder(db, q.id) && MayAsk(db, q)
    && var o := db.orders[q.id - 1];
    (o.status == PendingPayment || (o.status == Paid && (o.total == 0 || (q.byAdmin && o.refunded == o.total))))
  }

  /** Cancelling changes the tables exactly when it may, and never moves money; once is as good as twice. */
  lemma CancelServedIff(db: Db, q: CancelReq)
    requires Inv(db)
    ensures var db', r := Serve(db, Cancel(q)), Answer(db, Cancel(q));
            && (db' != db <==> MayCancel(db, q))
            && (MayCancel(db, q) ==> r == Ok(q.id) && Cancels(db, db', q))
            && (r.Ok? <==> MayCancel(db, q)
                           || (HasOrder(db, q.id) && MayAsk(db, q) && db.orders[q.id - 1].status == Cancelled))
            && (r.Ok? ==> r.value == q.id)
            && (r == Err(Unauthorized) <==> q.caller.Anonymous?)
            && (r == Err(Forbidden) <==>
                q.caller.LoggedIn? && if q.byAdmin then !q.caller.admin else HasOrder(db, q.id) && !MayAsk(db, q))
            && (r == Err(NotFound) <==>
                q.caller.LoggedIn? && (q.byAdmin ==> q.caller.admin) && !HasOrder(db, q.id))
            && (r.Err? ==> r.error in {Unauthorized, Forbidden, NotFound, InvalidArgument})
  {
    hide Inv, Read, Commit, Launched, Serve, Answer, TimeIs;
    CancelReads(db, q);
    if Read(db, Cancel(q)).Continue? {
      ExtendsItself(db);
      CancelCommits(db, db, q);
      CommittedAtOnce(db, Cancel(q));
      assert db.orders[q.id - 1].status != Serve(db, Cancel(q)).orders[q.id - 1].status;
    } else {
      RepliedAtOnce(db, Cancel(q));
    }
  }

  // ---------- creating ----------

  predicate MayCreate(db: Db, q: CreateReq, total: int) {
    Proceeds(db, q) && Orderable(q) && !Broke(db, q, total) && !NumberIsUsed(db, q)
  }

  /** The answer to a create whose key already names an order. */
  predicate AlreadyMade(db: Db, q: CreateReq, id: nat) {
    && Method(q) in {"", "balance", "external"}
    && TrimSpace(q.key) != "" && q.caller.LoggedIn? && q.caller.id != 0
    && HasOrder(db, id) && CarriesKey(db.orders[id - 1], q)
  }

  lemma DraftHasKey(d: Draft, q: CreateReq)
    requires DraftIs(d, q) && TrimSpace(q.key) != ""
    ensures d.key.Some?
  {
    hide TrimSpace, TotalIs;
  }

  lemma CreatesChange(db: Db, db': Db, q: CreateReq)
    requires Creates(db, db', q)
    ensures db' != db && |db'.orders| == |db.orders| + 1
  {
    hide OrderIs, Posted, FromBalance;
  }

  lemma ProceedsUnused(db: Db, q: CreateReq)
    requires Proceeds(db, q)
    ensures !KeyIsUsed(db, q) && Method(q) in {"", "balance", "external"} && q.caller.LoggedIn?
  {
    hide KeyIsUsed;
  }

  lemma NotMadeYet(db: Db, q: CreateReq, id: nat)
    requires Proceeds(db, q)
    ensures !AlreadyMade(db, q, id)
  {
    hide TrimSpace, CarriesKey;
  }

  lemma RecoveryIsLaunched(db: Db, f: Flight)
    requires f.Recovering? && f.draft.key.Some?
    ensures Launched(db, f)
  {
  }

  /** A create changes the tables exactly when it may, then by one order at the exact total of its one to ten units. */
  lemma CreateServedIff(db: Db, q: CreateReq, total: int)
    requires Inv(db) && Assumed(Create(q))
    requires q.plan.Some? ==> TotalIs(total, q.plan.value.price, q.quantity)
    ensures var db', r := Serve(db, Create(q)), Answer(db, Create(q));
            && (db' != db <==> MayCreate(db, q, total))
            && (MayCreate(db, q, total) ==> Creates(db, db', q))
            && (forall id :: r == Ok(id) <==>
                  (MayCreate(db, q, total) && id == |db.orders| + 1) || AlreadyMade(db, q, id))
            && (r == Err(Unauthorized) <==> Method(q) in {"", "balance", "external"} && q.caller.Anonymous?)
            && (r == Err(NotFound) <==> Proceeds(db, q) && q.planId != 0 && q.plan.None?)
            && (r == Err(InsufficientBalance) <==> Proceeds(db, q) && Orderable(q) && Broke(db, q, total))
            && (r == Err(Conflict) <==>
                Proceeds(db, q) && Orderable(q) && !Broke(db, q, total) && NumberIsUsed(db, q))
            && (r.Err? ==> r.error in {Unauthorized, NotFound, InsufficientBalance, Conflict, InvalidArgument})
  {
    hide Inv, Read, Commit, Launched, Serve, Answer, TrimSpace, Orderable, Broke, NumberIsUsed, KeyIsUsed, FromBalance,
      TotalIs,      CarriesKey, Creates, Proceeds, DraftIs;
    CreateReads(db, q);
    if Read(db, Create(q)).Continue? {
      ProceedsUnused(db, q);
      forall id: nat ensures !AlreadyMade(db, q, id) { NotMadeYet(db, q, id); }
      CreateCommits(db, db, q, total);
      var (db', out) := Commit(db, Read(db, Create(q)).flight);
      if out.Continue? {
        DraftHasKey(out.flight.draft, q);
        RecoveryIsLaunched(db', out.flight);
        CreateRecovers(db', out.flight.draft, q);
        LookedUpAgain(db, Create(q));
      } else {
        CommittedAtOnce(db, Create(q));
        if MayCreate(db, q, total) { CreatesChange(db, db', q); }
      }
    } else {
      RepliedAtOnce(db, Create(q));
    }
  }
}

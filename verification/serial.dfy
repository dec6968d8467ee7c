/**
  Serial runs: each request's read and transaction happen together.  They are a special
  case of interleaved runs, and some guards that are checked outside the lock only bite here.
 */
module Serial {
  import opened Options
  import opened Text
  import opened Tables
  import opened Ledger
  import opened Billing
  import opened Invariants
  import opened Transactions
  import opened Runs
  import opened Money
  import opened Guards

  function Serve(db: Db, req: Request): Db {
    match Read(db, req)
    case Reply(_) => db
    case Continue(f) => if Launched(db, f) then Commit(db, f).0 else db
  }

  /** What the client hears: the read's answer, the transaction's, or after a conflict the second lookup's. */
  function Answer(db: Db, req: Request): Result<nat> {
    match Read(db, req)
    case Reply(r) => r
    case Continue(f) =>
      if !Launched(db, f) then Err(NotFound)
      else
        var (db', out) := Commit(db, f);
        if out.Reply? then out.result
        else if !Launched(db', out.flight) || Commit(db', out.flight).1.Continue? then Err(NotFound)
        else Commit(db', out.flight).1.result
  }

  function ServeAll(db: Db, reqs: seq<Request>): Db {
    if reqs == [] then db else Serve(ServeAll(db, reqs[..|reqs| - 1]), reqs[|reqs| - 1])
  }

  // ---------- serial runs are interleaved runs ----------

  /** A request's own read, transaction and, after a conflict, second read. */
  function Schedule(reqs: seq<Request>): seq<Step> {
    if reqs == [] then []
    else Schedule(reqs[..|reqs| - 1]) + [Begin(reqs[|reqs| - 1]), Resume(0), Resume(0)]
  }

  lemma RunOne(w: World, steps: seq<Step>, s: Step)
    ensures Run(w, steps + [s]) == Exec(Run(w, steps), s)
  {
    hide Exec;
    assert (steps + [s])[..|steps|] == steps;
  }

  lemma RunThree(w: World, steps: seq<Step>, a: Step, b: Step, c: Step)
    ensures Run(w, steps + [a, b, c]) == Exec(Exec(Exec(Run(w, steps), a), b), c)
  {
    hide Exec, Run;
    RunOne(w, steps, a);
    RunOne(w, steps + [a], b);
    RunOne(w, steps + [a] + [b], c);
    assert steps + [a, b, c] == steps + [a] + [b] + [c];
  }

  lemma ServeIsThreeSteps(w: World, req: Request)
    requires w.flights == []
    requires Read(w.db, req).Continue? ==> Launched(w.db, Read(w.db, req).flight)
    ensures var w' := Exec(Exec(Exec(w, Begin(req)), Resume(0)), Resume(0));
            w'.db == Serve(w.db, req) && w'.flights == []
  {
    hide Read, CommitCreate, CommitMarkPaid, CommitRefund, CommitCallback, CommitCancel, Post, ReadEvents,
      CommitEvents, Recover;
  }

  lemma ReadIsLaunched(w: World, req: Request)
    requires WorldOk(w) && Assumed(req) && Read(w.db, req).Continue?
    ensures Launched(w.db, Read(w.db, req).flight)
  {
    hide Inv, FlightOk, Read, Launched, LogOk;
    ReadIsOk(w.db, req);
    FlightIsLaunched(w.db, Read(w.db, req).flight);
  }

  lemma {:induction false} SerialRunIsARun(reqs: seq<Request>)
    requires forall k | 0 <= k < |reqs| :: Assumed(reqs[k])
    ensures AllAssumed(Schedule(reqs))
    ensures var w := Run(START, Schedule(reqs)); w.db == ServeAll(EMPTY_DB, reqs) && w.flights == []
  {
    hide Exec, Serve, Assumed, Read, WorldOk, Launched;
    if reqs == [] {
    } else {
      var rest, req := reqs[..|reqs| - 1], reqs[|reqs| - 1];
      SerialRunIsARun(rest);
      RunThree(START, Schedule(rest), Begin(req), Resume(0), Resume(0));
      EveryRunKeeps(Schedule(rest));
      var w := Run(START, Schedule(rest));
      if Read(w.db, req).Continue? { ReadIsLaunched(w, req); }
      ServeIsThreeSteps(w, req);
    }
  }

  // ---------- what holds only in serial runs ----------

  /** Beside the invariant: single charges, payments that agree with their orders, cancelled orders that are square. */
  ghost predicate SerialOk(db: Db) { Inv(db) && AllHold(db) }

  /** A request that goes on at once commits against the very tables its guards were asked of. */
  lemma ReadIsRechecked(db: Db, req: Request)
    requires Inv(db) && Read(db, req).Continue?
    ensures Rechecked(db, Read(db, req).flight)
  {
    hide LedgerOk, RowsAttributed, KeysUnique, PaymentsOk, TrimSpace, ToLower, EqualFold, CallbackStatus, CreateMethod,
      Channel, NonBlank, OrderOk;
    if req.Cancel? && HasOrder(db, req.cancel.id) {
      assert OrderOk(db.orders[req.cancel.id - 1], req.cancel.id, db.refunds, db.ledger);
      TotalIsNonNegative(db.orders[req.cancel.id - 1], req.cancel.id, db.refunds, db.ledger);
    }
  }

  lemma ServeKeeps(db: Db, req: Request)
    requires SerialOk(db) && Assumed(req)
    ensures SerialOk(Serve(db, req))
  {
    hide Inv, Read, Commit, Assumed, Holds, Breaks, Rechecked, FlightOk, Launched, Extends;
    if Read(db, req).Continue? {
      var f := Read(db, req).flight;
      ReadIsOk(db, req);
      ReadIsRechecked(db, req);
      CommitKeeps(db, f);
      forall p: Property ensures Holds(Commit(db, f).0, p) {
        RecheckedBreaksNothing(db, f, p);
        CommitHoldsIff(db, f, p);
      }
    }
  }

  ghost predicate Sound(reqs: seq<Request>) { forall k | 0 <= k < |reqs| :: Assumed(reqs[k]) }

  /** Every serial run keeps charges single, payment rows in agreement and cancelled orders square. */
  lemma {:induction false} SerialRunKeeps(db: Db, reqs: seq<Request>)
    requires SerialOk(db) && Sound(reqs)
    ensures SerialOk(ServeAll(db, reqs))
  {
    hide SerialOk, Serve, Assumed;
    if reqs == [] {
    } else {
      SerialRunKeeps(db, reqs[..|reqs| - 1]);
      ServeKeeps(ServeAll(db, reqs[..|reqs| - 1]), reqs[|reqs| - 1]);
    }
  }

  lemma EmptyIsSerialOk()
    ensures SerialOk(EMPTY_DB)
  {
  }

  /** From empty tables: every order of a serial run is charged at most once, and its payment row agrees with it. */
  lemma SerialRunChargesOnce(reqs: seq<Request>)
    requires Sound(reqs)
    ensures var db := ServeAll(EMPTY_DB, reqs);
            && (forall i | 0 <= i < |db.orders| :: Total(db.ledger, Purchases(db.orders[i].number)) <= 1)
            && (forall p | 0 <= p < |db.payments| ::
                  HasOrder(db, db.payments[p].order)
                  && var o := db.orders[db.payments[p].order - 1];
                  && db.payments[p].amount == o.total
                  && (db.payments[p].status == o.payStatus
                      || (db.payments[p].status == PayPending && o.payStatus == PaySucceeded)))
            && (forall p, q | 0 <= p < q < |db.payments| :: db.payments[p].order != db.payments[q].order)
  {
    EmptyIsSerialOk();
    hide ServeAll, LedgerOk, RowsAttributed, KeysUnique, OrdersOk;
    SerialRunKeeps(EMPTY_DB, reqs);
    assert Holds(ServeAll(EMPTY_DB, reqs), SingleCharges) && Holds(ServeAll(EMPTY_DB, reqs), Agreement);
  }

  /** From empty tables: a cancelled order of a serial run has cost its user nothing in the end. */
  lemma SerialRunCancelsSquare(reqs: seq<Request>, i: nat)
    requires Sound(reqs) && i < |ServeAll(EMPTY_DB, reqs).orders|
    ensures var db := ServeAll(EMPTY_DB, reqs);
            db.orders[i].status == Cancelled ==>
              && Total(db.ledger, OrderAmount(db.orders[i].number)) == 0
              && db.orders[i].refunded == Total(db.ledger, Purchases(db.orders[i].number)) * db.orders[i].total
  {
    EmptyIsSerialOk();
    hide ServeAll, Inv, Total;
    SerialRunKeeps(EMPTY_DB, reqs);
    assert Holds(ServeAll(EMPTY_DB, reqs), SquareCancels);
    AmountOfOrder(ServeAll(EMPTY_DB, reqs), i);
  }

  // ---------- a succeeded payment is final ----------

  lemma ServeKeepsSuccess(db: Db, req: Request, p: nat)
    requires Inv(db) && Assumed(req) && p < |db.payments| && db.payments[p].status == PaySucceeded
    ensures p < |Serve(db, req).payments| && Serve(db, req).payments[p] == db.payments[p]
  {
    hide Inv, TrimSpace, ToLower, EqualFold, CreateMethod, Channel, NonBlank, OrderRef, CurrencyFor, Conflicts, Accepts,
      ChargeFor, MarkedPaid, RowFor, CalledOrder, Assumed;
  }

  /** Over any serial run a succeeded payment row never changes again. */
  lemma {:induction false} SuccessIsFinal(db: Db, reqs: seq<Request>, p: nat)
    requires SerialOk(db) && Sound(reqs)
    requires p < |db.payments| && db.payments[p].status == PaySucceeded
    ensures p < |ServeAll(db, reqs).payments| && ServeAll(db, reqs).payments[p] == db.payments[p]
  {
    hide Inv, AllHold, Serve, Assumed;
    if reqs == [] {
    } else {
      SuccessIsFinal(db, reqs[..|reqs| - 1], p);
      SerialRunKeeps(db, reqs[..|reqs| - 1]);
      ServeKeepsSuccess(ServeAll(db, reqs[..|reqs| - 1]), reqs[|reqs| - 1], p);
    }
  }
}

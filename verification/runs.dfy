/**
  Interleaved runs.  Any number of requests are in flight; a step is one request's unlocked
  read or one flight's transaction, in any order, and a flight may never be resumed.
 */
module Runs {
  import opened Options
  import opened Text
  import opened Tables
  import opened Ledger
  import opened Billing
  import opened Invariants
  import opened Transactions

  /** What create requests did, for speaking about whole runs; no transaction reads it. */
  datatype Event =
    | Created(user: nat, key: Option<string>, id: nat, fromBalance: bool, debit: int)
    | Answered(user: nat, asked: string, id: nat)

  datatype World = World(db: Db, flights: seq<Flight>, log: seq<Event>)

  datatype Step = Begin(req: Request) | Resume(i: nat)

  const START := World(EMPTY_DB, [], [])

  function ReadEvents(req: Request, r: Result<nat>): seq<Event> {
    if req.Create? && r.Ok? && req.create.caller.LoggedIn? && NonBlank(req.create.key).Some? then
      [Answered(req.create.caller.id, NonBlank(req.create.key).value, r.value)]
    else []
  }

  function AnswerEvents(d: Draft, r: Result<nat>): seq<Event> {
    if r.Ok? && d.key.Some? then [Answered(d.user, d.key.value, r.value)] else []
  }

  function CommitEvents(db: Db, f: Flight, db': Db, out: Outcome): seq<Event> {
    if out.Reply? && f.Creating? && out.result.Ok? then
      var debit := BalanceOf(db, f.draft.user) - BalanceOf(db', f.draft.user);
      [Created(f.draft.user, f.draft.key, out.result.value, f.draft.fromBalance, debit)]
      + AnswerEvents(f.draft, out.result)
    else if out.Reply? && f.Recovering? then AnswerEvents(f.draft, out.result)
    else []
  }

  function Exec(w: World, s: Step): World {
    match s
    case Begin(req) =>
      (match Read(w.db, req)
       case Reply(r) => w.(log := w.log + ReadEvents(req, r))
       case Continue(f) => w.(flights := w.flights + [f]))
    case Resume(i) =>
      if i < |w.flights| && Launched(w.db, w.flights[i]) then
        var (db', out) := Commit(w.db, w.flights[i]);
        var next := if out.Continue? then [out.flight] else [];
        World(db', w.flights[..i] + next + w.flights[i + 1..], w.log + CommitEvents(w.db, w.flights[i], db', out))
      else w
  }

  function Run(w: World, steps: seq<Step>): World {
    if steps == [] then w else Exec(Run(w, steps[..|steps| - 1]), steps[|steps| - 1])
  }

  ghost predicate AllAssumed(steps: seq<Step>) {
    forall k | 0 <= k < |steps| && steps[k].Begin? :: Assumed(steps[k].req)
  }

  // ---------- the invariant of a world ----------

  /** An event names an order that still carries the user and key it reports. */
  ghost predicate EventOk(db: Db, e: Event) {
    && HasOrder(db, e.id)
    && db.orders[e.id - 1].user == e.user
    && match e
       case Created(_, key, id, fromBalance, debit) =>
         db.orders[id - 1].key == key && debit == if fromBalance then db.orders[id - 1].total as int else 0
       case Answered(_, asked, id) => db.orders[id - 1].key == Some(asked)
  }

  ghost predicate LogOk(db: Db, log: seq<Event>) {
    && (forall k | 0 <= k < |log| :: EventOk(db, log[k]))
    && (forall j, k | 0 <= j < k < |log| && log[j].Created? && log[k].Created? :: log[j].id != log[k].id)
  }

  ghost predicate WorldOk(w: World) {
    && Inv(w.db)
    && (forall i | 0 <= i < |w.flights| :: FlightOk(w.db, w.flights[i]))
    && LogOk(w.db, w.log)
  }

  lemma LogStaysOk(db: Db, db': Db, log: seq<Event>)
    requires LogOk(db, log) && Extends(db, db')
    ensures LogOk(db', log)
  {
  }

  /** A committed create appends one order, its own, and debits its total if it is to be paid from the wallet. */
  lemma CreatedIsOk(db: Db, d: Draft)
    requires Inv(db) && 0 <= d.total && CommitCreate(db, d).1.Ok?
    ensures var (db', r) := CommitCreate(db, d);
            && r == Ok(|db.orders| + 1) && |db'.orders| == |db.orders| + 1
            && var debit := BalanceOf(db, d.user) - BalanceOf(db', d.user);
            EventOk(db', Created(d.user, d.key, r.value, d.fromBalance, debit))
  {
    hide Inv, CurrencyFor, OrderRef, Conflicts, CurrencyOf;
  }

  lemma LogAppend(db: Db, log: seq<Event>, e: Event)
    requires LogOk(db, log) && EventOk(db, e)
    requires e.Created? ==> forall k | 0 <= k < |log| && log[k].Created? :: log[k].id != e.id
    ensures LogOk(db, log + [e])
  {
    hide EventOk;
  }

  lemma AnswerAppend(db: Db, log: seq<Event>, d: Draft, r: Result<nat>)
    requires LogOk(db, log)
    requires r.Ok? && d.key.Some? ==> EventOk(db, Answered(d.user, d.key.value, r.value))
    ensures LogOk(db, log + AnswerEvents(d, r))
  {
    hide LogOk, EventOk;
    if r.Ok? && d.key.Some? {
      LogAppend(db, log, Answered(d.user, d.key.value, r.value));
    } else {
      assert log + AnswerEvents(d, r) == log;
    }
  }

  lemma CreateLogs(db: Db, d: Draft, log: seq<Event>)
    requires Inv(db) && 0 <= d.total && LogOk(db, log)
    ensures var (db', out) := Commit(db, Creating(d)); LogOk(db', log + CommitEvents(db, Creating(d), db', out))
  {
    hide CommitCreate, Inv, LogOk, Extends, BalanceOf, EventOk;
    var (db', r) := CommitCreate(db, d);
    CreateKeeps(db, d);
    LogStaysOk(db, db', log);
    if r.Ok? {
      CreatedIsOk(db, d);
      LogIdsExist(db, log);
      var e := Created(d.user, d.key, r.value, d.fromBalance, BalanceOf(db, d.user) - BalanceOf(db', d.user));
      LogAppend(db', log, e);
      AnswerIsOk(db', d, r.value, e.debit);
      AnswerAppend(db', log + [e], d, r);
      assert log + ([e] + AnswerEvents(d, r)) == (log + [e]) + AnswerEvents(d, r);
    } else {
      assert log + [] == log;
    }
  }

  lemma LogIdsExist(db: Db, log: seq<Event>)
    requires LogOk(db, log)
    ensures forall k | 0 <= k < |log| :: log[k].id <= |db.orders|
  {
  }

  lemma AnswerIsOk(db: Db, d: Draft, id: nat, debit: int)
    requires EventOk(db, Created(d.user, d.key, id, d.fromBalance, debit))
    ensures d.key.Some? ==> EventOk(db, Answered(d.user, d.key.value, id))
  {
  }

  /** What one transaction adds to the log is true of the tables it leaves. */
  lemma CommitLogs(db: Db, f: Flight, log: seq<Event>)
    requires Inv(db) && FlightOk(db, f) && Launched(db, f) && LogOk(db, log)
    requires Extends(db, Commit(db, f).0)
    ensures var (db', out) := Commit(db, f); LogOk(db', log + CommitEvents(db, f, db', out))
  {
    hide Inv, Extends, FlightOk, LogOk, CommitMarkPaid, CommitRefund, CommitCallback, CommitCancel, CommitCreate, Post;
    var (db', out) := Commit(db, f);
    if f.Creating? {
      CreateLogs(db, f.draft, log);
    } else if f.Recovering? {
      AnswerAppend(db, log, f.draft, out.result);
    } else {
      LogStaysOk(db, db', log);
      assert log + CommitEvents(db, f, db', out) == log;
    }
  }

  lemma ExecKeeps(w: World, s: Step)
    requires WorldOk(w) && (s.Begin? ==> Assumed(s.req))
    ensures WorldOk(Exec(w, s))
  {
    var w' := Exec(w, s);
    hide Inv, FlightOk, Extends, LogOk, Commit, Read, CommitEvents, ReadEvents, Assumed;
    match s
    case Begin(req) =>
      if Read(w.db, req).Continue? {
        ReadIsOk(w.db, req);
      } else {
        ReadLogs(w.db, req, w.log);
      }
    case Resume(i) =>
      if i < |w.flights| && Launched(w.db, w.flights[i]) {
        var f := w.flights[i];
        CommitKeeps(w.db, f);
        CommitLogs(w.db, f, w.log);
        forall j | 0 <= j < |w.flights| ensures FlightOk(w'.db, w.flights[j]) {
          FlightStaysOk(w.db, w'.db, w.flights[j]);
        }
      }
  }

  lemma ReadLogs(db: Db, req: Request, log: seq<Event>)
    requires LogOk(db, log) && Read(db, req).Reply?
    ensures LogOk(db, log + ReadEvents(req, Read(db, req).result))
  {
    hide TrimSpace, ToLower, CreateMethod, Channel, EqualFold, OrderTotal;
  }

  /** In every run, whatever the interleaving, the invariant holds and every flight can still commit. */
  lemma {:induction false} EveryRunKeeps(steps: seq<Step>)
    requires AllAssumed(steps)
    ensures WorldOk(Run(START, steps))
    ensures var w := Run(START, steps);
            forall i | 0 <= i < |w.flights| :: Launched(w.db, w.flights[i])
  {
    hide Exec;
    if steps == [] {
    } else {
      EveryRunKeeps(steps[..|steps| - 1]);
      ExecKeeps(Run(START, steps[..|steps| - 1]), steps[|steps| - 1]);
    }
    var w := Run(START, steps);
    forall i | 0 <= i < |w.flights| ensures Launched(w.db, w.flights[i]) {
      FlightIsLaunched(w.db, w.flights[i]);
    }
  }
}

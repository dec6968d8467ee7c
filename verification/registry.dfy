/** The panel's own registry, and what it guarantees about the schema. */
module Registry {
  import opened Options
  import opened Migrations
  import opened MigrationTheorems

  datatype TableName =
    | AdminModules | Users | Nodes | NodeKernels | Templates | TemplateHistories | Subscriptions | Plans
    | Announcements | Balances | Transactions | Settings
    | Orders | OrderItems | OrderRefunds | OrderPayments

  /** Columns of the orders table; Lasting stands for those no migration drops. */
  datatype OrderColumn =
    | Lasting | RefundedCents | RefundedAt
    | PaymentStatus | PaymentIntent | PaymentReference | FailureCode | FailureReason
    | IdempotencyKey

  datatype Item = Table(table: TableName) | Column(column: OrderColumn) | IdempotencyIndex

  type Schema = set<Item>

  datatype Entry = BaseSchema | BillingOrders | RefundTable | RefundTracking | PaymentTracking | IdempotencyColumn

  /** The order the source declares them in, which is not the order of their versions. */
  const DECLARED := [BaseSchema, BillingOrders, RefundTable, RefundTracking, PaymentTracking, IdempotencyColumn]

  function VersionOf(e: Entry): nat {
    match e
    case BaseSchema => 2024060101
    case BillingOrders => 2024063001
    case RefundTable => 2024100101
    case RefundTracking => 2024071501
    case PaymentTracking => 2024120101
    case IdempotencyColumn => 2025022001
  }

  /** The models an Up migrates; each is today's model, with all of today's columns. */
  function Models(e: Entry): seq<TableName> {
    match e
    case BaseSchema =>
      [AdminModules, Users, Nodes, NodeKernels, Templates, TemplateHistories, Subscriptions, Plans,
       Announcements, Balances, Transactions, Settings]
    case BillingOrders => [Orders, OrderItems]
    case RefundTable => [Orders, OrderRefunds]
    case RefundTracking => [Orders]
    case PaymentTracking => [Orders, OrderPayments]
    case IdempotencyColumn => [Orders]
  }

  const ORDER_PARTS: set<Item> :=
    {Column(Lasting), Column(RefundedCents), Column(RefundedAt), Column(PaymentStatus), Column(PaymentIntent),
     Column(PaymentReference), Column(FailureCode), Column(FailureReason), Column(IdempotencyKey), IdempotencyIndex}

  /** Everything that belongs to a table: dropping it drops its columns and index too. */
  function PartsOf(t: TableName): set<Item> {
    if t == Orders then {Table(Orders)} + ORDER_PARTS else {Table(t)}
  }

  /** The statements of a Down, in order. */
  function Drops(e: Entry): seq<set<Item>> {
    match e
    case BaseSchema =>
      [{Table(Settings)}, {Table(Transactions)}, {Table(Balances)}, {Table(Announcements)}, {Table(Plans)},
       {Table(Subscriptions)}, {Table(TemplateHistories)}, {Table(Templates)}, {Table(NodeKernels)}, {Table(Nodes)},
       {Table(Users)}, {Table(AdminModules)}]
    case BillingOrders => [{Table(OrderItems)}, PartsOf(Orders)]
    case RefundTable => [{Table(OrderRefunds)}]
    case RefundTracking => [{Column(RefundedCents)}, {Column(RefundedAt)}]
    case PaymentTracking =>
      [{Table(OrderPayments)}, {Column(PaymentStatus)}, {Column(PaymentIntent)}, {Column(PaymentReference)},
       {Column(FailureCode)}, {Column(FailureReason)}]
    case IdempotencyColumn => [{IdempotencyIndex}, {Column(IdempotencyKey)}]
  }

  /** AutoMigrate adds what is missing and takes nothing away. */
  function Add(items: set<Item>): Schema -> Schema { s => s + items }

  /** A drop of something absent does nothing. */
  function Remove(items: set<Item>): Schema -> Schema { s => s - items }

  function Ups(models: seq<TableName>): seq<Schema -> Schema> {
    seq(|models|, i requires 0 <= i < |models| => Add(PartsOf(models[i])))
  }

  function Downs(drops: seq<set<Item>>): (r: seq<Schema -> Schema>)
    ensures |r| == |drops|
  {
    seq(|drops|, i requires 0 <= i < |drops| => Remove(drops[i]))
  }

  function MigrationOf(e: Entry): Migration<Schema> {
    Migration(VersionOf(e), Some(Ups(Models(e))), Some(Downs(Drops(e))))
  }

  // ---------- sorting at start-up ----------

  function Insert(e: Entry, l: seq<Entry>): seq<Entry> {
    if l == [] || VersionOf(e) <= VersionOf(l[0]) then [e] + l else [l[0]] + Insert(e, l[1..])
  }

  function Sort(l: seq<Entry>): seq<Entry> {
    if l == [] then [] else Insert(l[0], Sort(l[1..]))
  }

  const ENTRIES := [BaseSchema, BillingOrders, RefundTracking, RefundTable, PaymentTracking, IdempotencyColumn]

  function TheRegistry(): seq<Migration<Schema>> {
    seq(|ENTRIES|, i requires 0 <= i < |ENTRIES| => MigrationOf(ENTRIES[i]))
  }

  /** Sorting the declarations at start-up moves exactly one of them. */
  lemma SortedDeclarations()
    ensures Sort(DECLARED) == ENTRIES
  {
  }

  lemma RegistryIsProper()
    ensures Proper(TheRegistry())
    ensures Versions(TheRegistry()) == [2024060101, 2024063001, 2024071501, 2024100101, 2024120101, 2025022001]
  {
    hide TheRegistry, Versions, Proper;
    RegistryIsSorted();
    RegistryVersions();
  }

  lemma RegistryIsSorted()
    ensures Proper(TheRegistry())
  {
    hide TheRegistry, VersionOf, MigrationOf;
    var reg := TheRegistry();
    RegistryHasEntries();
    forall i | 0 <= i < |reg| ensures reg[i].version == VersionOf(ENTRIES[i]) > 0 {
      EntryAt(i);
      VersionsArePositive(i);
    }
    forall i, j | 0 <= i < j < |reg| ensures reg[i].version < reg[j].version { VersionsRise(i, j); }
  }

  lemma VersionsArePositive(i: nat)
    requires i < |ENTRIES|
    ensures VersionOf(ENTRIES[i]) > 0
  {
  }

  lemma RegistryVersions()
    ensures Versions(TheRegistry()) == [2024060101, 2024063001, 2024071501, 2024100101, 2024120101, 2025022001]
  {
    hide TheRegistry, Versions, VersionOf, MigrationOf, Models, Drops;
    RegistryHasEntries();
    VersionsInOrder();
    EntryAt(0); EntryAt(1); EntryAt(2); EntryAt(3); EntryAt(4); EntryAt(5);
  }

  lemma VersionsRise(i: nat, j: nat)
    requires i < j < |ENTRIES|
    ensures VersionOf(ENTRIES[i]) < VersionOf(ENTRIES[j])
  {
  }

  lemma VersionsInOrder()
    ensures |ENTRIES| == 6 && VersionOf(ENTRIES[0]) == 2024060101 && VersionOf(ENTRIES[1]) == 2024063001
    ensures VersionOf(ENTRIES[2]) == 2024071501 && VersionOf(ENTRIES[3]) == 2024100101
    ensures VersionOf(ENTRIES[4]) == 2024120101 && VersionOf(ENTRIES[5]) == 2025022001
  {
  }

  lemma EntryAt(i: nat)
    requires i < |ENTRIES|
    ensures |TheRegistry()| == |ENTRIES| && TheRegistry()[i] == MigrationOf(ENTRIES[i])
    ensures TheRegistry()[i].version == VersionOf(ENTRIES[i])
  {
  }

  // ---------- statements as set operations ----------

  function Created(models: seq<TableName>): set<Item> {
    if models == [] then {} else PartsOf(models[0]) + Created(models[1..])
  }

  function Dropped(drops: seq<set<Item>>): set<Item> {
    if drops == [] then {} else drops[0] + Dropped(drops[1..])
  }

  lemma {:induction false} UpsAdd(models: seq<TableName>, s: Schema)
    ensures RunAll(Ups(models), s) == s + Created(models)
  {
    hide PartsOf;
    if models == [] {
    } else {
      assert Ups(models)[1..] == Ups(models[1..]);
      UpsAdd(models[1..], s + PartsOf(models[0]));
    }
  }

  lemma {:induction false} DownsRemove(drops: seq<set<Item>>, k: nat, s: Schema)
    requires k <= |drops|
    ensures RunAll(Downs(drops)[..k], s) == s - Dropped(drops[..k])
    ensures Dropped(drops[..k]) <= Dropped(drops)
  {
    if k > 0 {
      assert Downs(drops)[..k][1..] == Downs(drops[1..])[..k - 1];
      assert drops[..k][1..] == drops[1..][..k - 1];
      DownsRemove(drops[1..], k - 1, s - drops[0]);
    } else {
      assert Downs(drops)[..0] == [] && drops[..0] == [];
    }
  }

  lemma AllDownsRemove(drops: seq<set<Item>>, s: Schema)
    ensures RunAll(Downs(drops), s) == s - Dropped(drops)
  {
    hide Downs, Dropped, RunAll;
    DownsRemove(drops, |drops|, s);
    assert Downs(drops)[..|drops|] == Downs(drops) && drops[..|drops|] == drops;
  }

  // ---------- who owns which table ----------

  /** The one migration that creates and drops a table. */
  function Owner(t: TableName): Entry {
    match t
    case Orders => BillingOrders
    case OrderItems => BillingOrders
    case OrderRefunds => RefundTable
    case OrderPayments => PaymentTracking
    case _ => BaseSchema
  }

  function Position(e: Entry): (r: nat)
    ensures r < |ENTRIES| && ENTRIES[r] == e
  {
    match e
    case BaseSchema => 0
    case BillingOrders => 1
    case RefundTracking => 2
    case RefundTable => 3
    case PaymentTracking => 4
    case IdempotencyColumn => 5
  }

  lemma {:induction false} CreatedMember(models: seq<TableName>, i: nat)
    requires i < |models|
    ensures PartsOf(models[i]) <= Created(models)
  {
    hide PartsOf;
    if i == 0 {
    } else {
      CreatedMember(models[1..], i - 1);
    }
  }

  lemma {:induction false} DroppedMember(drops: seq<set<Item>>, x: Item)
    requires x in Dropped(drops)
    ensures exists i :: 0 <= i < |drops| && x in drops[i]
  {
    if x !in drops[0] {
      DroppedMember(drops[1..], x);
      var i :| 0 <= i < |drops[1..]| && x in drops[1..][i];
      assert x in drops[i + 1];
    }
  }

  lemma OwnerCreates(t: TableName)
    ensures Table(t) in Created(Models(Owner(t)))
  {
    hide Created;
    var models := Models(Owner(t));
    var i :| 0 <= i < |models| && models[i] == t by { assert t in models; }
    CreatedMember(models, i);
  }

  lemma OnlyOwnerDrops(t: TableName, e: Entry)
    requires Table(t) in Dropped(Drops(e))
    ensures Owner(t) == e
  {
    hide Dropped;
    DroppedMember(Drops(e), Table(t));
  }

  lemma OwnerDrops(t: TableName)
    ensures Table(t) in Dropped(Drops(Owner(t)))
  {
    hide Dropped;
    var drops := Drops(Owner(t));
    var i :| 0 <= i < |drops| && Table(t) in drops[i] by { OwnerLists(t); }
    DroppedContains(drops, i);
  }

  lemma OwnerLists(t: TableName)
    ensures exists i :: 0 <= i < |Drops(Owner(t))| && Table(t) in Drops(Owner(t))[i]
  {
    var drops := Drops(Owner(t));
    match t
    case Settings => assert Table(t) in drops[0];
    case Transactions => assert Table(t) in drops[1];
    case Balances => assert Table(t) in drops[2];
    case Announcements => assert Table(t) in drops[3];
    case Plans => assert Table(t) in drops[4];
    case Subscriptions => assert Table(t) in drops[5];
    case TemplateHistories => assert Table(t) in drops[6];
    case Templates => assert Table(t) in drops[7];
    case NodeKernels => assert Table(t) in drops[8];
    case Nodes => assert Table(t) in drops[9];
    case Users => assert Table(t) in drops[10];
    case AdminModules => assert Table(t) in drops[11];
    case Orders => assert Table(t) in drops[1];
    case OrderItems => assert Table(t) in drops[0];
    case OrderRefunds => assert Table(t) in drops[0];
    case OrderPayments => assert Table(t) in drops[0];
  }

  lemma {:induction false} DroppedContains(drops: seq<set<Item>>, i: nat)
    requires i < |drops|
    ensures drops[i] <= Dropped(drops)
  {
    if i == 0 {
    } else {
      DroppedContains(drops[1..], i - 1);
    }
  }

  lemma {:induction false} CreatedBy(models: seq<TableName>, x: Item)
    requires x in Created(models)
    ensures exists i :: 0 <= i < |models| && x in PartsOf(models[i])
  {
    hide PartsOf;
    if x !in PartsOf(models[0]) {
      CreatedBy(models[1..], x);
      var i :| 0 <= i < |models[1..]| && x in PartsOf(models[1..][i]);
      assert x in PartsOf(models[i + 1]);
    }
  }

  /** A migration creates no table before its owner's turn, and columns only together with their table. */
  lemma CreatesInTurn(x: Item, e: Entry)
    requires x in Created(Models(e))
    ensures x.Table? ==> Position(Owner(x.table)) <= Position(e)
    ensures !x.Table? ==> Table(Orders) in Created(Models(e))
  {
    hide Created;
    var models := Models(e);
    CreatedBy(models, x);
    var i :| 0 <= i < |models| && x in PartsOf(models[i]);
    CreatedMember(models, i);
  }

  /** Whatever drops the orders table drops its parts with it. */
  lemma PartsGoWithOrders(e: Entry, k: nat, x: Item)
    requires k <= |Drops(e)| && Table(Orders) in Dropped(Drops(e)[..k]) && x in ORDER_PARTS
    ensures x in Dropped(Drops(e)[..k])
  {
    hide Dropped;
    var drops := Drops(e)[..k];
    DroppedMember(drops, Table(Orders));
    var i :| 0 <= i < |drops| && Table(Orders) in drops[i];
    assert drops[i] == Drops(e)[i] == PartsOf(Orders);
    DroppedContains(drops, i);
  }

  lemma LastMigrationCompletesOrders()
    ensures ORDER_PARTS <= Created(Models(IdempotencyColumn))
  {
  }

  lemma ColumnIsPart(c: OrderColumn)
    ensures Column(c) in ORDER_PARTS
  {
  }

  // ---------- schema and metadata together ----------

  /** Columns and index are there only with their table. */
  ghost predicate PartsHaveTable(s: Schema) { forall x | x in s && !x.Table? :: Table(Orders) in s }

  /** The tables are those of the applied migrations; when all are applied, orders has every column and its index. */
  ghost predicate Fits(s: Schema, n: nat) {
    && (forall t: TableName :: Table(t) in s <==> Position(Owner(t)) < n)
    && PartsHaveTable(s)
    && (n == |ENTRIES| ==> ORDER_PARTS <= s)
  }

  lemma UpFits(s: Schema, n: nat)
    requires n < |ENTRIES| && Fits(s, n)
    ensures Fits(RunAll(Ups(Models(ENTRIES[n])), s), n + 1)
  {
    hide Models, Created, RunAll, Ups;
    UpsAdd(Models(ENTRIES[n]), s);
    LastMigrationCompletesOrders();
    var s' := RunAll(Ups(Models(ENTRIES[n])), s);
    assert Position(ENTRIES[n]) == n;
    forall t: TableName ensures Table(t) in s' <==> Position(Owner(t)) < n + 1 {
      OwnerCreates(t);
      if Table(t) in Created(Models(ENTRIES[n])) { CreatesInTurn(Table(t), ENTRIES[n]); }
    }
    forall x | x in s' && !x.Table? ensures Table(Orders) in s' {
      if x !in s { CreatesInTurn(x, ENTRIES[n]); }
    }
  }

  /** Any part of a migration's Down leaves the tables of the migrations before it; all of it takes its own. */
  lemma DownFits(s: Schema, n: nat, k: nat)
    requires n < |ENTRIES| && k <= |Drops(ENTRIES[n])|
    requires Fits(s, n) || (k == |Drops(ENTRIES[n])| && Fits(s, n + 1))
    ensures Fits(RunAll(Downs(Drops(ENTRIES[n]))[..k], s), n)
  {
    hide Drops, Dropped, RunAll, Downs;
    var drops := Drops(ENTRIES[n]);
    var s' := RunAll(Downs(drops)[..k], s);
    DownsRemove(drops, k, s);
    assert Position(ENTRIES[n]) == n;
    forall t: TableName ensures Table(t) in s' <==> Position(Owner(t)) < n {
      if Table(t) in Dropped(drops[..k]) { OnlyOwnerDrops(t, ENTRIES[n]); }
      if Position(Owner(t)) == n && Table(t) in s {
        OwnerDrops(t);
        assert drops[..k] == drops;
      }
    }
    forall x | x in s' && !x.Table? ensures Table(Orders) in s' {
      if x.Column? { ColumnIsPart(x.column); }
      if Table(Orders) in Dropped(drops[..k]) { PartsGoWithOrders(ENTRIES[n], k, x); }
    }
  }

  lemma {:induction false} UpAllFits(ms: seq<Migration<Schema>>, st: State<Schema>, env: Env)
    requires var n := |st.applied|;
             && n + |ms| <= |ENTRIES| && (forall j | 0 <= j < |ms| :: ms[j] == TheRegistry()[n + j])
             && Fits(st.schema, n)
    ensures var st' := UpAll(ms, st, env).0; Fits(st'.schema, |st'.applied|)
    decreases |ms|
  {
    hide Fits, Models, Drops, RunAll, Ups, Downs;
    if ms == [] {
    } else {
      var n, m := |st.applied|, ms[0];
      assert m == MigrationOf(ENTRIES[n]);
      if UpFails(m, env) {
        CleanupFits(st.schema, n, env);
      } else {
        UpFits(st.schema, n);
        UpAllFits(ms[1..], AfterUp(m, st), env);
      }
    }
  }

  lemma CleanupFits(s: Schema, n: nat, env: Env)
    requires n < |ENTRIES| && Fits(s, n)
    ensures Fits(Cleanup(MigrationOf(ENTRIES[n]), s, env), n)
  {
    hide Drops, Models, Ups, RunAll;
    DownFits(s, n, Min(env.cleaned, |Drops(ENTRIES[n])|));
  }

  lemma {:induction false} DownAllFits(st: State<Schema>, target: nat, env: Env)
    requires PrefixClosed(TheRegistry(), st.applied) && Registered(TheRegistry(), st.applied)
    requires Fits(st.schema, |st.applied|)
    ensures var st' := DownAll(TheRegistry(), st, target, env).0; Fits(st'.schema, |st'.applied|)
    decreases |st.applied|
  {
    hide Fits, Models, Drops, RunAll, Ups, Downs;
    if st.applied != [] && Last(st.applied) > target {
      var n, v := |st.applied| - 1, Last(st.applied);
      assert v in st.applied;
      RegistryIsProper();
      FindIsUnique(TheRegistry(), n);
      var m := MigrationOf(ENTRIES[n]);
      assert Find(TheRegistry(), v) == m;
      if !DownFails(m, env) {
        WholeDownFits(st.schema, n);
        DownAllFits(State(RunAll(m.down.value, st.schema), st.applied[..n]), target, env);
      }
    }
  }

  lemma WholeDownFits(s: Schema, n: nat)
    requires n < |ENTRIES| && Fits(s, n + 1)
    ensures Fits(RunAll(Downs(Drops(ENTRIES[n])), s), n)
  {
    hide Drops, RunAll;
    var drops := Drops(ENTRIES[n]);
    DownFits(s, n, |drops|);
    assert Downs(drops)[..|drops|] == Downs(drops);
  }

  ghost predicate DatabaseOk(st: State<Schema>) {
    PrefixClosed(TheRegistry(), st.applied) && Fits(st.schema, |st.applied|)
  }

  lemma ApplyFits(st: State<Schema>, target: nat, allow: bool, env: Env)
    requires DatabaseOk(st)
    ensures DatabaseOk(Applied(TheRegistry(), st, target, allow, env).0)
  {
    hide Fits, UpAll, DownAll, Between, TheRegistry, PrefixClosed, Proper;
    var reg, goal := TheRegistry(), Effective(TheRegistry(), target);
    RegistryIsProper();
    ApplyKeepsPrefix(reg, st, target, allow, env);
    PrefixSplits(reg, st.applied);
    if goal > Last(st.applied) {
      BetweenIsSlice(reg, |st.applied|, Last(st.applied), goal);
      RegistryHasEntries();
      UpAllFits(Between(reg, Last(st.applied), goal), st, env);
    } else if goal < Last(st.applied) {
      DownAllFits(st, goal, env);
    }
  }

  lemma RegistryHasEntries()
    ensures |TheRegistry()| == |ENTRIES|
  {
  }

  const EMPTY: State<Schema> := State({}, [])

  /** Every run of upgrades, rollbacks, refusals and failures, cleaned up or not, keeps schema and metadata together. */
  lemma {:induction false} RunsFit(calls: seq<Call>)
    ensures DatabaseOk(ApplyAll(TheRegistry(), EMPTY, calls))
  {
    hide Applied, TheRegistry, DatabaseOk;
    if calls == [] {
      EmptyFits();
    } else {
      var rest, last := calls[..|calls| - 1], calls[|calls| - 1];
      RunsFit(rest);
      ApplyFits(ApplyAll(TheRegistry(), EMPTY, rest), last.target, last.allow, last.env);
    }
  }

  lemma EmptyFits()
    ensures DatabaseOk(EMPTY)
  {
  }

  /**
    Path independence: however a database got there, once Apply to the latest version
    succeeds every table, every column of orders and its index is present.
   */
  lemma LatestIsComplete(calls: seq<Call>, allow: bool, env: Env)
    requires Applied(TheRegistry(), ApplyAll(TheRegistry(), EMPTY, calls), 0, allow, env).2.None?
    ensures var st := Applied(TheRegistry(), ApplyAll(TheRegistry(), EMPTY, calls), 0, allow, env).0;
            st.applied == Versions(TheRegistry()) && forall x: Item :: x in st.schema
  {
    hide Applied, TheRegistry, DatabaseOk;
    RunsFit(calls);
    var before := ApplyAll(TheRegistry(), EMPTY, calls);
    ApplyFits(before, 0, allow, env);
    LatestIsAll(before, allow, env);
    AllIsComplete(Applied(TheRegistry(), before, 0, allow, env).0);
  }

  lemma AppliedByPosition(applied: seq<nat>, e: Entry)
    requires PrefixClosed(TheRegistry(), applied)
    ensures VersionOf(e) in applied <==> Position(e) < |applied|
  {
    hide Models, Drops, Ups, Downs;
    RegistryIsProper();
    var versions := Versions(TheRegistry());
    assert versions[Position(e)] == VersionOf(e);
    if VersionOf(e) in applied {
      var i :| 0 <= i < |applied| && applied[i] == VersionOf(e);
      assert versions[i] == versions[Position(e)];
    }
  }

  /** Path independence at every version: after any run a table exists exactly when its migration is applied. */
  lemma TablesFollowVersions(calls: seq<Call>, t: TableName)
    ensures var st := ApplyAll(TheRegistry(), EMPTY, calls);
            Table(t) in st.schema <==> VersionOf(Owner(t)) in st.applied
  {
    hide TheRegistry, ApplyAll, PrefixClosed;
    RunsFit(calls);
    AppliedByPosition(ApplyAll(TheRegistry(), EMPTY, calls).applied, Owner(t));
  }

  /** However a database got there, a successful rollback below the first migration leaves nothing at all. */
  lemma ClearedIsEmpty(calls: seq<Call>, target: nat, allow: bool, env: Env)
    requires 0 < target < VersionOf(BaseSchema)
    requires Applied(TheRegistry(), ApplyAll(TheRegistry(), EMPTY, calls), target, allow, env).2.None?
    ensures Applied(TheRegistry(), ApplyAll(TheRegistry(), EMPTY, calls), target, allow, env).0 == EMPTY
  {
    hide Applied, TheRegistry, ApplyAll, PrefixClosed, Fits;
    RunsFit(calls);
    var before := ApplyAll(TheRegistry(), EMPTY, calls);
    ApplyFits(before, target, allow, env);
    RegistryIsProper();
    PrefixSplits(TheRegistry(), before.applied);
    var st := Applied(TheRegistry(), before, target, allow, env).0;
    if st.applied != [] {
      SuccessMoves(TheRegistry(), before, target, allow, env, st.applied[0]);
      FirstOfPrefix(st.applied);
    }
    NothingAtZero(st.schema, |st.applied|);
  }

  lemma FirstOfPrefix(applied: seq<nat>)
    requires PrefixClosed(TheRegistry(), applied) && applied != []
    ensures applied[0] == VersionOf(BaseSchema)
  {
    RegistryIsProper();
    hide TheRegistry;
  }

  lemma NothingAtZero(s: Schema, n: nat)
    requires Fits(s, n) && n == 0
    ensures s == {}
  {
    forall t: TableName ensures Table(t) !in s {
    }
  }

  lemma LatestIsAll(st: State<Schema>, allow: bool, env: Env)
    requires DatabaseOk(st) && Applied(TheRegistry(), st, 0, allow, env).2.None?
    ensures Applied(TheRegistry(), st, 0, allow, env).0.applied == Versions(TheRegistry())
  {
    hide TheRegistry, Applied, Proper, Fits, Versions;
    var reg := TheRegistry();
    RegistryIsProper();
    RegistryHasEntries();
    PrefixSplits(reg, st.applied);
    ApplyKeepsPrefix(reg, st, 0, allow, env);
    var st' := Applied(reg, st, 0, allow, env).0;
    SuccessMoves(reg, st, 0, allow, env, 2025022001);
    assert Last(Versions(reg)) == 2025022001;
    assert Versions(reg)[5] in Versions(reg);
    PrefixSplits(reg, st'.applied);
    LastIsHighest(st.applied);
    var i :| 0 <= i < |st'.applied| && st'.applied[i] == 2025022001;
    assert st'.applied[i] == Versions(reg)[i];
  }

  lemma AllIsComplete(st: State<Schema>)
    requires DatabaseOk(st) && st.applied == Versions(TheRegistry())
    ensures forall x: Item :: x in st.schema
  {
    hide TheRegistry, Versions;
    RegistryHasEntries();
    forall x: Item ensures x in st.schema {
      match x
      case Table(t) => assert Position(Owner(t)) < |ENTRIES|;
      case Column(c) => ColumnIsPart(c);
      case IdempotencyIndex =>
    }
  }

  // ---------- which migrations a rollback really undoes ----------

  const CALM := Env({}, 0)

  /** The applied versions after the first n migrations. */
  function FirstVersions(n: nat): seq<nat>
    requires n <= |ENTRIES|
  {
    Versions(TheRegistry())[..n]
  }

  lemma OneBetween(n: nat)
    requires n < |ENTRIES|
    ensures Between(TheRegistry(), Last(FirstVersions(n)), VersionOf(ENTRIES[n])) == [MigrationOf(ENTRIES[n])]
  {
    hide Between, Models, Drops, Ups, Downs;
    var reg, lo, hi := TheRegistry(), Last(FirstVersions(n)), VersionOf(ENTRIES[n]);
    RegistryIsProper();
    PrefixSplits(reg, FirstVersions(n));
    BetweenIsSlice(reg, n, lo, hi);
    var ms := Between(reg, lo, hi);
    assert Versions(reg)[n] == hi;
    BetweenMembers(reg, lo, hi, hi);
    assert n + 1 < |reg| ==> Versions(reg)[n] < Versions(reg)[n + 1];
    if |ms| > 1 {
      BetweenElement(reg, lo, hi, 1);
    }
  }

  lemma UpOne(n: nat, s: Schema)
    requires n < |ENTRIES|
    ensures var st, m := State(s, FirstVersions(n)), MigrationOf(ENTRIES[n]);
            Applied(TheRegistry(), st, VersionOf(ENTRIES[n]), false, CALM)
            == (AfterUp(m, st), Report(Last(st.applied), m.version, m.version, [m.version], []), None)
  {
    hide Between, Models, Drops, RunAll, Ups, Downs;
    var reg, st, m := TheRegistry(), State(s, FirstVersions(n)), MigrationOf(ENTRIES[n]);
    RegistryIsProper();
    PrefixSplits(reg, st.applied);
    OneBetween(n);
    assert Versions(reg)[n] == m.version;
    UpAllOne(m, st);
  }

  lemma UpAllOne(m: Migration<Schema>, st: State<Schema>)
    requires m.up.Some?
    ensures UpAll([m], st, CALM) == (AfterUp(m, st), [m.version], None)
  {
    hide RunAll, AfterUp;
    assert [m][1..] == [];
    NoUps(AfterUp(m, st), CALM);
    assert [m.version] + [] == [m.version];
  }

  /** A target that undoes just the migration after the first n: below it, and not below the one before. */
  predicate JustBelow(n: nat, back: nat)
    requires n < |ENTRIES|
  {
    0 < back < VersionOf(ENTRIES[n]) && (n > 0 ==> VersionOf(ENTRIES[n - 1]) <= back)
  }

  lemma DownOne(n: nat, s: Schema, back: nat)
    requires n < |ENTRIES| && JustBelow(n, back)
    ensures var st, m := State(s, FirstVersions(n) + [VersionOf(ENTRIES[n])]), MigrationOf(ENTRIES[n]);
            Applied(TheRegistry(), st, back, true, CALM).0 == State(RunAll(m.down.value, s), FirstVersions(n))
  {
    hide Models, Drops, RunAll, Ups, Downs, DownAll, Applied, Find;
    var reg, m := TheRegistry(), MigrationOf(ENTRIES[n]);
    var st := State(s, FirstVersions(n) + [m.version]);
    PrefixPlusOne(n);
    AppliedDown(reg, st, back, CALM);
    DownAllOne(reg, st, back, CALM);
    assert st.applied[..n] == FirstVersions(n);
  }

  lemma PrefixPlusOne(n: nat)
    requires n < |ENTRIES|
    ensures var reg, m := TheRegistry(), MigrationOf(ENTRIES[n]);
            && Distinct(reg) && reg != []
            && Registered(reg, FirstVersions(n) + [m.version]) && m.version in Versions(reg)
            && Find(reg, m.version) == m
            && m.version <= Last(Versions(reg))
            && Last(FirstVersions(n)) == (if n == 0 then 0 else VersionOf(ENTRIES[n - 1])) && |FirstVersions(n)| == n
  {
    hide TheRegistry, MigrationOf, Find, Versions, Registered;
    RegistryIsProper();
    EntryAt(n);
    var reg := TheRegistry();
    assert MigrationOf(ENTRIES[n]).version == Versions(reg)[n];
    if n > 0 { EntryAt(n - 1); }
    assert FirstVersions(n) + [Versions(reg)[n]] == FirstVersions(n + 1);
    PrefixSplits(reg, FirstVersions(n + 1));
    FindIsUnique(reg, n);
  }

  lemma AppliedDown(reg: seq<Migration<Schema>>, st: State<Schema>, goal: nat, env: Env)
    requires Distinct(reg) && Registered(reg, st.applied) && reg != []
    requires 0 < goal < Last(st.applied) && goal <= Last(Versions(reg))
    ensures Applied(reg, st, goal, true, env).0 == DownAll(reg, st, goal, env).0
  {
  }

  lemma DownAllOne(reg: seq<Migration<Schema>>, st: State<Schema>, goal: nat, env: Env)
    requires Registered(reg, st.applied) && st.applied != [] && Last(st.applied) > goal
    requires Last(st.applied[..|st.applied| - 1]) <= goal && Last(st.applied) in Versions(reg)
    requires !DownFails(Find(reg, Last(st.applied)), env)
    ensures var m := Find(reg, Last(st.applied));
            DownAll(reg, st, goal, env).0 == State(RunAll(m.down.value, st.schema), st.applied[..|st.applied| - 1])
  {
  }

  lemma RoundTripIsSetAlgebra(e: Entry, s: Schema)
    ensures RunAll(Downs(Drops(e)), RunAll(Ups(Models(e)), s)) == s
            <==> Dropped(Drops(e)) !! s && Created(Models(e)) <= s + Dropped(Drops(e))
  {
    hide Drops, Models, RunAll, Ups, Downs, Dropped, Created;
    var drops := Drops(e);
    UpsAdd(Models(e), s);
    AllDownsRemove(drops, s + Created(Models(e)));
    var c, d := Created(Models(e)), Dropped(drops);
    if s + c - d == s {
      assert forall x | x in d :: x !in s + c - d;
      assert forall x | x in c && x !in d :: x in s + c - d;
    }
  }

  /**
    Up by one migration and back down restores the database if and only if the Down drops
    nothing that was there before and everything the Up added.
   */
  lemma UpAndBackRestoresIff(n: nat, s: Schema, back: nat)
    requires n < |ENTRIES| && JustBelow(n, back)
    ensures var reg, st, e := TheRegistry(), State(s, FirstVersions(n)), ENTRIES[n];
            var there := Applied(reg, st, VersionOf(e), false, CALM).0;
            Applied(reg, there, back, true, CALM).0 == st
            <==> Dropped(Drops(e)) !! s && Created(Models(e)) <= s + Dropped(Drops(e))
  {
    hide Applied, TheRegistry, Models, Drops, RunAll, Ups, Downs, Dropped, Created;
    UpOne(n, s);
    DownOne(n, RunAll(Ups(Models(ENTRIES[n])), s), back);
    RoundTripIsSetAlgebra(ENTRIES[n], s);
  }

  /** Billing-orders creates every column of today's orders, so rolling refund tracking back loses two of them. */
  lemma RefundTrackingIsNotUndone()
    ensures var reg := TheRegistry();
            var base := Applied(reg, EMPTY, VersionOf(BaseSchema), false, CALM).0;
            var st := Applied(reg, base, VersionOf(BillingOrders), false, CALM).0;
            var there := Applied(reg, st, VersionOf(RefundTracking), false, CALM).0;
            var back := Applied(reg, there, VersionOf(BillingOrders), true, CALM).0;
            && back.applied == st.applied
            && Column(RefundedCents) in st.schema && Column(RefundedCents) !in back.schema
  {
    hide Applied, TheRegistry, RunAll, Ups, Downs, Dropped, Created, Models, Drops;
    var s1 := RunAll(Ups(Models(BaseSchema)), {});
    var s2 := RunAll(Ups(Models(BillingOrders)), s1);
    FirstVersionsGrow();
    UpOne(0, {});
    UpOne(1, s1);
    UpOne(2, s2);
    DownOne(2, RunAll(Ups(Models(RefundTracking)), s2), VersionOf(BillingOrders));
    UpsAdd(Models(BillingOrders), s1);
    BillingHasRefundedCents();
    var drops := Drops(RefundTracking);
    AllDownsRemove(drops, RunAll(Ups(Models(RefundTracking)), s2));
  }

  lemma FirstVersionsGrow()
    ensures FirstVersions(0) == []
    ensures FirstVersions(1) == FirstVersions(0) + [VersionOf(BaseSchema)]
    ensures FirstVersions(2) == FirstVersions(1) + [VersionOf(BillingOrders)]
  {
    RegistryIsProper();
  }

  lemma BillingHasRefundedCents()
    ensures Column(RefundedCents) in Created(Models(BillingOrders))
    ensures Column(RefundedCents) in Dropped(Drops(RefundTracking))
  {
  }

  // ---------- what a failed Up and a rollback leave ----------

  /** A migration that fails leaves the versions alone, and the schema less what its Down, as far as it ran, drops. */
  lemma FailedUpRunsDown(n: nat, s: Schema, env: Env)
    requires n < |ENTRIES| && VersionOf(ENTRIES[n]) in env.failing
    ensures var st, e := State(s, FirstVersions(n)), ENTRIES[n];
            var (st', report, error) := Applied(TheRegistry(), st, VersionOf(e), false, env);
            var ran := if env.cleaned < |Drops(e)| then env.cleaned else |Drops(e)|;
            && error == Some(UpFailed(VersionOf(e)))
            && st' == State(s - Dropped(Drops(e)[..ran]), st.applied)
            && report.up == [] && report.down == []
  {
    hide Between, Models, Drops, RunAll, Ups, Downs, Dropped;
    var reg, st, m := TheRegistry(), State(s, FirstVersions(n)), MigrationOf(ENTRIES[n]);
    RegistryIsProper();
    PrefixSplits(reg, st.applied);
    OneBetween(n);
    assert Versions(reg)[n] == m.version;
    var k := Min(env.cleaned, |Drops(ENTRIES[n])|);
    DownsRemove(Drops(ENTRIES[n]), k, s);
    OneUpFails(m, st, env);
  }

  lemma OneUpFails(m: Migration<Schema>, st: State<Schema>, env: Env)
    requires m.version in env.failing && m.down.Some?
    ensures UpAll([m], st, env)
            == (st.(schema := RunAll(m.down.value[..Min(env.cleaned, |m.down.value|)], st.schema)), [], Some(m.version))
  {
    hide RunAll;
  }

  /** What is left of the full schema under the first n migrations: each column goes with the step named for it. */
  predicate Survives(x: Item, n: nat) {
    match x
    case Table(t) => Position(Owner(t)) < n
    case Column(c) =>
      (match c
       case Lasting => n >= 2
       case RefundedCents => n >= 3
       case RefundedAt => n >= 3
       case IdempotencyKey => n >= 6
       case _ => n >= 5)
    case IdempotencyIndex => n >= 6
  }

  /** The migrations whose Down takes a column or the index. */
  lemma PartDroppers(x: Item, e: Entry)
    requires !x.Table?
    ensures x in Dropped(Drops(e)) <==>
              || e == BillingOrders
              || (e == RefundTracking && x in {Column(RefundedCents), Column(RefundedAt)})
              || (e == PaymentTracking && x in {Column(PaymentStatus), Column(PaymentIntent), Column(PaymentReference),
                                                Column(FailureCode), Column(FailureReason)})
              || (e == IdempotencyColumn && x in {Column(IdempotencyKey), IdempotencyIndex})
  {
    hide Dropped;
    var drops := Drops(e);
    if x in Dropped(drops) { DroppedMember(drops, x); }
    if i :| 0 <= i < |drops| && x in drops[i] { DroppedContains(drops, i); }
    if x.Column? { ColumnIsPart(x.column); }
    if e == BillingOrders { assert x in drops[1]; }
    if e == RefundTracking { assert drops[0] == {Column(RefundedCents)} && drops[1] == {Column(RefundedAt)}; }
    if e == PaymentTracking {
      assert drops[1] == {Column(PaymentStatus)} && drops[2] == {Column(PaymentIntent)};
      assert drops[3] == {Column(PaymentReference)} && drops[4] == {Column(FailureCode)};
      assert drops[5] == {Column(FailureReason)};
    }
    if e == IdempotencyColumn { assert drops[0] == {IdempotencyIndex} && drops[1] == {Column(IdempotencyKey)}; }
  }

  lemma DownSheds(n: nat, x: Item)
    requires n < |ENTRIES| && Survives(x, n + 1)
    ensures x in Dropped(Drops(ENTRIES[n])) <==> !Survives(x, n)
  {
    hide Dropped, Drops;
    assert Position(ENTRIES[n]) == n;
    if x.Table? {
      OwnerDrops(x.table);
      if x in Dropped(Drops(ENTRIES[n])) { OnlyOwnerDrops(x.table, ENTRIES[n]); }
    } else {
      PartDroppers(x, ENTRIES[n]);
    }
  }

  ghost predicate IsRest(s: Schema, n: nat) { forall x: Item :: x in s <==> Survives(x, n) }

  lemma ShedOne(s: Schema, n: nat)
    requires n < |ENTRIES| && IsRest(s, n + 1)
    ensures IsRest(RunAll(Downs(Drops(ENTRIES[n])), s), n)
  {
    hide Drops, Dropped, RunAll, Downs;
    var s' := RunAll(Downs(Drops(ENTRIES[n])), s);
    AllDownsRemove(Drops(ENTRIES[n]), s);
    forall x: Item ensures x in s' <==> Survives(x, n) {
      if Survives(x, n + 1) { DownSheds(n, x); }
      SurvivesMore(x, n);
    }
  }

  lemma SurvivesMore(x: Item, n: nat)
    ensures Survives(x, n) ==> Survives(x, n + 1)
  {
  }

  lemma {:induction false} DownAllSheds(st: State<Schema>, target: nat, env: Env)
    requires PrefixClosed(TheRegistry(), st.applied) && Registered(TheRegistry(), st.applied)
    requires IsRest(st.schema, |st.applied|)
    ensures var st' := DownAll(TheRegistry(), st, target, env).0; IsRest(st'.schema, |st'.applied|)
    decreases |st.applied|
  {
    hide IsRest, Models, Drops, RunAll, Ups, Downs;
    if st.applied == [] || Last(st.applied) <= target {
    } else {
      var n, v := |st.applied| - 1, Last(st.applied);
      assert v in st.applied;
      RegistryIsProper();
      FindIsUnique(TheRegistry(), n);
      var m := MigrationOf(ENTRIES[n]);
      assert Find(TheRegistry(), v) == m;
      if !DownFails(m, env) {
        ShedOne(st.schema, n);
        DownAllSheds(State(RunAll(m.down.value, st.schema), st.applied[..n]), target, env);
      }
    }
  }

  /** From the complete schema a rollback, finished or not, leaves just what the versions still applied account for. */
  lemma RollbackSheds(s: Schema, target: nat, env: Env)
    requires target != 0 && forall x: Item :: x in s
    ensures var st' := Applied(TheRegistry(), State(s, Versions(TheRegistry())), target, true, env).0;
            forall x: Item :: x in st'.schema <==> Survives(x, |st'.applied|)
  {
    hide DownAll, UpAll, Between, Survives, TheRegistry, Versions, Proper;
    var st := State(s, Versions(TheRegistry()));
    RegistryIsProper();
    RegistryHasEntries();
    PrefixSplits(TheRegistry(), st.applied);
    forall x: Item ensures Survives(x, |ENTRIES|) { AllSurvive(x); }
    DownAllSheds(st, target, env);
    if target > Last(st.applied) { NothingAbove(target); }
  }

  lemma AllSurvive(x: Item)
    ensures Survives(x, |ENTRIES|)
  {
  }

  lemma NothingAbove(target: nat)
    requires target > Last(Versions(TheRegistry()))
    ensures forall st, allow, env :: Applied(TheRegistry(), st, target, allow, env).0 == st
  {
    hide UpAll, DownAll, Between, TheRegistry;
  }

  /** A migration makes sure of its own tables, and every one after the first of the complete orders table. */
  lemma UpEnsuresExactly(e: Entry, s: Schema, x: Item)
    ensures x in RunAll(Ups(Models(e)), s) <==>
              x in s || (x.Table? && Owner(x.table) == e) || (e != BaseSchema && (x == Table(Orders) || !x.Table?))
  {
    hide Created, RunAll, Ups, PartsOf;
    UpsAdd(Models(e), s);
    var models := Models(e);
    if x in Created(models) {
      CreatedBy(models, x);
      var i :| 0 <= i < |models| && x in PartsOf(models[i]);
      PartsAreOwn(models[i], x);
      OwnedOrOrders(e, i);
    }
    if x.Table? && Owner(x.table) == e { OwnerCreates(x.table); }
    if e != BaseSchema {
      assert models[0] == Orders;
      CreatedMember(models, 0);
      if x == Table(Orders) || !x.Table? { OrdersHasAll(x); }
    }
  }

  lemma PartsAreOwn(t: TableName, x: Item)
    requires x in PartsOf(t)
    ensures x == Table(t) || (t == Orders && !x.Table?)
  {
  }

  lemma OrdersHasAll(x: Item)
    requires x == Table(Orders) || !x.Table?
    ensures x in PartsOf(Orders)
  {
    if x.Column? { ColumnIsPart(x.column); }
  }

  lemma OwnedOrOrders(e: Entry, i: nat)
    requires i < |Models(e)|
    ensures Owner(Models(e)[i]) == e || (e != BaseSchema && Models(e)[i] == Orders)
  {
  }
}

/**
  The migration engine: Apply moves the applied versions of a database up or down a sorted
  registry, one transaction per migration.  The schema is any type, a migration a list of
  statements over it.
 */
module Migrations {
  import opened Options

  /** A registered migration; a missing direction is a nil function. */
  datatype Migration<!S> = Migration(version: nat, up: Option<seq<S -> S>>, down: Option<seq<S -> S>>)

  /** What the database will do: versions whose transaction fails, and how far a failed cleanup gets. */
  datatype Env = Env(failing: set<nat>, cleaned: nat)

  /** The schema, and the metadata table in primary key order. */
  datatype State<S> = State(schema: S, applied: seq<nat>)

  datatype Report = Report(before: nat, after: nat, target: nat, up: seq<nat>, down: seq<nat>)

  datatype Error =
    | Duplicate
    | Unregistered
    | NothingRegistered
    | TooNew
    | RollbackForbidden
    | UpFailed(version: nat)
    | DownFailed(version: nat)

  const NO_REPORT := Report(0, 0, 0, [], [])

  // ---------- the registry ----------

  /** The order the registry is sorted into when the program starts. */
  ghost predicate Sorted<S>(reg: seq<Migration<S>>) {
    forall i, j | 0 <= i < j < |reg| :: reg[i].version <= reg[j].version
  }

  ghost predicate Distinct<S>(reg: seq<Migration<S>>) {
    forall i, j | 0 <= i < j < |reg| :: reg[i].version != reg[j].version
  }

  function Versions<S>(reg: seq<Migration<S>>): (r: seq<nat>)
    ensures |r| == |reg|
    ensures forall i | 0 <= i < |reg| :: r[i] == reg[i].version
  {
    seq(|reg|, i requires 0 <= i < |reg| => reg[i].version)
  }

  function Last(versions: seq<nat>): nat {
    if versions == [] then 0 else versions[|versions| - 1]
  }

  /** The registered migrations with a version in (lo, hi], in registry order. */
  function Between<S>(reg: seq<Migration<S>>, lo: nat, hi: nat): seq<Migration<S>> {
    if reg == [] then []
    else
      var rest := Between(reg[1..], lo, hi);
      if lo < reg[0].version <= hi then [reg[0]] + rest else rest
  }

  predicate Ascending(versions: seq<nat>) {
    forall i, j | 0 <= i < j < |versions| :: versions[i] < versions[j]
  }

  /** The registered migration of a version. */
  function Find<S>(reg: seq<Migration<S>>, version: nat): (m: Migration<S>)
    requires version in Versions(reg)
    ensures m.version == version && exists i :: 0 <= i < |reg| && reg[i] == m
  {
    if reg[0].version == version then reg[0]
    else
      assert forall i | 0 < i < |reg| :: reg[1..][i - 1] == reg[i];
      Find(reg[1..], version)
  }

  // ---------- running statements ----------

  function RunAll<S>(stmts: seq<S -> S>, s: S): S {
    if stmts == [] then s else RunAll(stmts[1..], stmts[0](s))
  }

  function Min(a: nat, b: nat): nat { if a < b then a else b }

  /** What a failed Up leaves: its transaction undone, then as much of Down as takes effect, outside any transaction. */
  function Cleanup<S>(m: Migration<S>, s: S, env: Env): S {
    if m.down.None? then s else RunAll(m.down.value[..Min(env.cleaned, |m.down.value|)], s)
  }

  predicate UpFails<S>(m: Migration<S>, env: Env) { m.up.None? || m.version in env.failing }

  predicate DownFails<S>(m: Migration<S>, env: Env) { m.down.None? || m.version in env.failing }

  function AfterUp<S>(m: Migration<S>, st: State<S>): State<S>
    requires m.up.Some?
  {
    State(RunAll(m.up.value, st.schema), st.applied + [m.version])
  }

  /** Upgrades in order until one fails: the state, the versions applied, the version that failed. */
  function UpAll<S>(ms: seq<Migration<S>>, st: State<S>, env: Env): (State<S>, seq<nat>, Option<nat>)
    decreases |ms|
  {
    if ms == [] then (st, [], None)
    else if UpFails(ms[0], env) then (st.(schema := Cleanup(ms[0], st.schema, env)), [], Some(ms[0].version))
    else
      var (st', done, failed) := UpAll(ms[1..], AfterUp(ms[0], st), env);
      (st', [ms[0].version] + done, failed)
  }

  /** Rolls the latest applied version back while it is above the target, until one fails. */
  function DownAll<S>(reg: seq<Migration<S>>, st: State<S>, target: nat, env: Env): (State<S>, seq<nat>, Option<nat>)
    requires forall v | v in st.applied :: v in Versions(reg)
    decreases |st.applied|
  {
    if st.applied == [] || Last(st.applied) <= target then (st, [], None)
    else
      var v := Last(st.applied);
      assert v in st.applied;
      var m := Find(reg, v);
      if DownFails(m, env) then (st, [], Some(v))
      else
        var rest := State(RunAll(m.down.value, st.schema), st.applied[..|st.applied| - 1]);
        var (st', done, failed) := DownAll(reg, rest, target, env);
        (st', [v] + done, failed)
  }

  predicate Registered<S>(reg: seq<Migration<S>>, applied: seq<nat>) {
    forall v | v in applied :: v in Versions(reg)
  }

  /** The version a request for a target means; zero means the latest. */
  function Effective<S>(reg: seq<Migration<S>>, target: nat): nat {
    if target == 0 then Last(Versions(reg)) else target
  }

  /** The whole of Apply as one function of the state. */
  ghost function Applied<S>(reg: seq<Migration<S>>, st: State<S>, target: nat, allow: bool, env: Env)
    : (State<S>, Report, Option<Error>)
  {
    if !Distinct(reg) then (st, NO_REPORT, Some(Duplicate))
    else if !Registered(reg, st.applied) then (st, NO_REPORT, Some(Unregistered))
    else
      var before := Last(st.applied);
      var report := NO_REPORT.(before := before);
      if target != 0 && reg == [] then (st, report, Some(NothingRegistered))
      else if target > Last(Versions(reg)) then (st, report, Some(TooNew))
      else
        var goal := Effective(reg, target);
        var aimed := report.(target := goal);
        if goal > before then
          var (st', done, failed) := UpAll(Between(reg, before, goal), st, env);
          if failed.Some? then (st', aimed.(up := done), Some(UpFailed(failed.value)))
          else (st', aimed.(up := done, after := if done == [] then before else Last(done)), None)
        else if goal < before then
          if !allow then (st, aimed, Some(RollbackForbidden))
          else
            var (st', done, failed) := DownAll(reg, st, goal, env);
            if failed.Some? then (st', aimed.(down := done), Some(DownFailed(failed.value)))
            else (st', aimed.(down := done, after := Last(st'.applied)), None)
        else (st, aimed.(after := before), None)
  }

  /** The database the engine works on. */
  class Database<S(!new)> {
    var schema: S
    var applied: seq<nat>

    ghost function Now(): State<S>
      reads this
    {
      State(schema, applied)
    }

    constructor (schema: S, applied: seq<nat>)
      ensures this.schema == schema && this.applied == applied
    {
      this.schema, this.applied := schema, applied;
    }

    method Execute(stmts: seq<S -> S>)
      modifies this`schema
      ensures schema == RunAll(stmts, old(schema))
    {
      for i := 0 to |stmts|
        invariant RunAll(stmts[i..], schema) == RunAll(stmts, old(schema))
      {
        assert stmts[i..][1..] == stmts[i + 1..];
        schema := stmts[i](schema);
      }
    }

    /** One transaction; when it fails, Down runs outside any transaction. */
    method ApplyMigration(m: Migration<S>, env: Env) returns (ok: bool)
      modifies this
      ensures ok == !UpFails(m, env)
      ensures ok ==> Now() == AfterUp(m, old(Now()))
      ensures !ok ==> Now() == old(Now()).(schema := Cleanup(m, old(schema), env))
    {
      ok := m.up.Some? && m.version !in env.failing;
      if ok {
        Execute(m.up.value);
        applied := applied + [m.version];
      } else if m.down.Some? {
        Execute(m.down.value[..Min(env.cleaned, |m.down.value|)]);
      }
    }

    /** One transaction; a failure leaves schema and metadata alone. */
    method RollbackMigration(m: Migration<S>, env: Env) returns (ok: bool)
      requires applied != [] && Last(applied) == m.version
      modifies this
      ensures ok == !DownFails(m, env)
      ensures ok ==> Now() == State(RunAll(m.down.value, old(schema)), old(applied)[..|old(applied)| - 1])
      ensures !ok ==> Now() == old(Now())
    {
      ok := m.down.Some? && m.version !in env.failing;
      if ok {
        Execute(m.down.value);
        applied := applied[..|applied| - 1];
      }
    }

    method Apply(reg: seq<Migration<S>>, target: nat, allow: bool, env: Env)
      returns (report: Report, error: Option<Error>)
      requires Sorted(reg) && Ascending(applied)
      modifies this
      ensures (Now(), report, error) == Applied(reg, old(Now()), target, allow, env)
    {
      report := NO_REPORT;
      var current := Highest(applied);
      var latest, duplicate := ReadRegistry(reg);
      if duplicate {
        return report, Some(Duplicate);
      }
      for i := 0 to |applied|
        invariant Registered(reg, applied[..i])
      {
        if applied[i] !in Versions(reg) {
          return report, Some(Unregistered);
        }
      }
      assert applied[..|applied|] == applied;

      report := report.(before := current);
      var goal := target;
      if target == 0 {
        goal := latest;
      } else if |reg| == 0 {
        return report, Some(NothingRegistered);
      } else if target > latest {
        return report, Some(TooNew);
      }
      report := report.(target := goal);

      if goal > current {
        var done, failed := Upgrade(reg, goal, current, env);
        report := report.(up := done);
        if failed.Some? {
          return report, Some(UpFailed(failed.value));
        }
        current := if done == [] then current else Last(done);
      } else if goal < current {
        if !allow {
          return report, Some(RollbackForbidden);
        }
        var done, failed := Rollback(reg, goal, env);
        report := report.(down := done);
        if failed.Some? {
          return report, Some(DownFailed(failed.value));
        }
        DownAllShrinks(reg, old(Now()), goal, env);
        current := Highest(applied);
      }
      report := report.(after := current);
      error := None;
    }

    /** The highest of the recorded versions, zero if there are none. */
    static method Highest(versions: seq<nat>) returns (highest: nat)
      requires Ascending(versions)
      ensures highest == Last(versions)
    {
      highest := 0;
      for i := 0 to |versions|
        invariant highest == Last(versions[..i])
      {
        if versions[i] > highest { highest := versions[i]; }
      }
      assert versions[..|versions|] == versions;
    }

    /** One pass over the registry: a repeated version, and the latest one. */
    static method ReadRegistry(reg: seq<Migration<S>>) returns (latest: nat, duplicate: bool)
      requires Sorted(reg)
      ensures duplicate <==> !Distinct(reg)
      ensures !duplicate ==> latest == Last(Versions(reg))
    {
      latest, duplicate := 0, false;
      var seen: set<nat> := {};
      for i := 0 to |reg|
        invariant seen == set k | 0 <= k < i :: reg[k].version
        invariant Distinct(reg[..i])
        invariant latest == Last(Versions(reg[..i]))
      {
        if reg[i].version in seen {
          var k :| 0 <= k < i && reg[k].version == reg[i].version;
          return latest, true;
        }
        seen := seen + {reg[i].version};
        assert forall k | 0 <= k < i :: reg[..i + 1][k] == reg[..i][k];
        if reg[i].version > latest { latest := reg[i].version; }
      }
      assert reg[..|reg|] == reg;
    }

    /** Walks the sorted registry, skipping what is behind and stopping at what is beyond the target. */
    method Upgrade(reg: seq<Migration<S>>, goal: nat, start: nat, env: Env)
      returns (done: seq<nat>, failed: Option<nat>)
      requires Sorted(reg) && Distinct(reg)
      modifies this
      ensures (Now(), done, failed) == UpAll(Between(reg, start, goal), old(Now()), env)
    {
      var current := start;
      done, failed := [], None;
      assert reg[0..] == reg;
      AfterLaws([], 0, UpAll(Between(reg, start, goal), Now(), env));
      var i := 0;
      while i < |reg|
        invariant 0 <= i <= |reg|
        invariant current == start || (start <= current && exists k :: 0 <= k < i && current == reg[k].version)
        invariant UpAll(Between(reg, start, goal), old(Now()), env)
                  == After(done, UpAll(Between(reg[i..], start, goal), Now(), env))
      {
        var m := reg[i];
        assert reg[i..][1..] == reg[i + 1..];
        if m.version <= current {
          i := i + 1;
          continue;
        }
        if m.version > goal {
          BetweenBeyond(reg[i..], start, goal);
          break;
        }
        var ok := ApplyMigration(m, env);
        if !ok {
          failed := Some(m.version);
          assert done + [] == done;
          return;
        }
        AfterLaws(done, m.version, UpAll(Between(reg[i + 1..], start, goal), Now(), env));
        done := done + [m.version];
        current := m.version;
        i := i + 1;
      }
      assert done + [] == done;
    }

    /** Walks the loaded versions downwards, stopping at the first that stays. */
    method Rollback(reg: seq<Migration<S>>, goal: nat, env: Env) returns (done: seq<nat>, failed: Option<nat>)
      requires Registered(reg, applied)
      modifies this
      ensures Registered(reg, old(applied))
      ensures (Now(), done, failed) == DownAll(reg, old(Now()), goal, env)
    {
      var loaded := applied;
      done, failed := [], None;
      assert loaded[..|loaded|] == loaded;
      AfterLaws([], 0, DownAll(reg, Now(), goal, env));
      var i := |loaded|;
      while i > 0
        invariant 0 <= i <= |loaded| && applied == loaded[..i]
        invariant DownAll(reg, old(Now()), goal, env) == After(done, DownAll(reg, Now(), goal, env))
      {
        if loaded[i - 1] <= goal {
          break;
        }
        assert applied[..|applied| - 1] == loaded[..i - 1];
        var m := Find(reg, loaded[i - 1]);
        var ok := RollbackMigration(m, env);
        if !ok {
          failed := Some(m.version);
          assert done + [] == done;
          return;
        }
        AfterLaws(done, m.version, DownAll(reg, Now(), goal, env));
        done := done + [m.version];
        i := i - 1;
      }
      assert done + [] == done;
    }
  }

  /** An outcome with versions that were done before it. */
  function After<S>(done: seq<nat>, rest: (State<S>, seq<nat>, Option<nat>)): (State<S>, seq<nat>, Option<nat>) {
    (rest.0, done + rest.1, rest.2)
  }

  lemma AfterLaws<S>(done: seq<nat>, v: nat, rest: (State<S>, seq<nat>, Option<nat>))
    ensures After([], rest) == rest
    ensures After(done, (rest.0, [v] + rest.1, rest.2)) == After(done + [v], rest)
  {
    assert [] + rest.1 == rest.1;
    assert done + ([v] + rest.1) == done + [v] + rest.1;
  }

  lemma {:induction false} BetweenBeyond<S>(reg: seq<Migration<S>>, lo: nat, hi: nat)
    requires forall i | 0 <= i < |reg| :: reg[i].version > hi
    ensures Between(reg, lo, hi) == []
  {
    if reg == [] {
    } else {
      BetweenBeyond(reg[1..], lo, hi);
    }
  }

  /** A rollback leaves a prefix of the applied versions and reports the others, latest first. */
  lemma {:induction false} DownAllShrinks<S>(reg: seq<Migration<S>>, st: State<S>, target: nat, env: Env)
    requires Registered(reg, st.applied)
    ensures var (st', done, failed) := DownAll(reg, st, target, env);
            && st'.applied <= st.applied
            && |done| == |st.applied| - |st'.applied|
            && (forall i | 0 <= i < |done| :: done[i] == st.applied[|st.applied| - 1 - i])
            && (forall i | |st'.applied| <= i < |st.applied| :: st.applied[i] > target)
            && (failed.None? <==> st'.applied == [] || Last(st'.applied) <= target)
            && (failed.Some? ==> failed.value == Last(st'.applied))
    decreases |st.applied|
  {
    hide RunAll, Find, Versions;
    if st.applied != [] && Last(st.applied) > target {
      var v := Last(st.applied);
      assert v in st.applied;
      var m := Find(reg, v);
      if !DownFails(m, env) {
        var rest := State(RunAll(m.down.value, st.schema), st.applied[..|st.applied| - 1]);
        DownAllShrinks(reg, rest, target, env);
      }
    }
  }
}

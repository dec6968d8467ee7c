/** What Apply guarantees, for any registry: set assignment, prefix-closedness, retry and undo. */
module MigrationTheorems {
  import opened Options
  import opened Migrations

  // ---------- shapes ----------

  lemma {:induction false} BetweenMembers<S>(reg: seq<Migration<S>>, lo: nat, hi: nat, v: nat)
    ensures v in Versions(Between(reg, lo, hi)) <==> v in Versions(reg) && lo < v <= hi
  {
    if reg == [] {
    } else {
      BetweenMembers(reg[1..], lo, hi, v);
      var rest := Between(reg[1..], lo, hi);
      assert v in Versions(reg) <==> v == reg[0].version || v in Versions(reg[1..]) by {
        assert Versions(reg) == [reg[0].version] + Versions(reg[1..]);
      }
      assert Versions([reg[0]] + rest) == [reg[0].version] + Versions(rest);
    }
  }

  /** In a strictly sorted registry the versions between two bounds are one slice. */
  lemma {:induction false} BetweenIsSlice<S>(reg: seq<Migration<S>>, n: nat, lo: nat, hi: nat)
    requires Ascending(Versions(reg)) && n <= |reg|
    requires forall i | 0 <= i < |reg| :: reg[i].version <= lo <==> i < n
    ensures var ms := Between(reg, lo, hi);
            n + |ms| <= |reg| && forall j | 0 <= j < |ms| :: ms[j] == reg[n + j]
  {
    hide Versions;
    if reg == [] {
    } else {
      var rest := reg[1..];
      assert forall i | 0 <= i < |rest| :: rest[i] == reg[i + 1] && Versions(rest)[i] == Versions(reg)[i + 1];
      if n > 0 {
        BetweenIsSlice(rest, n - 1, lo, hi);
      } else if reg[0].version > hi {
        assert forall i | 0 <= i < |reg| :: Versions(reg)[i] == reg[i].version;
        BetweenBeyond(reg, lo, hi);
      } else {
        BetweenIsSlice(rest, 0, lo, hi);
      }
    }
  }

  /** An upgrade applies a prefix of what it was given and appends it to the metadata. */
  lemma {:induction false} UpAllShape<S>(ms: seq<Migration<S>>, st: State<S>, env: Env)
    ensures var (st', done, failed) := UpAll(ms, st, env);
            && |done| <= |ms| && done == Versions(ms)[..|done|]
            && st'.applied == st.applied + done
            && (forall i | 0 <= i < |done| :: !UpFails(ms[i], env))
            && (failed.None? <==> |done| == |ms|)
            && (failed.Some? ==> failed.value == ms[|done|].version && UpFails(ms[|done|], env))
    decreases |ms|
  {
    hide Cleanup, RunAll, Versions;
    if ms != [] && !UpFails(ms[0], env) {
      var mid := AfterUp(ms[0], st);
      UpAllShape(ms[1..], mid, env);
      var done := UpAll(ms[1..], mid, env).1;
      assert Versions(ms)[..1 + |done|] == [ms[0].version] + Versions(ms[1..])[..|done|];
      assert st.applied + [ms[0].version] + done == st.applied + ([ms[0].version] + done);
    }
  }

  lemma JoinAscends(a: seq<nat>, b: seq<nat>)
    requires Ascending(a) && Ascending(b) && forall x, y | x in a && y in b :: x < y
    ensures Ascending(a + b)
  {
    forall i, j | 0 <= i < j < |a + b| ensures (a + b)[i] < (a + b)[j] {
      if i < |a| <= j { assert a[i] in a && b[j - |a|] in b; }
    }
  }

  lemma {:induction false} BetweenAscends<S>(reg: seq<Migration<S>>, lo: nat, hi: nat)
    requires Sorted(reg) && Distinct(reg)
    ensures Ascending(Versions(Between(reg, lo, hi)))
  {
    if reg == [] {
    } else {
      BetweenAscends(reg[1..], lo, hi);
      var rest := Between(reg[1..], lo, hi);
      assert Versions([reg[0]] + rest) == [reg[0].version] + Versions(rest);
      forall v | v in Versions(rest) ensures reg[0].version < v {
        BetweenMembers(reg[1..], lo, hi, v);
        var i :| 0 <= i < |reg[1..]| && reg[1..][i].version == v;
        assert reg[i + 1].version == v;
      }
      JoinAscends([reg[0].version], Versions(rest));
    }
  }

  // ---------- set assignment ----------

  /** The versions rolled back, read upwards. */
  function Reversed(l: seq<nat>): (r: seq<nat>)
    ensures |r| == |l| && forall i | 0 <= i < |l| :: r[i] == l[|l| - 1 - i]
  {
    seq(|l|, i requires 0 <= i < |l| => l[|l| - 1 - i])
  }

  lemma SuccessfulUpgrade<S>(reg: seq<Migration<S>>, st: State<S>, goal: nat, env: Env)
    requires Sorted(reg) && Distinct(reg) && Ascending(st.applied)
    requires UpAll(Between(reg, Last(st.applied), goal), st, env).2.None?
    ensures var (st', done, _) := UpAll(Between(reg, Last(st.applied), goal), st, env);
            && done == Versions(Between(reg, Last(st.applied), goal))
            && st'.applied == st.applied + done
            && Ascending(st'.applied)
            && Last(st'.applied) == if done == [] then Last(st.applied) else Last(done)
  {
    var ms := Between(reg, Last(st.applied), goal);
    UpAllShape(ms, st, env);
    hide UpAll, Between;
    var done := UpAll(ms, st, env).1;
    assert Versions(ms)[..|ms|] == Versions(ms);
    BetweenAscends(reg, Last(st.applied), goal);
    AppendAscends(reg, st.applied, goal, done);
  }

  lemma SuccessfulRollback<S>(reg: seq<Migration<S>>, st: State<S>, goal: nat, env: Env)
    requires Registered(reg, st.applied) && Ascending(st.applied)
    requires DownAll(reg, st, goal, env).2.None?
    ensures var (st', done, _) := DownAll(reg, st, goal, env);
            && st.applied == st'.applied + Reversed(done)
            && Ascending(st'.applied)
            && forall v :: v in st'.applied <==> v in st.applied && v <= goal
  {
    hide DownAll;
    DownAllShrinks(reg, st, goal, env);
    var (st', done, _) := DownAll(reg, st, goal, env);
    KeptIsBelow(st.applied, st'.applied, done, goal);
  }

  lemma KeptIsBelow(applied: seq<nat>, kept: seq<nat>, done: seq<nat>, goal: nat)
    requires Ascending(applied) && kept <= applied && (kept == [] || Last(kept) <= goal)
    requires |done| == |applied| - |kept|
    requires forall i | 0 <= i < |done| :: done[i] == applied[|applied| - 1 - i]
    requires forall i | |kept| <= i < |applied| :: applied[i] > goal
    ensures applied == kept + Reversed(done) && Ascending(kept)
    ensures forall v :: v in kept <==> v in applied && v <= goal
  {
  }

  /** Nothing is registered strictly above the target and up to a version that is not below it. */
  lemma NothingBetween<S>(reg: seq<Migration<S>>, lo: nat, hi: nat)
    requires hi <= lo
    ensures Between(reg, lo, hi) == []
  {
  }

  /**
    What success means with no assumption on the metadata's history: versions above the
    target are gone, registered ones between the old and the new version are there, and the
    report lists both differences, ascending and descending.
   */
  lemma SuccessMoves<S>(reg: seq<Migration<S>>, st: State<S>, target: nat, allow: bool, env: Env, v: nat)
    requires Sorted(reg) && Ascending(st.applied)
    requires Applied(reg, st, target, allow, env).2.None?
    ensures var (st', report, _) := Applied(reg, st, target, allow, env);
            && report.before == Last(st.applied) && report.target == Effective(reg, target)
            && report.after == Last(st'.applied)
            && Ascending(st'.applied)
            && (v in st'.applied <==>
                (v in st.applied && v <= report.target) || (v in Versions(reg) && report.before < v <= report.target))
            && report.up == Versions(Between(reg, report.before, report.target))
            && (report.target >= report.before ==> st'.applied == st.applied + report.up && report.down == [])
            && (report.target <= report.before ==> st.applied == st'.applied + Reversed(report.down))
  {
    var goal, before := Effective(reg, target), Last(st.applied);
    BetweenMembers(reg, before, goal, v);
    LastIsHighest(st.applied);
    hide UpAll, DownAll, Between;
    if goal > before {
      SuccessfulUpgrade(reg, st, goal, env);
    } else {
      NothingBetween(reg, before, goal);
      if goal < before {
        SuccessfulRollback(reg, st, goal, env);
      } else {
        assert st.applied + [] == st.applied;
        assert Reversed([]) == [];
      }
    }
  }

  lemma LastIsHighest(versions: seq<nat>)
    requires Ascending(versions)
    ensures forall v | v in versions :: v <= Last(versions)
  {
  }

  lemma AppendAscends<S>(reg: seq<Migration<S>>, applied: seq<nat>, goal: nat, done: seq<nat>)
    requires Ascending(applied) && done == Versions(Between(reg, Last(applied), goal)) && Ascending(done)
    ensures Ascending(applied + done)
  {
    LastIsHighest(applied);
    forall v | v in done ensures Last(applied) < v {
      BetweenMembers(reg, Last(applied), goal, v);
    }
    JoinAscends(applied, done);
  }

  /**
    Apply assigns the metadata exactly the registered versions up to the target if and only
    if the metadata had no gap below both the old version and the target.
   */
  lemma SuccessAssignsIff<S>(reg: seq<Migration<S>>, st: State<S>, target: nat, allow: bool, env: Env)
    requires Sorted(reg) && Ascending(st.applied)
    requires Applied(reg, st, target, allow, env).2.None?
    ensures var (st', report, _) := Applied(reg, st, target, allow, env);
            (forall v :: v in st'.applied <==> v in Versions(reg) && v <= report.target)
            <==> (forall v | v in Versions(reg) && v <= Min(report.before, report.target) :: v in st.applied)
  {
    forall v { SuccessMoves(reg, st, target, allow, env, v); }
    SuccessMoves(reg, st, target, allow, env, 0);
    LastIsHighest(st.applied);
    var (st', report, _) := Applied(reg, st, target, allow, env);
    assert Registered(reg, st.applied);
    if forall v :: v in st'.applied <==> v in Versions(reg) && v <= report.target {
      forall v | v in Versions(reg) && v <= Min(report.before, report.target) ensures v in st.applied {
        assert v in st'.applied;
      }
    }
  }

  // ---------- prefix-closed metadata ----------

  /** A registry as the program builds it: sorted, without repeats, versions positive. */
  ghost predicate Proper<S>(reg: seq<Migration<S>>) {
    Sorted(reg) && Distinct(reg) && forall i | 0 <= i < |reg| :: reg[i].version > 0
  }

  /** The applied versions are the first so many registered ones. */
  ghost predicate PrefixClosed<S>(reg: seq<Migration<S>>, applied: seq<nat>) { applied <= Versions(reg) }

  /** Behind a prefix lie exactly the versions up to its last. */
  lemma PrefixSplits<S>(reg: seq<Migration<S>>, applied: seq<nat>)
    requires Proper(reg) && PrefixClosed(reg, applied)
    ensures Registered(reg, applied) && Ascending(applied) && Ascending(Versions(reg)) && |applied| <= |reg|
    ensures forall i | 0 <= i < |reg| :: reg[i].version <= Last(applied) <==> i < |applied|
  {
  }

  /** An upgrade adds the next registered versions in order and, if it fails, fails at the one after them. */
  lemma UpgradeGoesInOrder<S>(reg: seq<Migration<S>>, st: State<S>, goal: nat, env: Env)
    requires Proper(reg) && PrefixClosed(reg, st.applied)
    ensures var (st', done, failed) := UpAll(Between(reg, Last(st.applied), goal), st, env);
            && st'.applied == st.applied + done
            && |st'.applied| <= |reg|
            && (forall j | 0 <= j < |done| :: done[j] == Versions(reg)[|st.applied| + j])
            && (failed.Some? ==> |st'.applied| < |reg| && failed.value == reg[|st'.applied|].version)
  {
    var n, ms := |st.applied|, Between(reg, Last(st.applied), goal);
    hide UpAll, Between, Versions, Proper, UpFails, PrefixClosed, Ascending, Registered;
    PrefixSplits(reg, st.applied);
    BetweenIsSlice(reg, n, Last(st.applied), goal);
    UpAllShape(ms, st, env);
    SliceVersions(reg, n, ms, UpAll(ms, st, env).1);
  }

  lemma SliceVersions<S>(reg: seq<Migration<S>>, n: nat, ms: seq<Migration<S>>, done: seq<nat>)
    requires n + |ms| <= |reg| && forall j | 0 <= j < |ms| :: ms[j] == reg[n + j]
    requires |done| <= |ms| && done == Versions(ms)[..|done|]
    ensures forall j | 0 <= j < |done| :: done[j] == Versions(reg)[n + j]
  {
  }

  lemma UpgradeExtendsPrefix<S>(reg: seq<Migration<S>>, st: State<S>, goal: nat, env: Env)
    requires Proper(reg) && PrefixClosed(reg, st.applied)
    ensures PrefixClosed(reg, UpAll(Between(reg, Last(st.applied), goal), st, env).0.applied)
  {
    hide UpAll, Between, Versions, Proper;
    UpgradeGoesInOrder(reg, st, goal, env);
  }

  /**
    Whatever the outcome, success or a failure at any migration in either direction, the
    metadata is the old one plus what the report says was applied, or minus what it says was
    rolled back, and it is still a prefix of the registry.
   */
  lemma ApplyKeepsPrefix<S>(reg: seq<Migration<S>>, st: State<S>, target: nat, allow: bool, env: Env)
    requires Proper(reg) && PrefixClosed(reg, st.applied)
    ensures var (st', report, error) := Applied(reg, st, target, allow, env);
            && PrefixClosed(reg, st'.applied)
            && (report.down == [] ==> st'.applied == st.applied + report.up)
            && (report.down != [] ==> report.up == [] && st.applied == st'.applied + Reversed(report.down))
            && (error.Some? && error.value.UpFailed? ==>
                  |st'.applied| < |reg| && error.value.version == reg[|st'.applied|].version)
            && (error.Some? && error.value.DownFailed? ==>
                  st'.applied != [] && error.value.version == Last(st'.applied))
  {
    hide UpAll, DownAll, Between, Versions, PrefixClosed, Proper, Ascending;
    var goal := Effective(reg, target);
    PrefixSplits(reg, st.applied);
    assert st.applied + [] == st.applied;
    if goal > Last(st.applied) {
      UpgradeExtendsPrefix(reg, st, goal, env);
      UpgradeGoesInOrder(reg, st, goal, env);
    } else if goal < Last(st.applied) {
      RollbackKeepsPrefix(reg, st, goal, env);
    }
  }

  lemma RollbackKeepsPrefix<S>(reg: seq<Migration<S>>, st: State<S>, goal: nat, env: Env)
    requires Proper(reg) && PrefixClosed(reg, st.applied) && Registered(reg, st.applied)
    ensures var (st', done, failed) := DownAll(reg, st, goal, env);
            && PrefixClosed(reg, st'.applied)
            && st.applied == st'.applied + Reversed(done)
            && (failed.Some? ==> st'.applied != [] && failed.value == Last(st'.applied))
  {
    hide DownAll, Versions;
    DownAllShrinks(reg, st, goal, env);
    var (st', done, _) := DownAll(reg, st, goal, env);
    assert st.applied[|st'.applied|..] == Reversed(done);
    assert st.applied == st'.applied + st.applied[|st'.applied|..];
  }

  /** One call of Apply in a run, with what the database will do to it. */
  datatype Call = Call(target: nat, allow: bool, env: Env)

  ghost function ApplyAll<S>(reg: seq<Migration<S>>, st: State<S>, calls: seq<Call>): State<S> {
    if calls == [] then st
    else
      var last := calls[|calls| - 1];
      Applied(reg, ApplyAll(reg, st, calls[..|calls| - 1]), last.target, last.allow, last.env).0
  }

  /** Over any run of calls, refused, failed or successful, the metadata stays a prefix of the registry. */
  lemma {:induction false} RunsKeepPrefix<S>(reg: seq<Migration<S>>, st: State<S>, calls: seq<Call>)
    requires Proper(reg) && PrefixClosed(reg, st.applied)
    ensures PrefixClosed(reg, ApplyAll(reg, st, calls).applied)
  {
    hide Applied, PrefixClosed, Proper;
    if calls == [] {
    } else {
      var rest, last := calls[..|calls| - 1], calls[|calls| - 1];
      RunsKeepPrefix(reg, st, rest);
      ApplyKeepsPrefix(reg, ApplyAll(reg, st, rest), last.target, last.allow, last.env);
    }
  }

  // ---------- re-running ----------

  /** Every migration has both directions and the database refuses none of them. */
  ghost predicate Calm<S>(reg: seq<Migration<S>>, env: Env) {
    forall i | 0 <= i < |reg| :: !UpFails(reg[i], env) && !DownFails(reg[i], env)
  }

  lemma {:induction false} CalmDownAllSucceeds<S>(reg: seq<Migration<S>>, st: State<S>, goal: nat, env: Env)
    requires Registered(reg, st.applied) && Calm(reg, env)
    ensures DownAll(reg, st, goal, env).2.None?
    decreases |st.applied|
  {
    if st.applied != [] && Last(st.applied) > goal {
      assert Last(st.applied) in st.applied;
      var m := Find(reg, Last(st.applied));
      CalmDownAllSucceeds(reg, State(RunAll(m.down.value, st.schema), st.applied[..|st.applied| - 1]), goal, env);
    }
  }

  /** A target the registry can reach, with permission if it lies behind. */
  ghost predicate Reachable<S>(reg: seq<Migration<S>>, st: State<S>, target: nat, allow: bool) {
    && (target != 0 ==> reg != [] && target <= Last(Versions(reg)))
    && (Effective(reg, target) < Last(st.applied) ==> allow)
  }

  /** After any failure, running Apply again on a calm database finishes the job. */
  lemma RetryFinishes<S>(reg: seq<Migration<S>>, st: State<S>, target: nat, allow: bool, env: Env, calm: Env, v: nat)
    requires Proper(reg) && PrefixClosed(reg, st.applied) && Reachable(reg, st, target, allow) && Calm(reg, calm)
    ensures var (failed, _, _) := Applied(reg, st, target, allow, env);
            var (done, report, error) := Applied(reg, failed, target, allow, calm);
            && error.None?
            && (v in done.applied <==> v in Versions(reg) && v <= report.target)
            && report.after == Last(done.applied) && report.target == Effective(reg, target)
  {
    ApplyKeepsPrefix(reg, st, target, allow, env);
    var failed := Applied(reg, st, target, allow, env).0;
    StillReachable(reg, st, target, allow, env);
    CalmSucceeds(reg, failed, target, allow, calm);
    PrefixSplits(reg, failed.applied);
    SuccessMoves(reg, failed, target, allow, calm, v);
    hide Applied;
    var (done, report, _) := Applied(reg, failed, target, allow, calm);
    if v in Versions(reg) && v !in failed.applied { MissingIsBeyond(reg, failed.applied, v); }
  }

  lemma MissingIsBeyond<S>(reg: seq<Migration<S>>, applied: seq<nat>, v: nat)
    requires Proper(reg) && PrefixClosed(reg, applied) && v in Versions(reg) && v !in applied
    ensures v > Last(applied)
  {
  }

  lemma StillReachable<S>(reg: seq<Migration<S>>, st: State<S>, target: nat, allow: bool, env: Env)
    requires Proper(reg) && PrefixClosed(reg, st.applied) && Reachable(reg, st, target, allow)
    ensures Reachable(reg, Applied(reg, st, target, allow, env).0, target, allow)
  {
    var goal, ms := Effective(reg, target), Between(reg, Last(st.applied), Effective(reg, target));
    PrefixSplits(reg, st.applied);
    if goal > Last(st.applied) {
      UpAllShape(ms, st, env);
      var done := UpAll(ms, st, env).1;
      if done != [] {
        assert Last(done) == Versions(ms)[|done| - 1];
        BetweenMembers(reg, Last(st.applied), goal, Last(done));
      }
    }
  }

  lemma CalmSucceeds<S>(reg: seq<Migration<S>>, st: State<S>, target: nat, allow: bool, env: Env)
    requires Proper(reg) && PrefixClosed(reg, st.applied) && Reachable(reg, st, target, allow) && Calm(reg, env)
    ensures Applied(reg, st, target, allow, env).2.None?
  {
    var goal, before := Effective(reg, target), Last(st.applied);
    PrefixSplits(reg, st.applied);
    var ms := Between(reg, before, goal);
    if goal > before {
      UpAllShape(ms, st, env);
      BetweenIsSlice(reg, |st.applied|, before, goal);
    } else if goal < before {
      CalmDownAllSucceeds(reg, st, goal, env);
    }
  }

  // ---------- undo ----------

  /** The schema after the Ups of a list of migrations. */
  function RunUps<S>(ms: seq<Migration<S>>, s: S): S {
    if ms == [] then s
    else
      var last, before := ms[|ms| - 1], RunUps(ms[..|ms| - 1], s);
      if last.up.Some? then RunAll(last.up.value, before) else before
  }

  /** Each Down takes back its Up, at the schema where that Up runs. */
  ghost predicate Undoes<S(!new)>(ms: seq<Migration<S>>, s: S) {
    ms == []
    || var last, before := ms[|ms| - 1], ms[..|ms| - 1];
       && Undoes(before, s)
       && last.up.Some? && last.down.Some?
       && RunAll(last.down.value, RunAll(last.up.value, RunUps(before, s))) == RunUps(before, s)
  }

  lemma {:induction false} UpAllLast<S>(ms: seq<Migration<S>>, st: State<S>, env: Env)
    requires ms != [] && UpAll(ms, st, env).2.None?
    ensures var before, last := UpAll(ms[..|ms| - 1], st, env), ms[|ms| - 1];
            before.2.None? && !UpFails(last, env) && UpAll(ms, st, env).0 == AfterUp(last, before.0)
    decreases |ms|
  {
    hide RunAll, Cleanup;
    if |ms| > 1 {
      UpAllLast(ms[1..], AfterUp(ms[0], st), env);
      assert ms[1..][..|ms| - 2] == ms[..|ms| - 1][1..];
    }
  }

  lemma {:induction false} UpAllSchema<S>(ms: seq<Migration<S>>, st: State<S>, env: Env)
    requires UpAll(ms, st, env).2.None?
    ensures UpAll(ms, st, env).0.schema == RunUps(ms, st.schema)
    decreases |ms|
  {
    hide RunAll, UpAll;
    if ms != [] {
      UpAllLast(ms, st, env);
      UpAllSchema(ms[..|ms| - 1], st, env);
    } else {
      NoUps(st, env);
    }
  }

  lemma NoUps<S>(st: State<S>, env: Env)
    ensures UpAll([], st, env) == (st, [], None)
  {
  }

  lemma FindIsUnique<S>(reg: seq<Migration<S>>, i: nat)
    requires Distinct(reg) && i < |reg|
    ensures reg[i].version in Versions(reg) && Find(reg, reg[i].version) == reg[i]
  {
  }

  /** Rolling back what was just applied, latest first, restores schema and metadata together. */
  lemma {:induction false} DownUndoesUp<S(!new)>(
      reg: seq<Migration<S>>, ms: seq<Migration<S>>, st: State<S>, back: nat, env: Env, env': Env)
    requires Distinct(reg)
    requires forall j | 0 <= j < |ms| :: ms[j].version > back && exists i :: 0 <= i < |reg| && reg[i] == ms[j]
    requires UpAll(ms, st, env).2.None? && Undoes(ms, st.schema)
    requires Last(st.applied) <= back
    requires Registered(reg, UpAll(ms, st, env).0.applied)
    requires DownAll(reg, UpAll(ms, st, env).0, back, env').2.None?
    ensures DownAll(reg, UpAll(ms, st, env).0, back, env').0 == st
    decreases |ms|
  {
    hide RunAll, UpAll, Find, Registered, Versions, Distinct;
    if ms == [] {
      NoUps(st, env);
    } else {
      var before, m := ms[..|ms| - 1], ms[|ms| - 1];
      UpAllLast(ms, st, env);
      UpAllSchema(before, st, env);
      var mid, final := UpAll(before, st, env).0, UpAll(ms, st, env).0;
      var i :| 0 <= i < |reg| && reg[i] == m;
      FindIsUnique(reg, i);
      assert final.applied[..|final.applied| - 1] == mid.applied;
      FewerRegistered(reg, mid.applied, m.version);
      DownUndoesUp(reg, before, st, back, env, env');
    }
  }

  lemma FewerRegistered<S>(reg: seq<Migration<S>>, applied: seq<nat>, v: nat)
    requires Registered(reg, applied + [v])
    ensures Registered(reg, applied)
  {
  }

  /**
    Undo, for any registry: if the Downs take back the Ups that an upgrade ran, rolling back
    to just below them returns the very state before it.  Zero is no such target: it means
    the latest version.
   */
  lemma RollbackUndoesUpgrade<S(!new)>(
      reg: seq<Migration<S>>, st: State<S>, target: nat, back: nat, env: Env, env': Env)
    requires Proper(reg) && PrefixClosed(reg, st.applied)
    requires Applied(reg, st, target, false, env).2.None? && Effective(reg, target) > Last(st.applied)
    requires back != 0 && Last(st.applied) <= back && Between(reg, Last(st.applied), back) == []
    requires Undoes(Between(reg, Last(st.applied), Effective(reg, target)), st.schema)
    requires var there := Applied(reg, st, target, false, env).0; Applied(reg, there, back, true, env').2.None?
    ensures var there := Applied(reg, st, target, false, env).0; Applied(reg, there, back, true, env').0 == st
  {
    var before, goal := Last(st.applied), Effective(reg, target);
    var ms := Between(reg, before, goal);
    PrefixSplits(reg, st.applied);
    var there := Applied(reg, st, target, false, env).0;
    assert there == UpAll(ms, st, env).0;
    UpgradeLiesAbove(reg, st, goal, back, env);
    if ms == [] {
      NoUps(st, env);
      StayingChangesNothing(reg, st, back, env');
    } else {
      hide Undoes, UpAll, DownAll, Between, Proper;
      DownUndoesUp(reg, ms, st, back, env, env');
    }
  }

  lemma {:induction false} BetweenElement<S>(reg: seq<Migration<S>>, lo: nat, hi: nat, j: nat)
    requires j < |Between(reg, lo, hi)|
    ensures lo < Between(reg, lo, hi)[j].version <= hi
    ensures exists i :: 0 <= i < |reg| && reg[i] == Between(reg, lo, hi)[j]
  {
    if !(lo < reg[0].version <= hi) {
      BetweenElement(reg[1..], lo, hi, j);
      var i :| 0 <= i < |reg[1..]| && reg[1..][i] == Between(reg[1..], lo, hi)[j];
      assert reg[i + 1] == Between(reg, lo, hi)[j];
    } else if j > 0 {
      BetweenElement(reg[1..], lo, hi, j - 1);
      var i :| 0 <= i < |reg[1..]| && reg[1..][i] == Between(reg[1..], lo, hi)[j - 1];
      assert reg[i + 1] == Between(reg, lo, hi)[j];
    }
  }

  lemma ElementsLieAbove<S>(reg: seq<Migration<S>>, before: nat, goal: nat, back: nat)
    requires Between(reg, before, back) == []
    ensures var ms := Between(reg, before, goal);
            forall j | 0 <= j < |ms| :: ms[j].version > back && exists i :: 0 <= i < |reg| && reg[i] == ms[j]
  {
  }

  lemma UpgradeLiesAbove<S>(reg: seq<Migration<S>>, st: State<S>, goal: nat, back: nat, env: Env)
    requires Proper(reg) && PrefixClosed(reg, st.applied)
    requires Between(reg, Last(st.applied), back) == []
    requires UpAll(Between(reg, Last(st.applied), goal), st, env).2.None?
    ensures var ms := Between(reg, Last(st.applied), goal);
            var there := UpAll(ms, st, env).0;
            && (forall j | 0 <= j < |ms| :: ms[j].version > back && exists i :: 0 <= i < |reg| && reg[i] == ms[j])
            && Registered(reg, there.applied)
            && (ms != [] ==> Last(there.applied) > back)
            && (ms == [] ==> there == st)
  {
    hide Between, UpAll, Proper, Versions, PrefixClosed, Registered, UpFails;
    var before := Last(st.applied);
    var ms := Between(reg, before, goal);
    ElementsLieAbove(reg, before, goal, back);
    UpAllShape(ms, st, env);
    var there := UpAll(ms, st, env).0;
    if ms == [] {
      NoUps(st, env);
    } else {
      assert Last(there.applied) == ms[|ms| - 1].version;
    }
    UpgradeExtendsPrefix(reg, st, goal, env);
    PrefixSplits(reg, there.applied);
  }

  lemma StayingChangesNothing<S>(reg: seq<Migration<S>>, st: State<S>, target: nat, env: Env)
    requires Proper(reg) && PrefixClosed(reg, st.applied) && target != 0
    requires Between(reg, Last(st.applied), target) == [] && Last(st.applied) <= target
    ensures Applied(reg, st, target, true, env).0 == st
  {
  }
}

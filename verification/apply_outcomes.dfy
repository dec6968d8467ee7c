/** What Apply answers, exactly when, and what permission to roll back is worth; said of registry and metadata alone. */
module ApplyOutcomes {
  import opened Options
  import opened Migrations
  import opened MigrationTheorems

  /** Some version is registered twice. */
  ghost predicate Repeats<S>(reg: seq<Migration<S>>) {
    exists i, j :: 0 <= i < j < |reg| && reg[i].version == reg[j].version
  }

  predicate IsRegistered<S>(reg: seq<Migration<S>>, v: nat) { exists i :: 0 <= i < |reg| && reg[i].version == v }

  /** Some applied version is not registered. */
  ghost predicate Strays<S>(reg: seq<Migration<S>>, applied: seq<nat>) {
    exists v :: v in applied && !IsRegistered(reg, v)
  }

  /** The highest of some versions, zero when there are none. */
  ghost predicate HighestIs(versions: seq<nat>, v: nat) {
    if versions == [] then v == 0 else v in versions && forall w | w in versions :: w <= v
  }

  /** A target of zero asks for the latest registered version. */
  ghost predicate GoalIs<S>(reg: seq<Migration<S>>, target: nat, goal: nat) {
    if target != 0 then goal == target else HighestIs(Versions(reg), goal)
  }

  /** The target does not lie beyond every registered version. */
  predicate InReach<S>(reg: seq<Migration<S>>, target: nat) {
    target == 0 || exists i :: 0 <= i < |reg| && target <= reg[i].version
  }

  /** Going up through a version would fail: no Up, or the database refuses. */
  predicate UpBlocked<S>(reg: seq<Migration<S>>, env: Env, v: nat) {
    exists i :: 0 <= i < |reg| && reg[i].version == v && (reg[i].up.None? || v in env.failing)
  }

  predicate DownBlocked<S>(reg: seq<Migration<S>>, env: Env, v: nat) {
    exists i :: 0 <= i < |reg| && reg[i].version == v && (reg[i].down.None? || v in env.failing)
  }

  // ---------- reading the definitions ----------

  lemma LastIsHighestOf(versions: seq<nat>, v: nat)
    requires Ascending(versions)
    ensures HighestIs(versions, v) <==> v == Last(versions)
  {
    LastIsHighest(versions);
    if versions != [] { assert Last(versions) in versions; }
  }

  lemma LatestIsHighest<S>(reg: seq<Migration<S>>, v: nat)
    requires Sorted(reg)
    ensures HighestIs(Versions(reg), v) <==> v == Last(Versions(reg))
  {
    if reg != [] {
      assert Versions(reg)[|reg| - 1] in Versions(reg);
      forall w | w in Versions(reg) ensures w <= Last(Versions(reg)) {
        var i :| 0 <= i < |reg| && Versions(reg)[i] == w;
        assert reg[i].version <= reg[|reg| - 1].version;
      }
    }
  }

  lemma RegisteredByIndex<S>(reg: seq<Migration<S>>, v: nat)
    ensures v in Versions(reg) <==> IsRegistered(reg, v)
  {
    if v in Versions(reg) {
      var i :| 0 <= i < |reg| && Versions(reg)[i] == v;
      assert reg[i].version == v;
    }
    if IsRegistered(reg, v) {
      var i :| 0 <= i < |reg| && reg[i].version == v;
      assert Versions(reg)[i] == v;
    }
  }

  lemma StraysIff<S>(reg: seq<Migration<S>>, applied: seq<nat>)
    ensures Registered(reg, applied) <==> !Strays(reg, applied)
  {
    hide IsRegistered, Versions;
    forall v ensures v in Versions(reg) <==> IsRegistered(reg, v) { RegisteredByIndex(reg, v); }
  }

  lemma ReachIff<S>(reg: seq<Migration<S>>, target: nat)
    requires Sorted(reg)
    ensures InReach(reg, target) <==> (target == 0 || (reg != [] && target <= Last(Versions(reg))))
  {
    if reg != [] { assert reg[|reg| - 1].version == Last(Versions(reg)); }
  }

  // ---------- refusals ----------

  /** The errors before anything is run, when each is given, what each reports; none of them changes the database. */
  lemma ApplyRefusesIff<S>(
      reg: seq<Migration<S>>, st: State<S>, target: nat, allow: bool, env: Env, before: nat, goal: nat)
    requires Sorted(reg) && Ascending(st.applied) && HighestIs(st.applied, before) && GoalIs(reg, target, goal)
    ensures var (st', report, error) := Applied(reg, st, target, allow, env);
            var sound := !Repeats(reg) && !Strays(reg, st.applied);
            && (error == Some(Duplicate) <==> Repeats(reg))
            && (error == Some(Unregistered) <==> !Repeats(reg) && Strays(reg, st.applied))
            && (error == Some(NothingRegistered) <==> sound && !InReach(reg, target) && reg == [])
            && (error == Some(TooNew) <==> sound && !InReach(reg, target) && reg != [])
            && (error == Some(RollbackForbidden) <==> sound && InReach(reg, target) && goal < before && !allow)
            && (!sound ==> st' == st && report == Report(0, 0, 0, [], []))
            && (sound && !InReach(reg, target) ==> st' == st && report == Report(before, 0, 0, [], []))
            && (error == Some(RollbackForbidden) ==> st' == st && report == Report(before, 0, goal, [], []))
  {
    hide UpAll, DownAll, Between, Versions, Last, IsRegistered, InReach;
    LastIsHighestOf(st.applied, before);
    LatestIsHighest(reg, goal);
    StraysIff(reg, st.applied);
    ReachIff(reg, target);
    RepeatsIff(reg);
  }

  lemma RepeatsIff<S>(reg: seq<Migration<S>>)
    ensures Distinct(reg) <==> !Repeats(reg)
  {
  }

  // ---------- permission ----------

  /** Without permission no call takes a version back, whatever it answers. */
  lemma NothingLostWithoutPermission<S>(reg: seq<Migration<S>>, st: State<S>, target: nat, env: Env)
    ensures var (st', report, _) := Applied(reg, st, target, false, env);
            st.applied <= st'.applied && report.down == []
  {
    hide UpAll, DownAll, Between, Versions, Last;
    UpAllShape(Between(reg, Last(st.applied), Effective(reg, target)), st, env);
  }

  /** Nor does any run of such calls. */
  lemma {:induction false} RunLosesNothing<S>(reg: seq<Migration<S>>, st: State<S>, calls: seq<Call>)
    requires forall k | 0 <= k < |calls| :: !calls[k].allow
    ensures st.applied <= ApplyAll(reg, st, calls).applied
  {
    hide Applied;
    if calls == [] {
    } else {
      var rest, last := calls[..|calls| - 1], calls[|calls| - 1];
      RunLosesNothing(reg, st, rest);
      NothingLostWithoutPermission(reg, ApplyAll(reg, st, rest), last.target, last.env);
    }
  }

  // ---------- failures on the way ----------

  lemma {:induction false} BetweenHas<S>(reg: seq<Migration<S>>, lo: nat, hi: nat, i: nat)
    requires i < |reg| && lo < reg[i].version <= hi
    ensures exists j :: 0 <= j < |Between(reg, lo, hi)| && Between(reg, lo, hi)[j] == reg[i]
  {
    var rest := Between(reg[1..], lo, hi);
    if i == 0 {
      assert Between(reg, lo, hi)[0] == reg[0];
    } else {
      BetweenHas(reg[1..], lo, hi, i - 1);
      var j :| 0 <= j < |rest| && rest[j] == reg[1..][i - 1];
      if lo < reg[0].version <= hi {
        assert Between(reg, lo, hi)[j + 1] == reg[i];
      } else {
        assert Between(reg, lo, hi)[j] == reg[i];
      }
    }
  }

  lemma DownBlockedIff<S>(reg: seq<Migration<S>>, env: Env, i: nat)
    requires Distinct(reg) && i < |reg|
    ensures DownBlocked(reg, env, reg[i].version) <==> DownFails(reg[i], env)
  {
  }

  /** An upgrade fails at the first blocked version above the start and up to the goal, and only there. */
  lemma UpgradeFailsIff<S>(reg: seq<Migration<S>>, st: State<S>, lo: nat, hi: nat, env: Env)
    requires Sorted(reg) && Distinct(reg)
    ensures var failed := UpAll(Between(reg, lo, hi), st, env).2;
            && (failed.None? <==> forall v | lo < v <= hi :: !UpBlocked(reg, env, v))
            && forall v: nat :: failed == Some(v) <==>
                 lo < v <= hi && UpBlocked(reg, env, v) && forall w | lo < w < v :: !UpBlocked(reg, env, w)
  {
    hide UpAll, Between, UpFails, UpBlocked, Versions, Sorted, Distinct;
    var ms := Between(reg, lo, hi);
    UpAllShape(ms, st, env);
    BetweenAscends(reg, lo, hi);
    var (_, done, failed) := UpAll(ms, st, env);
    forall v | lo < v <= hi && UpBlocked(reg, env, v)
      ensures exists j :: |done| <= j < |ms| && ms[j].version == v && UpFails(ms[j], env)
    {
      BlockedIsMet(reg, lo, hi, env, v);
      var j :| 0 <= j < |ms| && ms[j].version == v && UpFails(ms[j], env);
      assert j >= |done|;
    }
    if failed.Some? {
      var f := |done|;
      ElementIsBlocked(reg, lo, hi, env, f);
      forall j | f <= j < |ms| ensures failed.value <= ms[j].version {
        assert j == f || Versions(ms)[f] < Versions(ms)[j];
      }
    }
  }

  lemma BlockedIsMet<S>(reg: seq<Migration<S>>, lo: nat, hi: nat, env: Env, v: nat)
    requires Distinct(reg) && lo < v <= hi && UpBlocked(reg, env, v)
    ensures var ms := Between(reg, lo, hi); exists j :: 0 <= j < |ms| && ms[j].version == v && UpFails(ms[j], env)
  {
    var i :| 0 <= i < |reg| && reg[i].version == v && (reg[i].up.None? || v in env.failing);
    BetweenHas(reg, lo, hi, i);
    hide Between;
    var ms := Between(reg, lo, hi);
    var j :| 0 <= j < |ms| && ms[j] == reg[i];
  }

  lemma ElementIsBlocked<S>(reg: seq<Migration<S>>, lo: nat, hi: nat, env: Env, j: nat)
    requires Distinct(reg) && j < |Between(reg, lo, hi)| && UpFails(Between(reg, lo, hi)[j], env)
    ensures var v := Between(reg, lo, hi)[j].version; lo < v <= hi && UpBlocked(reg, env, v)
  {
    hide Between;
    BetweenElement(reg, lo, hi, j);
  }

  /** The highest blocked version above the goal, if there is one. */
  ghost predicate StopsAt<S>(reg: seq<Migration<S>>, applied: seq<nat>, goal: nat, env: Env, v: nat) {
    && v in applied && v > goal && DownBlocked(reg, env, v)
    && forall w | w in applied && w > v :: !DownBlocked(reg, env, w)
  }

  ghost predicate RunsFree<S>(reg: seq<Migration<S>>, applied: seq<nat>, goal: nat, env: Env) {
    forall v | v in applied && v > goal :: !DownBlocked(reg, env, v)
  }

  /** Taking the last version off changes neither, if it is not blocked. */
  lemma LastIsPassed<S>(reg: seq<Migration<S>>, applied: seq<nat>, goal: nat, env: Env, v: nat)
    requires applied != [] && Ascending(applied) && !DownBlocked(reg, env, Last(applied))
    ensures var rest := applied[..|applied| - 1];
            && (StopsAt(reg, applied, goal, env, v) <==> StopsAt(reg, rest, goal, env, v))
            && (RunsFree(reg, applied, goal, env) <==> RunsFree(reg, rest, goal, env))
  {
    hide DownBlocked;
    var rest := applied[..|applied| - 1];
    assert applied == rest + [Last(applied)];
    assert forall w :: w in applied <==> w in rest || w == Last(applied);
  }

  lemma LastStops<S>(reg: seq<Migration<S>>, applied: seq<nat>, goal: nat, env: Env, v: nat)
    requires applied != [] && Ascending(applied) && DownBlocked(reg, env, Last(applied)) && Last(applied) > goal
    ensures StopsAt(reg, applied, goal, env, v) <==> v == Last(applied)
    ensures !RunsFree(reg, applied, goal, env)
  {
    hide DownBlocked;
    LastIsHighest(applied);
    assert Last(applied) in applied;
  }

  /** A rollback fails at the highest blocked version it would take back, and only there. */
  lemma {:induction false} RollbackFailsIff<S>(reg: seq<Migration<S>>, st: State<S>, goal: nat, env: Env)
    requires Distinct(reg) && Registered(reg, st.applied) && Ascending(st.applied)
    ensures var failed := DownAll(reg, st, goal, env).2;
            && (failed.None? <==> RunsFree(reg, st.applied, goal, env))
            && forall v: nat :: failed == Some(v) <==> StopsAt(reg, st.applied, goal, env, v)
    decreases |st.applied|
  {
    hide RunAll, Versions, Find, DownBlocked, Distinct, StopsAt, RunsFree;
    if st.applied == [] || Last(st.applied) <= goal {
      NothingToStop(reg, st.applied, goal, env);
    } else {
      var v, rest := Last(st.applied), st.applied[..|st.applied| - 1];
      assert v in st.applied;
      FoundBlockedIff(reg, env, v);
      var m := Find(reg, v);
      if DownFails(m, env) {
        forall w: nat ensures StopsAt(reg, st.applied, goal, env, w) <==> w == v {
          LastStops(reg, st.applied, goal, env, w);
        }
        LastStops(reg, st.applied, goal, env, v);
      } else {
        FewerStillRegistered(reg, st.applied);
        RollbackFailsIff(reg, State(RunAll(m.down.value, st.schema), rest), goal, env);
        forall w: nat ensures StopsAt(reg, st.applied, goal, env, w) <==> StopsAt(reg, rest, goal, env, w) {
          LastIsPassed(reg, st.applied, goal, env, w);
        }
        LastIsPassed(reg, st.applied, goal, env, v);
      }
    }
  }

  lemma FewerStillRegistered<S>(reg: seq<Migration<S>>, applied: seq<nat>)
    requires Registered(reg, applied) && applied != []
    ensures Registered(reg, applied[..|applied| - 1])
  {
  }

  lemma NothingToStop<S>(reg: seq<Migration<S>>, applied: seq<nat>, goal: nat, env: Env)
    requires Ascending(applied) && (applied == [] || Last(applied) <= goal)
    ensures RunsFree(reg, applied, goal, env) && forall v: nat :: !StopsAt(reg, applied, goal, env, v)
  {
    hide DownBlocked;
    LastIsHighest(applied);
  }

  lemma FoundBlockedIff<S>(reg: seq<Migration<S>>, env: Env, v: nat)
    requires Distinct(reg) && v in Versions(reg)
    ensures DownBlocked(reg, env, v) <==> DownFails(Find(reg, v), env)
  {
    hide Find, DownBlocked, DownFails;
    var i :| 0 <= i < |reg| && reg[i] == Find(reg, v);
    DownBlockedIff(reg, env, i);
  }

  /** A call succeeds exactly when it is not refused and meets no blocked version; it fails at the first it meets. */
  lemma ApplySucceedsIff<S>(
      reg: seq<Migration<S>>, st: State<S>, target: nat, allow: bool, env: Env, before: nat, goal: nat)
    requires Sorted(reg) && Ascending(st.applied) && HighestIs(st.applied, before) && GoalIs(reg, target, goal)
    ensures var error := Applied(reg, st, target, allow, env).2;
            var sound := !Repeats(reg) && !Strays(reg, st.applied) && InReach(reg, target);
            && (error.None? <==>
                && sound && (goal < before ==> allow)
                && (forall v | before < v <= goal :: !UpBlocked(reg, env, v))
                && (goal < before ==> forall v | v in st.applied && v > goal :: !DownBlocked(reg, env, v)))
            && (forall v: nat :: error == Some(UpFailed(v)) <==>
                  && sound && before < v <= goal && UpBlocked(reg, env, v)
                  && forall w | before < w < v :: !UpBlocked(reg, env, w))
            && (forall v: nat :: error == Some(DownFailed(v)) <==>
                  && sound && allow && v in st.applied && goal < v && goal < before && DownBlocked(reg, env, v)
                  && forall w | w in st.applied && w > v :: !DownBlocked(reg, env, w))
  {
    hide UpAll, DownAll, Between, Versions, Last, IsRegistered, InReach, UpBlocked, DownBlocked, Distinct, Registered;
    LastIsHighestOf(st.applied, before);
    LatestIsHighest(reg, goal);
    StraysIff(reg, st.applied);
    ReachIff(reg, target);
    RepeatsIff(reg);
    if !Repeats(reg) && !Strays(reg, st.applied) {
      UpgradeFailsIff(reg, st, before, goal, env);
      RollbackFailsIff(reg, st, goal, env);
    }
  }

  /** A call that is not refused reports its start and its goal; a successful one, where it ended. */
  lemma ApplyReports<S>(
      reg: seq<Migration<S>>, st: State<S>, target: nat, allow: bool, env: Env, before: nat, goal: nat)
    requires Sorted(reg) && Ascending(st.applied) && HighestIs(st.applied, before) && GoalIs(reg, target, goal)
    ensures var (st', report, error) := Applied(reg, st, target, allow, env);
            && (error.None? ==>
                  report.before == before && report.target == goal && HighestIs(st'.applied, report.after))
            && (error.Some? && (error.value.UpFailed? || error.value.DownFailed?) ==>
                  report.before == before && report.target == goal && report.after == 0)
  {
    hide UpAll, DownAll, Between, Versions, Last, HighestIs, Registered, Distinct;
    LastIsHighestOf(st.applied, before);
    LatestIsHighest(reg, goal);
    GoalIsEffective(reg, target, goal);
    var (st', report, error) := Applied(reg, st, target, allow, env);
    if error.None? {
      SuccessMoves(reg, st, target, allow, env, 0);
      LastIsHighestOf(st'.applied, report.after);
    }
  }

  lemma GoalIsEffective<S>(reg: seq<Migration<S>>, target: nat, goal: nat)
    requires Sorted(reg) && GoalIs(reg, target, goal)
    ensures goal == Effective(reg, target)
  {
    hide Versions, Last;
    LatestIsHighest(reg, goal);
  }

  // ---------- statements run in order ----------

  /** A list of statements runs first to last. */
  lemma {:induction false} RunsInOrder<S>(a: seq<S -> S>, b: seq<S -> S>, f: S -> S, s: S)
    ensures RunAll(a + b, s) == RunAll(b, RunAll(a, s))
    ensures RunAll([f], s) == f(s)
  {
    if a == [] {
      assert a + b == b;
    } else {
      RunsInOrder(a[1..], b, f, a[0](s));
      assert (a + b)[1..] == a[1..] + b;
    }
    assert [f][1..] == [];
  }
}

/** Node kernel sync: a node's protocol list and sync time must agree with its kernel rows. */
module Nodes {
  import opened Options
  import opened Text

  datatype Error = NotFound

  datatype Result<+T> = Ok(value: T) | Err(error: Error)

  /** Times count from Go's zero time, which stands for "not given". */
  type Time = nat

  datatype Node = Node(protocols: seq<string>, status: string, lastSynced: Time, updatedAt: Time)

  datatype Kernel = Kernel(
    node: nat,
    protocol: string,
    endpoint: string,
    revision: string,
    status: string,
    config: Option<map<string, string>>,
    lastSynced: Time,
    updatedAt: Time,
    createdAt: Time)

  /** Both tables; a node's identifier is its position counted from one. */
  datatype Store = Store(nodes: seq<Node>, kernels: seq<Kernel>)

  function NormalizeProtocol(protocol: string): (r: string)
    ensures r != "" && ToLower(r) == r && Tidy(r)
  {
    hide TrimSpace, ToLower;
    var proto := TrimSpace(ToLower(protocol));
    TrimAndLowerCommute(protocol);
    LowerIsIdempotent(TrimSpace(protocol));
    if proto == "" then "http" else proto
  }

  /** A blank protocol is http, any other itself, trimmed and lower-cased. */
  lemma NormalizedIs(protocol: string)
    ensures NormalizeProtocol(protocol) == if TrimSpace(protocol) == "" then "http" else ToLower(TrimSpace(protocol))
  {
    hide TrimSpace, ToLower;
    TrimAndLowerCommute(protocol);
    assert |ToLower(TrimSpace(protocol))| == |TrimSpace(protocol)|;
  }

  predicate ContainsIgnoreCase(items: seq<string>, target: string) {
    exists i :: 0 <= i < |items| && ToLower(items[i]) == ToLower(TrimSpace(target))
  }

  // ---------- sorting strings ----------

  predicate Leq(a: string, b: string) {
    a == "" || (b != "" && (a[0] < b[0] || (a[0] == b[0] && Leq(a[1..], b[1..]))))
  }

  lemma {:induction false} LeqIsTotal(a: string, b: string)
    ensures Leq(a, b) || Leq(b, a)
  {
    if a != "" && b != "" { LeqIsTotal(a[1..], b[1..]); }
  }

  lemma {:induction false} LeqIsTransitive(a: string, b: string, c: string)
    requires Leq(a, b) && Leq(b, c)
    ensures Leq(a, c)
  {
    if a != "" && a[0] == b[0] == c[0] { LeqIsTransitive(a[1..], b[1..], c[1..]); }
  }

  /** The order is the usual one: at the first difference, or by length when there is none. */
  lemma {:induction false} LeqByFirstDifference(a: string, b: string)
    ensures Leq(a, b) <==>
              a <= b || exists i :: 0 <= i < |a| && i < |b| && a[..i] == b[..i] && a[i] < b[i]
  {
    if a != "" && b != "" && a[0] == b[0] {
      LeqByFirstDifference(a[1..], b[1..]);
      if a[1..] <= b[1..] { assert b[1..][..|a| - 1] == b[..|a|][1..]; assert a == [a[0]] + a[1..]; }
      if i :| 0 <= i < |a[1..]| && i < |b[1..]| && a[1..][..i] == b[1..][..i] && a[1..][i] < b[1..][i] {
        assert a[..i + 1] == [a[0]] + a[1..][..i] && b[..i + 1] == [b[0]] + b[1..][..i];
        assert a[i + 1] < b[i + 1];
      }
      if a <= b { assert a[1..] <= b[1..]; }
      if i :| 0 <= i < |a| && i < |b| && a[..i] == b[..i] && a[i] < b[i] {
        assert i > 0;
        assert a[1..][..i - 1] == a[..i][1..] && b[1..][..i - 1] == b[..i][1..];
        assert a[1..][i - 1] < b[1..][i - 1];
      }
    } else if a != "" && b != "" {
      if a[0] < b[0] { assert a[..0] == b[..0]; }
      forall i | 0 < i <= |a| && i <= |b| ensures a[..i] != b[..i] {
        assert a[..i][0] == a[0] && b[..i][0] == b[0];
      }
    }
  }

  function InsertSorted(s: string, l: seq<string>): seq<string> {
    if l == [] || Leq(s, l[0]) then [s] + l else [l[0]] + InsertSorted(s, l[1..])
  }

  function SortStrings(l: seq<string>): seq<string> {
    if l == [] then [] else InsertSorted(l[0], SortStrings(l[1..]))
  }

  ghost predicate InOrder(l: seq<string>) {
    forall i, j | 0 <= i < j < |l| :: Leq(l[i], l[j])
  }

  lemma {:induction false} InsertSortedPermutes(s: string, l: seq<string>)
    ensures multiset(InsertSorted(s, l)) == multiset(l) + multiset{s}
  {
    hide Leq;
    if l != [] && !Leq(s, l[0]) {
      InsertSortedPermutes(s, l[1..]);
      assert l == [l[0]] + l[1..];
    }
  }

  lemma {:induction false} InsertSortedOrders(s: string, l: seq<string>)
    requires InOrder(l)
    ensures InOrder(InsertSorted(s, l))
  {
    hide Leq;
    if l == [] {
    } else {
      if Leq(s, l[0]) {
        forall j | 0 < j < |l| ensures Leq(s, l[j]) { LeqIsTransitive(s, l[0], l[j]); }
      } else {
        LeqIsTotal(s, l[0]);
        InsertSortedOrders(s, l[1..]);
        InsertSortedPermutes(s, l[1..]);
        var rest := InsertSorted(s, l[1..]);
        forall i | 0 <= i < |rest| ensures Leq(l[0], rest[i]) {
          assert rest[i] in multiset(rest);
          assert rest[i] == s || rest[i] in l[1..];
        }
      }
    }
  }

  /** Sorting keeps every protocol as often as it was and puts them in order. */
  lemma {:induction false} SortStringsIsRight(l: seq<string>)
    ensures multiset(SortStrings(l)) == multiset(l) && InOrder(SortStrings(l))
  {
    hide InsertSorted, Leq;
    if l == [] {
    } else {
      SortStringsIsRight(l[1..]);
      InsertSortedPermutes(l[0], SortStrings(l[1..]));
      InsertSortedOrders(l[0], SortStrings(l[1..]));
      assert l == [l[0]] + l[1..];
    }
  }

  // ---------- recording a sync ----------

  function OrNow(t: Time, now: Time): (r: Time)
    ensures t > 0 ==> r == t
    ensures t == 0 ==> r == now
  {
    if t == 0 then now else t
  }

  /** The kernel row as it would be inserted. */
  function Incoming(id: nat, k: Kernel, now: Time): Kernel {
    Kernel(id, NormalizeProtocol(k.protocol), k.endpoint, k.revision, if k.status == "" then "synced" else k.status,
           if k.config.None? then Some(map[]) else k.config, OrNow(k.lastSynced, now), now, OrNow(k.createdAt, now))
  }

  predicate Matches(k: Kernel, id: nat, proto: string) { k.node == id && ToLower(k.protocol) == proto }

  function FindKernel(kernels: seq<Kernel>, id: nat, proto: string): (r: Option<nat>)
    ensures r.Some? ==> r.value < |kernels| && Matches(kernels[r.value], id, proto)
    ensures r.None? ==> forall i | 0 <= i < |kernels| :: !Matches(kernels[i], id, proto)
  {
    if kernels == [] then None
    else
      var last := |kernels| - 1;
      var r := FindKernel(kernels[..last], id, proto);
      if r.Some? then r else if Matches(kernels[last], id, proto) then Some(last) else None
  }

  /** An existing row keeps its key and creation time. */
  function Overwritten(existing: Kernel, k: Kernel): Kernel {
    existing.(endpoint := k.endpoint, revision := k.revision, status := k.status, config := k.config,
              lastSynced := k.lastSynced, updatedAt := k.updatedAt)
  }

  /** The kernel rows after the write, and the row written. */
  function Written(kernels: seq<Kernel>, id: nat, incoming: Kernel): (seq<Kernel>, Kernel) {
    var found := FindKernel(kernels, id, incoming.protocol);
    if found.Some? then
      var row := Overwritten(kernels[found.value], incoming);
      (kernels[found.value := row], row)
    else (kernels + [incoming], incoming)
  }

  function Later(a: Time, b: Time): (r: Time)
    ensures r in {a, b} && a <= r && b <= r
  {
    if a > b then a else b
  }

  function Touched(n: Node, k: Kernel, proto: string): Node {
    Node(if ContainsIgnoreCase(n.protocols, proto) then n.protocols else SortStrings(n.protocols + [proto]),
         "online", Later(k.lastSynced, n.lastSynced), Later(k.updatedAt, n.updatedAt))
  }

  function Recorded(s: Store, id: nat, k: Kernel, now: Time): (Store, Result<Kernel>) {
    if !(1 <= id <= |s.nodes|) then (s, Err(NotFound))
    else
      var incoming := Incoming(id, k, now);
      var (kernels, row) := Written(s.kernels, id, incoming);
      var node := Touched(s.nodes[id - 1], row, incoming.protocol);
      (Store(s.nodes[id - 1 := node], kernels), Ok(row))
  }

  class Repository {
    var nodes: seq<Node>
    var kernels: seq<Kernel>

    ghost function Now(): Store
      reads this
    {
      Store(nodes, kernels)
    }

    constructor (nodes: seq<Node>)
      ensures Now() == Store(nodes, [])
    {
      this.nodes, this.kernels := nodes, [];
    }

    static method Contains(items: seq<string>, target: string) returns (found: bool)
      ensures found == ContainsIgnoreCase(items, target)
      ensures found <==> exists i :: 0 <= i < |items| && EqualFold(items[i], TrimSpace(target))
    {
      hide TrimSpace, ToLower;
      var wanted := ToLower(TrimSpace(target));
      for i := 0 to |items|
        invariant forall k | 0 <= k < i :: ToLower(items[k]) != wanted
      {
        if ToLower(items[i]) == wanted {
          return true;
        }
      }
      found := false;
    }

    /** The defaults a sync is given before it is recorded. */
    static method FillIn(id: nat, k: Kernel, now: Time) returns (kernel: Kernel)
      ensures kernel == Incoming(id, k, now)
    {
      hide NormalizeProtocol;
      kernel := k.(protocol := NormalizeProtocol(k.protocol), node := id, updatedAt := now);
      if kernel.lastSynced == 0 { kernel := kernel.(lastSynced := now); }
      if kernel.createdAt == 0 { kernel := kernel.(createdAt := now); }
      if kernel.status == "" { kernel := kernel.(status := "synced"); }
      if kernel.config.None? { kernel := kernel.(config := Some(map[])); }
    }

    method RecordKernelSync(id: nat, k: Kernel, now: Time) returns (r: Result<Kernel>)
      modifies this
      ensures (Now(), r) == Recorded(old(Now()), id, k, now)
    {
      hide NormalizeProtocol, ToLower, TrimSpace, SortStrings, ContainsIgnoreCase, Matches, FindKernel;
      var kernel := FillIn(id, k, now);
      var proto := kernel.protocol;
      if !(1 <= id <= |nodes|) {
        return Err(NotFound);
      }
      var node := nodes[id - 1];
      var found := FindKernel(kernels, id, proto);
      if found.None? {
        kernels := kernels + [kernel];
      } else {
        var existing := kernels[found.value].(endpoint := kernel.endpoint, revision := kernel.revision);
        existing := existing.(status := kernel.status, config := kernel.config);
        existing := existing.(lastSynced := kernel.lastSynced, updatedAt := kernel.updatedAt);
        kernels := kernels[found.value := existing];
        kernel := existing;
      }
      assert kernels == Written(old(kernels), id, Incoming(id, k, now)).0;
      assert kernel == Written(old(kernels), id, Incoming(id, k, now)).1;
      var known := Contains(node.protocols, proto);
      if !known {
        node := node.(protocols := SortStrings(node.protocols + [proto]));
      }
      if kernel.lastSynced > node.lastSynced { node := node.(lastSynced := kernel.lastSynced); }
      if kernel.updatedAt > node.updatedAt { node := node.(updatedAt := kernel.updatedAt); }
      node := node.(status := "online");
      assert node == Touched(nodes[id - 1], kernel, proto);
      nodes := nodes[id - 1 := node];
      r := Ok(kernel);
    }
  }

  // ---------- the aggregate ----------

  ghost predicate Lists(n: Node, proto: string) { exists p :: p in n.protocols && ToLower(p) == proto }

  /** A kernel row belongs to a node that lists its protocol and was last synced no earlier. */
  ghost predicate KernelOk(nodes: seq<Node>, k: Kernel) {
    && 1 <= k.node <= |nodes|
    && NormalizeProtocol(k.protocol) == k.protocol
    && Lists(nodes[k.node - 1], k.protocol)
    && k.lastSynced <= nodes[k.node - 1].lastSynced
  }

  ghost predicate RowsOk(nodes: seq<Node>, kernels: seq<Kernel>) {
    forall i | 0 <= i < |kernels| :: KernelOk(nodes, kernels[i])
  }

  /** At most one row for a node and a protocol, whatever the letter case. */
  ghost predicate OneRowEach(kernels: seq<Kernel>) {
    forall i, j | 0 <= i < j < |kernels| && kernels[i].node == kernels[j].node ::
      ToLower(kernels[i].protocol) != ToLower(kernels[j].protocol)
  }

  ghost predicate StoreOk(s: Store) { RowsOk(s.nodes, s.kernels) && OneRowEach(s.kernels) }

  /** A node only gains protocols and only moves forward in time. */
  ghost predicate Advances(n: Node, n': Node) {
    && (forall p | p in n.protocols :: p in n'.protocols)
    && n.lastSynced <= n'.lastSynced
  }

  lemma NormalizedTwice(p: string)
    ensures var r := NormalizeProtocol(p); NormalizeProtocol(r) == r
  {
    hide ToLower, TrimSpace;
  }

  /** A touched node lists the protocol, gains nothing else, and moves forward in time. */
  lemma TouchedIsRight(n: Node, k: Kernel, proto: string)
    requires NormalizeProtocol(proto) == proto
    ensures var n' := Touched(n, k, proto);
            && Advances(n, n') && Lists(n', proto) && k.lastSynced <= n'.lastSynced
            && (forall p | p in n'.protocols :: p in n.protocols || p == proto)
  {
    hide NormalizeProtocol, TrimSpace, SortStrings;
    var n' := Touched(n, k, proto);
    if ContainsIgnoreCase(n.protocols, proto) {
      var i :| 0 <= i < |n.protocols| && ToLower(n.protocols[i]) == ToLower(TrimSpace(proto));
      assert n.protocols[i] in n'.protocols;
    } else {
      SortStringsIsRight(n.protocols + [proto]);
      assert forall p :: p in n'.protocols <==> p in multiset(n'.protocols);
      assert forall p :: p in n.protocols + [proto] <==> p in multiset(n.protocols + [proto]);
      assert proto in n.protocols + [proto];
    }
  }

  /** Rows stay right when one node advances. */
  lemma AdvanceKeepsRow(nodes: seq<Node>, id: nat, n': Node, k: Kernel)
    requires 1 <= id <= |nodes| && Advances(nodes[id - 1], n') && KernelOk(nodes, k)
    ensures KernelOk(nodes[id - 1 := n'], k)
  {
    hide NormalizeProtocol, ToLower;
  }

  /** What one sync writes: the row, where it goes, and the node. */
  lemma RecordedRow(s: Store, id: nat, k: Kernel, now: Time)
    requires StoreOk(s) && 1 <= id <= |s.nodes|
    ensures var (s', r) := Recorded(s, id, k, now);
            var proto := NormalizeProtocol(k.protocol);
            var found := FindKernel(s.kernels, id, proto);
            && r.Ok? && r.value.node == id && r.value.protocol == proto
            && s'.nodes == s.nodes[id - 1 := Touched(s.nodes[id - 1], r.value, proto)]
            && s'.kernels == (if found.Some? then s.kernels[found.value := r.value] else s.kernels + [r.value])
  {
    hide NormalizeProtocol, ToLower, Touched, OrNow, Lists;
    var proto := NormalizeProtocol(k.protocol);
    var found := FindKernel(s.kernels, id, proto);
    if found.Some? {
      assert KernelOk(s.nodes, s.kernels[found.value]);
      assert NormalizeProtocol(s.kernels[found.value].protocol) == s.kernels[found.value].protocol;
    }
  }

  /** Every row still agrees with its node: the overwritten or added one, and the others. */
  lemma RecordKeepsRows(s: Store, id: nat, k: Kernel, now: Time)
    requires StoreOk(s) && 1 <= id <= |s.nodes|
    ensures RowsOk(Recorded(s, id, k, now).0.nodes, Recorded(s, id, k, now).0.kernels)
  {
    hide NormalizeProtocol, ToLower, Touched, Lists, Advances, FindKernel, Recorded, OneRowEach;
    RecordedRow(s, id, k, now);
    var proto := NormalizeProtocol(k.protocol);
    var (s', r) := Recorded(s, id, k, now);
    NormalizedTwice(k.protocol);
    TouchedIsRight(s.nodes[id - 1], r.value, proto);
    forall i | 0 <= i < |s'.kernels| ensures KernelOk(s'.nodes, s'.kernels[i]) {
      if s'.kernels[i] != r.value {
        AdvanceKeepsRow(s.nodes, id, s'.nodes[id - 1], s.kernels[i]);
      }
    }
  }

  /** A row is added only when none matches, so keys stay single. */
  lemma RecordKeepsKeys(s: Store, id: nat, k: Kernel, now: Time)
    requires StoreOk(s) && 1 <= id <= |s.nodes|
    ensures OneRowEach(Recorded(s, id, k, now).0.kernels)
  {
    hide NormalizeProtocol, ToLower, Touched, Lists, Recorded, FindKernel, RowsOk;
    RecordedRow(s, id, k, now);
    var proto := NormalizeProtocol(k.protocol);
    var found := FindKernel(s.kernels, id, proto);
    if found.Some? {
      var before := s.kernels[found.value];
      assert Matches(before, id, proto) && ToLower(proto) == proto;
    }
  }

  /** A sync that found its row overwrites it, one that found none adds it; the aggregate holds either way. */
  lemma RecordKeeps(s: Store, id: nat, k: Kernel, now: Time)
    requires StoreOk(s)
    ensures StoreOk(Recorded(s, id, k, now).0)
  {
    hide RowsOk, OneRowEach, Incoming, FindKernel, Overwritten, Touched;
    if 1 <= id <= |s.nodes| {
      RecordKeepsRows(s, id, k, now);
      RecordKeepsKeys(s, id, k, now);
    }
  }

  // ---------- runs ----------

  datatype Sync = Sync(id: nat, kernel: Kernel, now: Time)

  function Run(s: Store, syncs: seq<Sync>): (r: Store)
    ensures |r.nodes| == |s.nodes|
  {
    if syncs == [] then s
    else
      var last := syncs[|syncs| - 1];
      Recorded(Run(s, syncs[..|syncs| - 1]), last.id, last.kernel, last.now).0
  }

  lemma {:induction false} RunKeeps(s: Store, syncs: seq<Sync>)
    requires StoreOk(s)
    ensures StoreOk(Run(s, syncs))
  {
    hide StoreOk, Recorded;
    if syncs == [] {
    } else {
      var last := syncs[|syncs| - 1];
      RunKeeps(s, syncs[..|syncs| - 1]);
      RecordKeeps(Run(s, syncs[..|syncs| - 1]), last.id, last.kernel, last.now);
    }
  }

  /** From nodes without kernels: one row for a node and protocol, listed, and never ahead of the node's sync time. */
  lemma EveryRunKeeps(nodes: seq<Node>, syncs: seq<Sync>)
    ensures var s := Run(Store(nodes, []), syncs);
            && (forall i, j | 0 <= i < j < |s.kernels| && s.kernels[i].node == s.kernels[j].node ::
                  ToLower(s.kernels[i].protocol) != ToLower(s.kernels[j].protocol))
            && (forall i | 0 <= i < |s.kernels| :: 1 <= s.kernels[i].node <= |s.nodes|
                  && Lists(s.nodes[s.kernels[i].node - 1], ToLower(s.kernels[i].protocol))
                  && s.kernels[i].lastSynced <= s.nodes[s.kernels[i].node - 1].lastSynced)
  {
    hide Run, NormalizeProtocol, ToLower, Lists;
    RunKeeps(Store(nodes, []), syncs);
    var s := Run(Store(nodes, []), syncs);
    forall i | 0 <= i < |s.kernels|
      ensures KernelOk(s.nodes, s.kernels[i]) && ToLower(s.kernels[i].protocol) == s.kernels[i].protocol
    {
      var k := s.kernels[i];
      assert KernelOk(s.nodes, k);
      assert ToLower(NormalizeProtocol(k.protocol)) == NormalizeProtocol(k.protocol);
    }
  }

  /** Between any point of a run and its end no node loses a protocol or falls back in time. */
  lemma {:induction false} RunAdvances(s: Store, syncs: seq<Sync>, at: nat, i: nat)
    requires StoreOk(s) && at <= |syncs| && i < |s.nodes|
    ensures Advances(Run(s, syncs[..at]).nodes[i], Run(s, syncs).nodes[i])
    decreases |syncs|
  {
    hide StoreOk, NormalizeProtocol, Touched, Lists, FindKernel;
    if at == |syncs| {
      assert syncs[..at] == syncs;
    } else {
      var front, last := syncs[..|syncs| - 1], syncs[|syncs| - 1];
      assert front[..at] == syncs[..at];
      RunAdvances(s, front, at, i);
      RunKeeps(s, front);
      StepAdvances(Run(s, front), last, i);
    }
  }

  lemma StepAdvances(s: Store, e: Sync, i: nat)
    requires StoreOk(s) && i < |s.nodes|
    ensures Advances(s.nodes[i], Recorded(s, e.id, e.kernel, e.now).0.nodes[i])
  {
    hide NormalizeProtocol, Touched, Lists, FindKernel, StoreOk;
    if 1 <= e.id <= |s.nodes| {
      RecordedRow(s, e.id, e.kernel, e.now);
      NormalizedTwice(e.kernel.protocol);
      var (s', r) := Recorded(s, e.id, e.kernel, e.now);
      TouchedIsRight(s.nodes[e.id - 1], r.value, NormalizeProtocol(e.kernel.protocol));
    }
  }

  // ---------- what a row remembers ----------

  /** The syncs of one node and protocol, oldest first. */
  function History(syncs: seq<Sync>, id: nat, proto: string): seq<Sync> {
    if syncs == [] then []
    else
      var last := syncs[|syncs| - 1];
      var before := History(syncs[..|syncs| - 1], id, proto);
      if last.id == id && NormalizeProtocol(last.kernel.protocol) == proto then before + [last] else before
  }

  /** The row a first and a last sync make: all of the last one, under the creation time of the first. */
  predicate Shows(row: Kernel, id: nat, proto: string, first: Sync, last: Sync) {
    && row.node == id
    && row.protocol == proto
    && row.endpoint == last.kernel.endpoint
    && row.revision == last.kernel.revision
    && row.status == (if last.kernel.status == "" then "synced" else last.kernel.status)
    && row.config == Some(if last.kernel.config.Some? then last.kernel.config.value else map[])
    && row.lastSynced == (if last.kernel.lastSynced > 0 then last.kernel.lastSynced else last.now)
    && row.updatedAt == last.now
    && row.createdAt == (if first.kernel.createdAt > 0 then first.kernel.createdAt else first.now)
  }

  /** The row for a node and protocol, when there is one. */
  function RowFor(kernels: seq<Kernel>, id: nat, proto: string): Option<Kernel> {
    var i := FindKernel(kernels, id, proto);
    if i.Some? then Some(kernels[i.value]) else None
  }

  lemma FindIsUnique(kernels: seq<Kernel>, id: nat, proto: string, i: nat)
    requires OneRowEach(kernels) && i < |kernels| && Matches(kernels[i], id, proto)
    ensures FindKernel(kernels, id, proto) == Some(i)
  {
  }

  /** One sync rewrites the row of its own node and protocol and no other. */
  lemma StepRows(s: Store, e: Sync, id: nat, proto: string)
    requires StoreOk(s) && 1 <= e.id <= |s.nodes|
    ensures var row := RowFor(s.kernels, id, proto);
            var incoming := Incoming(e.id, e.kernel, e.now);
            RowFor(Recorded(s, e.id, e.kernel, e.now).0.kernels, id, proto) ==
              if e.id != id || incoming.protocol != proto then row
              else if row.Some? then Some(Overwritten(row.value, incoming)) else Some(incoming)
  {
    hide FindKernel, ToLower, NormalizeProtocol, Touched, OneRowEach, RowsOk, Overwritten, OrNow;
    var (s', r) := Recorded(s, e.id, e.kernel, e.now);
    RecordedRow(s, e.id, e.kernel, e.now);
    RecordKeepsKeys(s, e.id, e.kernel, e.now);
    var own := NormalizeProtocol(e.kernel.protocol);
    var found := FindKernel(s.kernels, e.id, own);
    var at := if found.Some? then found.value else |s.kernels|;
    assert ToLower(own) == own;
    assert Matches(s'.kernels[at], e.id, own);
    if e.id == id && own == proto {
      FindIsUnique(s'.kernels, id, proto, at);
    } else {
      var before := FindKernel(s.kernels, id, proto);
      if before.Some? {
        FindIsUnique(s'.kernels, id, proto, before.value);
      } else {
        assert !Matches(s'.kernels[at], id, proto);
      }
    }
  }

  lemma FirstShows(id: nat, e: Sync)
    requires e.id == id
    ensures Shows(Incoming(id, e.kernel, e.now), id, NormalizeProtocol(e.kernel.protocol), e, e)
  {
    hide NormalizeProtocol;
  }

  lemma NextShows(row: Kernel, id: nat, first: Sync, before: Sync, e: Sync)
    requires Shows(row, id, NormalizeProtocol(e.kernel.protocol), first, before) && e.id == id
    ensures Shows(Overwritten(row, Incoming(id, e.kernel, e.now)), id, NormalizeProtocol(e.kernel.protocol), first, e)
  {
    hide NormalizeProtocol;
  }

  /**
   * A row is there exactly when its node and protocol were synced. It shows the last sync column by column, even
   * one that carried an older time, under the first sync's creation time.
   */
  lemma {:induction false} RowsRememberHistory(nodes: seq<Node>, syncs: seq<Sync>, id: nat, proto: string)
    requires 1 <= id <= |nodes|
    ensures var row := RowFor(Run(Store(nodes, []), syncs).kernels, id, proto);
            var h := History(syncs, id, proto);
            && (row.None? <==> h == [])
            && (row.Some? ==> Shows(row.value, id, proto, h[0], h[|h| - 1]))
  {
    hide NormalizeProtocol, FindKernel, OrNow, ToLower, Touched, Matches, SortStrings, Shows, Incoming, Overwritten;
    if syncs == [] {
      assert Run(Store(nodes, []), syncs).kernels == [];
    } else {
      var front, last := syncs[..|syncs| - 1], syncs[|syncs| - 1];
      var s := Run(Store(nodes, []), front);
      RowsRememberHistory(nodes, front, id, proto);
      assert StoreOk(Store(nodes, []));
      RunKeeps(Store(nodes, []), front);
      if 1 <= last.id <= |nodes| {
        StepRows(s, last, id, proto);
        IncomingKeys(last.id, last.kernel, last.now);
        if last.id == id && NormalizeProtocol(last.kernel.protocol) == proto {
          FirstShows(id, last);
          var row, h := RowFor(s.kernels, id, proto), History(front, id, proto);
          if row.Some? { NextShows(row.value, id, h[0], h[|h| - 1], last); }
        }
      } else {
        assert Recorded(s, last.id, last.kernel, last.now).0 == s;
      }
    }
  }

  lemma IncomingKeys(id: nat, k: Kernel, now: Time)
    ensures Incoming(id, k, now).node == id && Incoming(id, k, now).protocol == NormalizeProtocol(k.protocol)
  {
    hide NormalizeProtocol;
  }

  /** What one sync answers and does to its node: online, not older than before, the protocol listed; others stay. */
  lemma RecordedIff(s: Store, e: Sync)
    requires StoreOk(s)
    ensures var (s', r) := Recorded(s, e.id, e.kernel, e.now);
            var proto := if TrimSpace(e.kernel.protocol) == "" then "http" else ToLower(TrimSpace(e.kernel.protocol));
            && (r == Err(NotFound) <==> !(1 <= e.id <= |s.nodes|))
            && (r.Err? ==> s' == s)
            && (r.Ok? ==>
                  && RowFor(s'.kernels, e.id, proto) == Some(r.value)
                  && |s'.nodes| == |s.nodes|
                  && (forall i | 0 <= i < |s.nodes| && i + 1 != e.id :: s'.nodes[i] == s.nodes[i])
                  && var n, n' := s.nodes[e.id - 1], s'.nodes[e.id - 1];
                  && n'.status == "online"
                  && n'.lastSynced == (if r.value.lastSynced > n.lastSynced then r.value.lastSynced else n.lastSynced)
                  && n'.updatedAt == (if e.now > n.updatedAt then e.now else n.updatedAt)
                  && if exists p :: p in n.protocols && ToLower(p) == proto then n'.protocols == n.protocols
                     else multiset(n'.protocols) == multiset(n.protocols) + multiset{proto} && InOrder(n'.protocols))
  {
    hide NormalizeProtocol, ToLower, TrimSpace, FindKernel, SortStrings, OneRowEach, RowsOk, OrNow, ContainsIgnoreCase,
      InOrder;
    if 1 <= e.id <= |s.nodes| {
      var proto := NormalizeProtocol(e.kernel.protocol);
      NormalizedIs(e.kernel.protocol);
      RecordedRow(s, e.id, e.kernel, e.now);
      StepRows(s, e, e.id, proto);
      IncomingKeys(e.id, e.kernel, e.now);
      RowIsWritten(s, e);
      var n := s.nodes[e.id - 1];
      SortStringsIsRight(n.protocols + [proto]);
      ListedIff(n.protocols, proto);
    }
  }

  lemma RowIsWritten(s: Store, e: Sync)
    requires StoreOk(s) && 1 <= e.id <= |s.nodes|
    ensures var (s', r) := Recorded(s, e.id, e.kernel, e.now);
            && RowFor(s'.kernels, e.id, NormalizeProtocol(e.kernel.protocol)) == Some(r.value)
            && r.value.updatedAt == e.now
  {
    hide NormalizeProtocol, ToLower, FindKernel, OneRowEach, RowsOk, OrNow, Touched;
    StepRows(s, e, e.id, NormalizeProtocol(e.kernel.protocol));
  }

  lemma ListedIff(protocols: seq<string>, proto: string)
    requires Tidy(proto) && ToLower(proto) == proto
    ensures ContainsIgnoreCase(protocols, proto) <==> exists p :: p in protocols && ToLower(p) == proto
  {
    hide ToLower, TrimSpace;
    if p :| p in protocols && ToLower(p) == proto {
      var i :| 0 <= i < |protocols| && protocols[i] == p;
      assert ToLower(protocols[i]) == ToLower(TrimSpace(proto));
    }
  }

  lemma WrittenTime(kernels: seq<Kernel>, e: Sync)
    ensures Written(kernels, e.id, Incoming(e.id, e.kernel, e.now)).1.lastSynced == OrNow(e.kernel.lastSynced, e.now)
  {
    hide NormalizeProtocol, FindKernel, OrNow;
  }

  lemma TouchedTime(n: Node, k: Kernel, proto: string)
    ensures Touched(n, k, proto).lastSynced == Later(k.lastSynced, n.lastSynced)
  {
    hide ContainsIgnoreCase, SortStrings;
  }

  lemma StepTime(s: Store, e: Sync, id: nat)
    requires 1 <= id <= |s.nodes|
    ensures Recorded(s, e.id, e.kernel, e.now).0.nodes[id - 1].lastSynced ==
              if e.id == id then Later(OrNow(e.kernel.lastSynced, e.now), s.nodes[id - 1].lastSynced)
              else s.nodes[id - 1].lastSynced
  {
    hide NormalizeProtocol, Written, OrNow, Touched, Incoming;
    WrittenTime(s.kernels, e);
    TouchedTime(s.nodes[id - 1], Written(s.kernels, e.id, Incoming(e.id, e.kernel, e.now)).1,
                Incoming(e.id, e.kernel, e.now).protocol);
  }

  /** A node's sync time is the newest it has heard of: its first one or that of some sync, and no sync is newer. */
  lemma {:induction false} NodeTimeIsNewest(s: Store, syncs: seq<Sync>, id: nat)
    requires StoreOk(s) && 1 <= id <= |s.nodes|
    ensures var t := Run(s, syncs).nodes[id - 1].lastSynced;
            && s.nodes[id - 1].lastSynced <= t
            && (forall e | e in syncs && e.id == id :: OrNow(e.kernel.lastSynced, e.now) <= t)
            && (t == s.nodes[id - 1].lastSynced
                || exists e :: e in syncs && e.id == id && OrNow(e.kernel.lastSynced, e.now) == t)
  {
    hide StoreOk, Recorded, OrNow;
    if syncs == [] {
    } else {
      var front, last := syncs[..|syncs| - 1], syncs[|syncs| - 1];
      NodeTimeIsNewest(s, front, id);
      StepTime(Run(s, front), last, id);
      assert forall e :: e in syncs <==> e in front || e == last by { assert syncs == front + [last]; }
    }
  }
}

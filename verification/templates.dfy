/** The subscription template store: unique names, one default per client type, and a version history. */
module Templates {
  import opened Options
  import opened Text

  datatype Error = NotFound | Conflict | InvalidArgument

  datatype Result<+T> = Ok(value: T) | Err(error: Error)

  const UINT32 := 0x1_0000_0000

  type Variables = map<string, string>

  datatype Template = Template(
    name: string,
    description: string,
    clientType: string,
    format: string,
    content: string,
    variables: Option<Variables>,
    isDefault: bool,
    version: nat)

  /** A published snapshot; (template, version) is the table's primary key. */
  datatype Release = Release(
    template: nat,
    version: nat,
    content: string,
    format: string,
    variables: Option<Variables>)

  datatype CreateInput = CreateInput(
    name: string,
    description: string,
    clientType: string,
    format: string,
    content: string,
    variables: Option<Variables>,
    isDefault: bool)

  datatype UpdateInput = UpdateInput(
    name: Option<string>,
    description: Option<string>,
    format: Option<string>,
    content: Option<string>,
    variables: Option<Variables>,
    isDefault: Option<bool>)

  /** Both tables; a template's identifier is its position counted from one. */
  datatype Store = Store(templates: seq<Template>, history: seq<Release>)

  // ---------- invariants ----------

  /** No two templates of a client type have names that differ only in case. */
  ghost predicate NamesUnique(ts: seq<Template>) {
    forall i, j | 0 <= i < j < |ts| ::
      !(ts[i].clientType == ts[j].clientType && ToLower(ts[i].name) == ToLower(ts[j].name))
  }

  /** At most one default per client type. */
  ghost predicate OneDefault(ts: seq<Template>) {
    forall i, j | 0 <= i < j < |ts| && ts[i].isDefault && ts[j].isDefault :: ts[i].clientType != ts[j].clientType
  }

  /** Client types are stored lower-cased, which is what lets later checks skip doing so. */
  ghost predicate TypesLower(ts: seq<Template>) {
    forall i | 0 <= i < |ts| :: ToLower(ts[i].clientType) == ts[i].clientType
  }

  /** The releases of one template, in the order they were published. */
  function ReleasesOf(history: seq<Release>, id: nat): seq<Release> {
    if history == [] then []
    else
      var last := history[|history| - 1];
      ReleasesOf(history[..|history| - 1], id) + if last.template == id then [last] else []
  }

  /** The number of the k-th release, counting from zero, in a 32-bit column. */
  function Number(k: nat): nat { (k + 1) % UINT32 }

  /** The k-th release carries number k, and the template the number of its latest, both modulo the column's width. */
  ghost predicate Numbered(ts: seq<Template>, history: seq<Release>, id: nat)
    requires 1 <= id <= |ts|
  {
    var releases := ReleasesOf(history, id);
    && |releases| <= UINT32
    && ts[id - 1].version == |releases| % UINT32
    && forall k | 0 <= k < |releases| :: releases[k].version == Number(k) && releases[k].template == id
  }

  ghost predicate HistoryOk(ts: seq<Template>, history: seq<Release>) {
    && (forall k | 0 <= k < |history| :: 1 <= history[k].template <= |ts|)
    && (forall id | 1 <= id <= |ts| :: Numbered(ts, history, id))
  }

  ghost predicate StoreOk(s: Store) {
    NamesUnique(s.templates) && OneDefault(s.templates) && TypesLower(s.templates) && HistoryOk(s.templates, s.history)
  }

  // ---------- specifications ----------

  predicate SameName(t: Template, name: string, clientType: string) {
    ToLower(t.name) == ToLower(name) && ToLower(t.clientType) == clientType
  }

  predicate NameTaken(ts: seq<Template>, name: string, clientType: string) {
    exists i :: 0 <= i < |ts| && SameName(ts[i], name, clientType)
  }

  predicate Incomplete(t: Template) { t.name == "" || t.clientType == "" || TrimSpace(t.content) == "" }

  /** Every template of a client type but one loses the default flag. */
  function Cleared(ts: seq<Template>, clientType: string, id: nat): (r: seq<Template>)
    ensures |r| == |ts|
    ensures forall i | 0 <= i < |ts| ::
              r[i] == if ts[i].clientType == clientType && i + 1 != id then ts[i].(isDefault := false) else ts[i]
  {
    seq(|ts|, i requires 0 <= i < |ts| =>
      if ts[i].clientType == clientType && i + 1 != id then ts[i].(isDefault := false) else ts[i])
  }

  function NewTemplate(c: CreateInput): Template {
    var format := ToLower(TrimSpace(c.format));
    Template(TrimSpace(c.name), TrimSpace(c.description), ToLower(TrimSpace(c.clientType)),
             if format == "" then "go_template" else format, c.content, c.variables, c.isDefault, 0)
  }

  function Created(s: Store, c: CreateInput): (Store, Result<nat>) {
    hide *;
    var t := NewTemplate(c);
    if Incomplete(t) then (s, Err(InvalidArgument))
    else if NameTaken(s.templates, t.name, t.clientType) then (s, Err(Conflict))
    else
      var added := s.templates + [t];
      var kept := if t.isDefault then Cleared(added, t.clientType, |added|) else added;
      (s.(templates := kept), Ok(|added|))
  }

  /** What an update's input may not hold. */
  predicate BlankField(u: UpdateInput) {
    || (u.format.Some? && ToLower(TrimSpace(u.format.value)) == "")
    || (u.content.Some? && TrimSpace(u.content.value) == "")
  }

  predicate NameClashes(ts: seq<Template>, id: nat, u: UpdateInput)
    requires 1 <= id <= |ts|
  {
    u.name.Some? && exists i :: 0 <= i < |ts| && i != id - 1
                                && SameName(ts[i], TrimSpace(u.name.value), ts[id - 1].clientType)
  }

  /** The edited row; only the given fields change, never the client type or the version. */
  function Edited(t: Template, u: UpdateInput): Template {
    t.(name := if u.name.Some? then TrimSpace(u.name.value) else t.name,
       description := if u.description.Some? then TrimSpace(u.description.value) else t.description,
       format := if u.format.Some? then ToLower(TrimSpace(u.format.value)) else t.format,
       content := if u.content.Some? then u.content.value else t.content,
       variables := if u.variables.Some? then u.variables else t.variables,
       isDefault := if u.isDefault.Some? then u.isDefault.value else t.isDefault)
  }

  function Updated(s: Store, id: nat, u: UpdateInput): (Store, Result<nat>) {
    if !(1 <= id <= |s.templates|) then (s, Err(NotFound))
    else if u.name.Some? && TrimSpace(u.name.value) == "" then (s, Err(InvalidArgument))
    else if NameClashes(s.templates, id, u) then (s, Err(Conflict))
    else if BlankField(u) then (s, Err(InvalidArgument))
    else
      var t := s.templates[id - 1];
      var others :=
        if u.isDefault == Some(true) && !t.isDefault then Cleared(s.templates, t.clientType, id) else s.templates;
      (s.(templates := others[id - 1 := Edited(t, u)]), Ok(id))
  }

  /** The snapshot a publish takes: the row as it stands, under the next number. */
  function Snapshot(t: Template, id: nat): Release {
    Release(id, Number(t.version), t.content, t.format, t.variables)
  }

  function Published(s: Store, id: nat): (Store, Result<nat>) {
    if !(1 <= id <= |s.templates|) then (s, Err(NotFound))
    else
      var r := Snapshot(s.templates[id - 1], id);
      if exists k :: 0 <= k < |s.history| && s.history[k].template == id && s.history[k].version == r.version then
        (s, Err(Conflict))
      else
        (Store(s.templates[id - 1 := s.templates[id - 1].(version := r.version)], s.history + [r]), Ok(r.version))
  }

  // ---------- the repository ----------

  class Repository {
    var templates: seq<Template>
    var history: seq<Release>

    ghost function Now(): Store
      reads this
    {
      Store(templates, history)
    }

    constructor ()
      ensures Now() == Store([], [])
    {
      templates, history := [], [];
    }

    /** Takes the default flag off every template of a client type but one. */
    method ClearDefaults(clientType: string, id: nat)
      modifies this`templates
      ensures templates == Cleared(old(templates), clientType, id)
    {
      var before := templates;
      for i := 0 to |before|
        invariant |templates| == |before|
        invariant forall k | 0 <= k < i :: templates[k] == Cleared(before, clientType, id)[k]
        invariant forall k | i <= k < |before| :: templates[k] == before[k]
      {
        if templates[i].clientType == clientType && i + 1 != id {
          templates := templates[i := templates[i].(isDefault := false)];
        }
      }
    }

    method Create(c: CreateInput) returns (r: Result<nat>)
      modifies this
      ensures (Now(), r) == Created(old(Now()), c)
    {
      hide TrimSpace, ToLower, SameName;
      var t := NewTemplate(c);
      if t.name == "" || t.clientType == "" || TrimSpace(c.content) == "" {
        return Err(InvalidArgument);
      }
      if NameTaken(templates, t.name, t.clientType) {
        return Err(Conflict);
      }
      templates := templates + [t];
      if t.isDefault {
        ClearDefaults(t.clientType, |templates|);
      }
      r := Ok(|templates|);
    }

    method Update(id: nat, u: UpdateInput) returns (r: Result<nat>)
      modifies this
      ensures (Now(), r) == Updated(old(Now()), id, u)
    {
      hide TrimSpace, ToLower, SameName;
      if !(1 <= id <= |templates|) {
        return Err(NotFound);
      }
      var t := templates[id - 1];
      if u.name.Some? {
        var name := TrimSpace(u.name.value);
        if name == "" {
          return Err(InvalidArgument);
        }
        if NameClashes(templates, id, u) {
          return Err(Conflict);
        }
        t := t.(name := name);
      }
      if u.description.Some? { t := t.(description := TrimSpace(u.description.value)); }
      if u.format.Some? {
        var format := ToLower(TrimSpace(u.format.value));
        if format == "" {
          return Err(InvalidArgument);
        }
        t := t.(format := format);
      }
      if u.content.Some? {
        if TrimSpace(u.content.value) == "" {
          return Err(InvalidArgument);
        }
        t := t.(content := u.content.value);
      }
      if u.variables.Some? { t := t.(variables := u.variables); }
      if u.isDefault.Some? {
        if u.isDefault.value && !t.isDefault {
          ClearDefaults(t.clientType, id);
        }
        t := t.(isDefault := u.isDefault.value);
      }
      assert t == Edited(old(templates)[id - 1], u);
      templates := templates[id - 1 := t];
      r := Ok(id);
    }

    /** Bumps the row first; a history row with that number already there undoes the bump. */
    method Publish(id: nat) returns (r: Result<nat>)
      modifies this
      ensures (Now(), r) == Published(old(Now()), id)
    {
      if !(1 <= id <= |templates|) {
        return Err(NotFound);
      }
      var saved := templates;
      var t := templates[id - 1];
      t := t.(version := (t.version + 1) % UINT32);
      templates := templates[id - 1 := t];
      var release := Release(id, t.version, t.content, t.format, t.variables);
      if exists k :: 0 <= k < |history| && history[k].template == id && history[k].version == release.version {
        templates := saved;
        return Err(Conflict);
      }
      history := history + [release];
      r := Ok(t.version);
    }
  }

  // ---------- what each operation keeps ----------

  lemma ReleasesAppend(history: seq<Release>, r: Release, id: nat)
    ensures ReleasesOf(history + [r], id) == ReleasesOf(history, id) + if r.template == id then [r] else []
  {
  }

  lemma {:induction false} ReleasesOfNone(history: seq<Release>, id: nat)
    requires forall k | 0 <= k < |history| :: history[k].template != id
    ensures ReleasesOf(history, id) == []
  {
    if history == [] {
    } else {
      ReleasesOfNone(history[..|history| - 1], id);
    }
  }

  /** A row of the history is among its template's releases. */
  lemma {:induction false} RowIsReleased(history: seq<Release>, k: nat)
    requires k < |history|
    ensures history[k] in ReleasesOf(history, history[k].template)
  {
    var rest := history[..|history| - 1];
    if k == |rest| {
    } else {
      RowIsReleased(rest, k);
      assert rest[k] == history[k];
    }
  }

  /** A release of a template is a row of the history. */
  lemma {:induction false} ReleaseIsRow(history: seq<Release>, id: nat, r: Release)
    requires r in ReleasesOf(history, id)
    ensures r in history && r.template == id
  {
    var rest := history[..|history| - 1];
    if r in ReleasesOf(rest, id) {
      ReleaseIsRow(rest, id, r);
    }
  }

  lemma ReleasesAreHistory(history: seq<Release>, id: nat, v: nat)
    ensures (exists k :: 0 <= k < |history| && history[k].template == id && history[k].version == v)
            <==> (exists j :: 0 <= j < |ReleasesOf(history, id)| && ReleasesOf(history, id)[j].version == v)
  {
    hide ReleasesOf;
    var releases := ReleasesOf(history, id);
    if k :| 0 <= k < |history| && history[k].template == id && history[k].version == v {
      RowIsReleased(history, k);
      var j :| 0 <= j < |releases| && releases[j] == history[k];
    }
    if j :| 0 <= j < |releases| && releases[j].version == v {
      ReleaseIsRow(history, id, releases[j]);
      var k :| 0 <= k < |history| && history[k] == releases[j];
    }
  }

  /** Publishing is refused exactly when the version column has run through all its values. */
  lemma PublishFailsIff(s: Store, id: nat)
    requires StoreOk(s) && 1 <= id <= |s.templates|
    ensures Published(s, id).1 == Err(Conflict) <==> |ReleasesOf(s.history, id)| == UINT32
  {
    hide NamesUnique, OneDefault, TypesLower, ReleasesOf;
    assert Numbered(s.templates, s.history, id);
    var releases := ReleasesOf(s.history, id);
    var v := Snapshot(s.templates[id - 1], id).version;
    ReleasesAreHistory(s.history, id, v);
    NextNumber(|releases|);
    if |releases| == UINT32 {
      assert releases[0].version == v;
    }
  }

  lemma NextNumber(n: nat)
    requires n <= UINT32
    ensures Number(n % UINT32) == Number(n)
    ensures n < UINT32 ==> forall k | 0 <= k < n :: Number(k) != Number(n)
  {
  }

  /** Rows that kept their names, types and versions keep those invariants. */
  predicate SameRow(a: Template, b: Template) {
    a.name == b.name && a.clientType == b.clientType && a.version == b.version
  }

  lemma ClearedRows(ts: seq<Template>, clientType: string, id: nat)
    ensures forall i | 0 <= i < |ts| :: SameRow(Cleared(ts, clientType, id)[i], ts[i])
  {
  }

  lemma HistoryByVersion(ts: seq<Template>, ts': seq<Template>, history: seq<Release>)
    requires HistoryOk(ts, history) && |ts'| == |ts|
    requires forall i | 0 <= i < |ts| :: ts'[i].version == ts[i].version
    ensures HistoryOk(ts', history)
  {
    forall id | 1 <= id <= |ts'| ensures Numbered(ts', history, id) {
      assert Numbered(ts, history, id);
    }
  }

  lemma HistoryOfNewTemplate(ts: seq<Template>, t: Template, history: seq<Release>)
    requires HistoryOk(ts, history) && t.version == 0
    ensures HistoryOk(ts + [t], history)
  {
    forall id | 1 <= id <= |ts + [t]| ensures Numbered(ts + [t], history, id) {
      if id <= |ts| {
        assert Numbered(ts, history, id);
      } else {
        ReleasesOfNone(history, id);
      }
    }
  }

  lemma NewTemplateIsLower(c: CreateInput)
    ensures ToLower(NewTemplate(c).clientType) == NewTemplate(c).clientType && NewTemplate(c).version == 0
  {
    LowerIsIdempotent(TrimSpace(c.clientType));
  }

  lemma CreateKeeps(s: Store, c: CreateInput)
    requires StoreOk(s)
    ensures StoreOk(Created(s, c).0)
  {
    hide ToLower, TrimSpace, HistoryOk, NewTemplate;
    var t := NewTemplate(c);
    NewTemplateIsLower(c);
    if Created(s, c).1.Ok? {
      var added := s.templates + [t];
      HistoryOfNewTemplate(s.templates, t, s.history);
      assert NamesUnique(added) && TypesLower(added);
      if t.isDefault {
        var kept := Cleared(added, t.clientType, |added|);
        ClearedRows(added, t.clientType, |added|);
        HistoryByVersion(added, kept, s.history);
        NamesByRow(added, kept);
      }
    }
  }

  lemma NamesByRow(ts: seq<Template>, ts': seq<Template>)
    requires NamesUnique(ts) && TypesLower(ts) && |ts'| == |ts|
    requires forall i | 0 <= i < |ts| :: SameRow(ts'[i], ts[i])
    ensures NamesUnique(ts') && TypesLower(ts')
  {
  }

  /** The update check compares with the stored client type as it is; it is sound because creates lower-cased it. */
  lemma UpdateKeeps(s: Store, id: nat, u: UpdateInput)
    requires StoreOk(s)
    ensures StoreOk(Updated(s, id, u).0)
  {
    hide ToLower, TrimSpace, HistoryOk, BlankField;
    if Updated(s, id, u).1.Ok? {
      var t := s.templates[id - 1];
      var clears := u.isDefault == Some(true) && !t.isDefault;
      var others := if clears then Cleared(s.templates, t.clientType, id) else s.templates;
      ClearedRows(s.templates, t.clientType, id);
      assert forall i | 0 <= i < |others| :: SameRow(others[i], s.templates[i]);
      NamesByRow(s.templates, others);
      var ts' := others[id - 1 := Edited(t, u)];
      HistoryByVersion(s.templates, ts', s.history);
      EditKeepsNames(s.templates, others, id, u);
      EditKeepsDefault(s.templates, others, id, u);
    }
  }

  lemma EditKeepsNames(ts: seq<Template>, others: seq<Template>, id: nat, u: UpdateInput)
    requires 1 <= id <= |ts| == |others| && NamesUnique(others) && TypesLower(others)
    requires forall i | 0 <= i < |ts| :: SameRow(others[i], ts[i])
    requires !NameClashes(ts, id, u)
    ensures var ts' := others[id - 1 := Edited(ts[id - 1], u)]; NamesUnique(ts') && TypesLower(ts')
  {
    hide ToLower, TrimSpace;
    assert others[id - 1].name == ts[id - 1].name;
    if u.name.Some? {
      forall i | 0 <= i < |ts| && i != id - 1
        ensures !(others[i].clientType == ts[id - 1].clientType
                  && ToLower(others[i].name) == ToLower(TrimSpace(u.name.value)))
      {
        assert SameRow(others[i], ts[i]);
        assert !SameName(ts[i], TrimSpace(u.name.value), ts[id - 1].clientType);
      }
    }
  }

  lemma EditKeepsDefault(ts: seq<Template>, others: seq<Template>, id: nat, u: UpdateInput)
    requires 1 <= id <= |ts| && OneDefault(ts)
    requires others == if u.isDefault == Some(true) && !ts[id - 1].isDefault
                       then Cleared(ts, ts[id - 1].clientType, id) else ts
    ensures OneDefault(others[id - 1 := Edited(ts[id - 1], u)])
  {
  }

  lemma PublishKeeps(s: Store, id: nat)
    requires StoreOk(s)
    ensures StoreOk(Published(s, id).0)
  {
    hide ToLower, ReleasesOf;
    if Published(s, id).1.Ok? {
      PublishFailsIff(s, id);
      var r := Snapshot(s.templates[id - 1], id);
      var ts' := s.templates[id - 1 := s.templates[id - 1].(version := r.version)];
      assert Numbered(s.templates, s.history, id);
      NextNumber(|ReleasesOf(s.history, id)|);
      forall other | 1 <= other <= |ts'| ensures Numbered(ts', s.history + [r], other) {
        assert Numbered(s.templates, s.history, other);
        ReleasesAppend(s.history, r, other);
      }
      RowsByPublish(s.templates, ts');
    }
  }

  lemma RowsByPublish(ts: seq<Template>, ts': seq<Template>)
    requires NamesUnique(ts) && TypesLower(ts) && OneDefault(ts) && |ts'| == |ts|
    requires forall i | 0 <= i < |ts| ::
               ts'[i].name == ts[i].name && ts'[i].clientType == ts[i].clientType && ts'[i].isDefault == ts[i].isDefault
    ensures NamesUnique(ts') && TypesLower(ts') && OneDefault(ts')
  {
  }

  // ---------- runs ----------

  datatype Step = Create(input: CreateInput) | Update(id: nat, update: UpdateInput) | Publish(target: nat)

  const EMPTY := Store([], [])

  function Exec(s: Store, step: Step): Store {
    match step
    case Create(c) => Created(s, c).0
    case Update(id, u) => Updated(s, id, u).0
    case Publish(id) => Published(s, id).0
  }

  function Run(steps: seq<Step>): Store {
    if steps == [] then EMPTY else Exec(Run(steps[..|steps| - 1]), steps[|steps| - 1])
  }

  lemma {:induction false} EveryRunKeeps(steps: seq<Step>)
    ensures StoreOk(Run(steps))
  {
    hide StoreOk, Created, Updated, Published;
    if steps == [] {
      EmptyIsOk();
    } else {
      var before := Run(steps[..|steps| - 1]);
      EveryRunKeeps(steps[..|steps| - 1]);
      match steps[|steps| - 1]
      case Create(c) => CreateKeeps(before, c);
      case Update(id, u) => UpdateKeeps(before, id, u);
      case Publish(id) => PublishKeeps(before, id);
    }
  }

  lemma EmptyIsOk()
    ensures StoreOk(EMPTY)
  {
  }

  /** Over every run: names are unique up to case, and each client type has at most one default. */
  lemma RunKeepsUniqueness(steps: seq<Step>, i: nat, j: nat)
    requires i < j < |Run(steps).templates|
    ensures var a, b := Run(steps).templates[i], Run(steps).templates[j];
            && !(EqualFold(a.name, b.name) && EqualFold(a.clientType, b.clientType))
            && !(a.isDefault && b.isDefault && EqualFold(a.clientType, b.clientType))
  {
    EveryRunKeeps(steps);
    hide Run, HistoryOk, ToLower;
  }

  /** Over every run: a template's releases are numbered without gaps, wrapping only with the column. */
  lemma RunNumbersReleases(steps: seq<Step>, id: nat)
    requires 1 <= id <= |Run(steps).templates|
    ensures var s := Run(steps);
            var releases := ReleasesOf(s.history, id);
            && |releases| <= UINT32
            && (forall k | 0 <= k < |releases| && k + 1 < UINT32 :: releases[k].version == k + 1)
            && (|releases| < UINT32 ==> s.templates[id - 1].version == |releases|)
  {
    EveryRunKeeps(steps);
    hide Run, ReleasesOf, NamesUnique, OneDefault, TypesLower;
    assert Numbered(Run(steps).templates, Run(steps).history, id);
  }

  /** The moment a release was published: a publish of its template, which then looked as the release says. */
  ghost predicate PublishedAt(steps: seq<Step>, j: nat, h: nat, r: Release)
    requires j < |steps|
  {
    var before := Run(steps[..j]);
    && steps[j] == Publish(r.template)
    && |before.history| == h
    && 1 <= r.template <= |before.templates|
    && r == Snapshot(before.templates[r.template - 1], r.template)
  }

  /** Whatever happens later, every release still is what its template was when it was published. */
  lemma {:induction false} ReleasesAreFaithful(steps: seq<Step>, h: nat)
    requires h < |Run(steps).history|
    ensures exists j :: 0 <= j < |steps| && PublishedAt(steps, j, h, Run(steps).history[h])
  {
    hide Created, Updated, NewTemplate, Edited;
    var n := |steps| - 1;
    var rest := steps[..n];
    HistoryGrows(Run(rest), steps[n]);
    if h < |Run(rest).history| {
      ReleasesAreFaithful(rest, h);
      var j :| 0 <= j < |rest| && PublishedAt(rest, j, h, Run(rest).history[h]);
      assert rest[..j] == steps[..j] && rest[j] == steps[j];
      assert PublishedAt(steps, j, h, Run(steps).history[h]);
    } else {
      assert PublishedAt(steps, n, h, Run(steps).history[h]);
    }
  }

  /** No operation rewrites history: it stays or gains one release, and only a publish adds it. */
  lemma HistoryGrows(s: Store, step: Step)
    ensures s.history <= Exec(s, step).history
    ensures |Exec(s, step).history| > |s.history| ==>
              && step.Publish? && 1 <= step.target <= |s.templates|
              && Exec(s, step).history == s.history + [Snapshot(s.templates[step.target - 1], step.target)]
  {
    hide NewTemplate, Edited, SameName, TrimSpace, NameClashes, BlankField, Cleared;
  }
}

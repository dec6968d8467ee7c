/** What template operations answer and write, said of their input, and what a template shows after any run. */
module TemplateEffects {
  import opened Options
  import opened Text
  import opened Templates

  /** A format is trimmed and lower-cased. */
  function FormatOf(format: string): string { ToLower(TrimSpace(format)) }

  predicate HasTemplate(s: Store, id: nat) { 1 <= id <= |s.templates| }

  /** Some other template has the name and the client type, in any case. */
  predicate Clashes(ts: seq<Template>, but: nat, name: string, clientType: string) {
    exists i :: 0 <= i < |ts| && i + 1 != but
                && ToLower(ts[i].name) == ToLower(name) && ToLower(ts[i].clientType) == clientType
  }

  /** Rows other than one keep everything but, when it becomes the default of its type, their own default flag. */
  ghost predicate OthersKeep(
      ts: seq<Template>, ts': seq<Template>, but: nat, clientType: string, becomesDefault: bool) {
    forall i | 0 <= i < |ts| && i + 1 != but ::
      i < |ts'| && ts'[i] == ts[i].(isDefault := ts[i].isDefault && !(becomesDefault && ts[i].clientType == clientType))
  }

  // ---------- create ----------

  predicate Blank(c: CreateInput) {
    TrimSpace(c.name) == "" || TrimSpace(c.clientType) == "" || TrimSpace(c.content) == ""
  }

  /** A create is refused when blank or clashing and then changes nothing; else it adds its row as given. */
  lemma CreatedIff(s: Store, c: CreateInput)
    ensures var (s', r) := Created(s, c);
            var clientType := ToLower(TrimSpace(c.clientType));
            var clashes := Clashes(s.templates, 0, TrimSpace(c.name), clientType);
            && (r == Err(InvalidArgument) <==> Blank(c))
            && (r == Err(Conflict) <==> !Blank(c) && clashes)
            && (r.Ok? <==> !Blank(c) && !clashes)
            && (r.Err? ==> s' == s)
            && (r.Ok? ==>
                  && r.value == |s'.templates| == |s.templates| + 1 && s'.history == s.history
                  && s'.templates[|s.templates|] ==
                     Template(TrimSpace(c.name), TrimSpace(c.description), clientType,
                              if FormatOf(c.format) == "" then "go_template" else FormatOf(c.format),
                              c.content, c.variables, c.isDefault, 0)
                  && OthersKeep(s.templates, s'.templates, r.value, clientType, c.isDefault))
  {
    hide TrimSpace, ToLower;
    assert |ToLower(TrimSpace(c.clientType))| == |TrimSpace(c.clientType)|;
    TakenIff(s.templates, TrimSpace(c.name), ToLower(TrimSpace(c.clientType)));
  }

  lemma TakenIff(ts: seq<Template>, name: string, clientType: string)
    ensures NameTaken(ts, name, clientType) <==> Clashes(ts, 0, name, clientType)
  {
    hide ToLower;
    if NameTaken(ts, name, clientType) {
      var i :| 0 <= i < |ts| && SameName(ts[i], name, clientType);
      assert ToLower(ts[i].name) == ToLower(name);
    }
    if Clashes(ts, 0, name, clientType) {
      var i :| 0 <= i < |ts| && ToLower(ts[i].name) == ToLower(name) && ToLower(ts[i].clientType) == clientType;
      assert SameName(ts[i], name, clientType);
    }
  }

  // ---------- update ----------

  predicate BlankName(u: UpdateInput) { u.name.Some? && TrimSpace(u.name.value) == "" }

  predicate BlankText(u: UpdateInput) {
    (u.format.Some? && TrimSpace(u.format.value) == "") || (u.content.Some? && TrimSpace(u.content.value) == "")
  }

  predicate NewNameClashes(s: Store, id: nat, u: UpdateInput)
    requires HasTemplate(s, id)
  {
    u.name.Some? && Clashes(s.templates, id, TrimSpace(u.name.value), s.templates[id - 1].clientType)
  }

  /** The columns given are written, trimmed or lower-cased; the others, the client type and the version are kept. */
  predicate UpdatedIs(t: Template, t': Template, u: UpdateInput) {
    && t'.name == (if u.name.Some? then TrimSpace(u.name.value) else t.name)
    && t'.description == (if u.description.Some? then TrimSpace(u.description.value) else t.description)
    && t'.format == (if u.format.Some? then FormatOf(u.format.value) else t.format)
    && t'.content == (if u.content.Some? then u.content.value else t.content)
    && t'.variables == (if u.variables.Some? then u.variables else t.variables)
    && t'.isDefault == (if u.isDefault.Some? then u.isDefault.value else t.isDefault)
    && t'.clientType == t.clientType && t'.version == t.version
  }

  /** An update with a blank or clashing name or a blank text changes nothing; any other writes its row. */
  lemma UpdatedIff(s: Store, id: nat, u: UpdateInput)
    ensures var (s', r) := Updated(s, id, u);
            && (r == Err(NotFound) <==> !HasTemplate(s, id))
            && (r == Err(Conflict) <==> HasTemplate(s, id) && !BlankName(u) && NewNameClashes(s, id, u))
            && (r.Ok? <==> HasTemplate(s, id) && !BlankName(u) && !NewNameClashes(s, id, u) && !BlankText(u))
            && (r.Err? ==> s' == s)
            && (r.Ok? ==>
                  && r.value == id && |s'.templates| == |s.templates| && s'.history == s.history
                  && var t := s.templates[id - 1];
                  && UpdatedIs(t, s'.templates[id - 1], u)
                  && OthersKeep(s.templates, s'.templates, id, t.clientType, u.isDefault == Some(true) && !t.isDefault))
  {
    hide TrimSpace, ToLower;
    if u.format.Some? { assert |ToLower(TrimSpace(u.format.value))| == |TrimSpace(u.format.value)|; }
    if HasTemplate(s, id) && u.name.Some? { ClashIff(s, id, u); }
  }

  lemma ClashIff(s: Store, id: nat, u: UpdateInput)
    requires HasTemplate(s, id)
    ensures NameClashes(s.templates, id, u) <==> NewNameClashes(s, id, u)
  {
    hide TrimSpace, ToLower;
    var ts := s.templates;
    if u.name.Some? {
      var name := TrimSpace(u.name.value);
      forall i | 0 <= i < |ts|
        ensures SameName(ts[i], name, ts[id - 1].clientType)
                <==> ToLower(ts[i].name) == ToLower(name) && ToLower(ts[i].clientType) == ts[id - 1].clientType
      {
      }
      if NameClashes(ts, id, u) {
        var i :| 0 <= i < |ts| && i != id - 1 && SameName(ts[i], name, ts[id - 1].clientType);
        assert ToLower(ts[i].name) == ToLower(name);
      }
      if NewNameClashes(s, id, u) {
        var i :| 0 <= i < |ts| && i + 1 != id
                 && ToLower(ts[i].name) == ToLower(name) && ToLower(ts[i].clientType) == ts[id - 1].clientType;
        assert SameName(ts[i], name, ts[id - 1].clientType);
      }
    }
  }

  // ---------- publish ----------

  /** A publish records the row as it stands under the next number, or finds that number used and does nothing. */
  lemma PublishedIff(s: Store, id: nat)
    ensures var (s', r) := Published(s, id);
            && (r == Err(NotFound) <==> !HasTemplate(s, id))
            && (r.Err? ==> s' == s && r.error in {NotFound, Conflict})
            && (HasTemplate(s, id) ==>
                  var t := s.templates[id - 1];
                  var next := if t.version + 1 == 0x1_0000_0000 then 0 else t.version + 1;
                  && (t.version < 0x1_0000_0000 ==>
                        (r == Err(Conflict) <==>
                           exists k :: 0 <= k < |s.history|
                                       && s.history[k].template == id && s.history[k].version == next))
                  && (r.Ok? && t.version < 0x1_0000_0000 ==>
                        && r.value == next
                        && s'.templates == s.templates[id - 1 := t.(version := next)]
                        && s'.history == s.history + [Release(id, next, t.content, t.format, t.variables)]))
  {
  }

  // ---------- what a template shows after any run ----------

  /** What a template says, apart from its flags and numbers. */
  datatype Texts =
    Texts(name: string, description: string, format: string, content: string, variables: Option<Variables>)

  function TextsOf(t: Template): Texts { Texts(t.name, t.description, t.format, t.content, t.variables) }

  function FirstTexts(c: CreateInput): Texts {
    Texts(TrimSpace(c.name), TrimSpace(c.description),
          if FormatOf(c.format) == "" then "go_template" else FormatOf(c.format), c.content, c.variables)
  }

  function NextTexts(before: Texts, u: UpdateInput): Texts {
    Texts(if u.name.Some? then TrimSpace(u.name.value) else before.name,
          if u.description.Some? then TrimSpace(u.description.value) else before.description,
          if u.format.Some? then FormatOf(u.format.value) else before.format,
          if u.content.Some? then u.content.value else before.content,
          if u.variables.Some? then u.variables else before.variables)
  }

  /** The accepted inputs of a run for one template, put on top of each other. */
  function Accepted(steps: seq<Step>, id: nat): Option<Texts> {
    if steps == [] then None
    else
      var rest, last := steps[..|steps| - 1], steps[|steps| - 1];
      var before := Accepted(rest, id);
      match last
      case Create(c) => if Created(Run(rest), c).1 == Ok(id) then Some(FirstTexts(c)) else before
      case Update(i, u) =>
        if i == id && before.Some? && Updated(Run(rest), id, u).1.Ok? then Some(NextTexts(before.value, u)) else before
      case Publish(_) => before
  }

  lemma StepShows(s: Store, step: Step, id: nat)
    ensures var s' := Exec(s, step);
            && |s.templates| <= |s'.templates| <= |s.templates| + 1
            && (HasTemplate(s, id) ==>
                  TextsOf(s'.templates[id - 1]) ==
                    if step.Update? && step.id == id && Updated(s, id, step.update).1.Ok?
                    then NextTexts(TextsOf(s.templates[id - 1]), step.update) else TextsOf(s.templates[id - 1]))
            && (step.Create? && Created(s, step.input).1.Ok? ==>
                  && Created(s, step.input).1.value == |s'.templates| == |s.templates| + 1
                  && TextsOf(s'.templates[|s.templates|]) == FirstTexts(step.input))
            && (|s'.templates| > |s.templates| ==> step.Create? && Created(s, step.input).1.Ok?)
  {
    hide TrimSpace, ToLower, Created, Updated, Published;
    match step
    case Create(c) => CreatedIff(s, c);
    case Update(i, u) => UpdatedIff(s, i, u);
    case Publish(i) => PublishShows(s, i);
  }

  lemma PublishShows(s: Store, i: nat)
    ensures var s' := Published(s, i).0;
            && |s'.templates| == |s.templates|
            && forall k | 0 <= k < |s.templates| :: TextsOf(s'.templates[k]) == TextsOf(s.templates[k])
  {
  }

  /** After any run a template shows exactly the inputs accepted for it, the latest of each column on top. */
  lemma {:induction false} ShowsWhatWasAccepted(steps: seq<Step>, id: nat)
    ensures Accepted(steps, id)
            == if HasTemplate(Run(steps), id) then Some(TextsOf(Run(steps).templates[id - 1])) else None
  {
    hide Exec, Created, Updated, FirstTexts, NextTexts;
    if steps == [] {
    } else {
      var rest, last := steps[..|steps| - 1], steps[|steps| - 1];
      ShowsWhatWasAccepted(rest, id);
      StepShows(Run(rest), last, id);
    }
  }

  /** The content a step gives the template, if its input was accepted and gives one. */
  function Given(steps: seq<Step>, k: nat, id: nat): Option<string>
    requires k < |steps|
  {
    var s := Run(steps[..k]);
    match steps[k]
    case Create(c) => if Created(s, c).1 == Ok(id) then Some(c.content) else None
    case Update(i, u) => if i == id && Updated(s, id, u).1.Ok? then u.content else None
    case Publish(_) => None
  }

  ghost predicate LastGiven(steps: seq<Step>, k: nat, id: nat, content: string)
    requires k < |steps|
  {
    Given(steps, k, id) == Some(content) && forall j | k < j < |steps| :: Given(steps, j, id) == None
  }

  /** Some accepted step gave the content, and no later one gave another. */
  ghost predicate IsLastGiven(steps: seq<Step>, id: nat, content: string) {
    exists k :: 0 <= k < |steps| && LastGiven(steps, k, id, content)
  }

  /** A template's content is the last one accepted for it, or else the one it was created with. */
  lemma {:induction false} ContentIsLastGiven(steps: seq<Step>, id: nat)
    requires HasTemplate(Run(steps), id)
    ensures IsLastGiven(steps, id, Run(steps).templates[id - 1].content)
  {
    hide Exec, Given;
    LastStepGives(steps, id);
    var n := |steps| - 1;
    if Given(steps, n, id).Some? {
      assert LastGiven(steps, n, id, Run(steps).templates[id - 1].content);
    } else {
      var rest := steps[..n];
      ContentIsLastGiven(rest, id);
      var k :| 0 <= k < |rest| && LastGiven(rest, k, id, Run(rest).templates[id - 1].content);
      forall j | 0 <= j < n ensures Given(rest, j, id) == Given(steps, j, id) { GivenByPrefix(steps, n, j, id); }
      assert LastGiven(steps, k, id, Run(steps).templates[id - 1].content);
    }
  }

  lemma GivenByPrefix(steps: seq<Step>, n: nat, j: nat, id: nat)
    requires j < n <= |steps|
    ensures Given(steps[..n], j, id) == Given(steps, j, id)
  {
    assert steps[..n][..j] == steps[..j];
  }

  /** The last step's content shows when it gives one; otherwise the one before still does. */
  lemma LastStepGives(steps: seq<Step>, id: nat)
    requires HasTemplate(Run(steps), id)
    ensures steps != []
    ensures var rest, given := steps[..|steps| - 1], Given(steps, |steps| - 1, id);
            if given.Some? then Run(steps).templates[id - 1].content == given.value
            else HasTemplate(Run(rest), id)
                 && Run(rest).templates[id - 1].content == Run(steps).templates[id - 1].content
  {
    hide Exec, Created, Updated, TrimSpace, ToLower;
    var rest, last := steps[..|steps| - 1], steps[|steps| - 1];
    StepShows(Run(rest), last, id);
    if last.Update? && last.id == id && Updated(Run(rest), id, last.update).1.Ok? {
      UpdateFinds(Run(rest), id, last.update);
    }
  }

  lemma UpdateFinds(s: Store, id: nat, u: UpdateInput)
    requires Updated(s, id, u).1.Ok?
    ensures HasTemplate(s, id)
  {
  }

  /** A release carries what had been accepted for its template when it was published, whatever came later. */
  lemma ReleaseShowsWhatWasAccepted(steps: seq<Step>, h: nat)
    requires h < |Run(steps).history|
    ensures var r := Run(steps).history[h];
            exists j :: 0 <= j < |steps| && steps[j] == Publish(r.template)
                        && Accepted(steps[..j], r.template).Some?
                        && var texts := Accepted(steps[..j], r.template).value;
                        r.content == texts.content && r.format == texts.format && r.variables == texts.variables
  {
    hide Run, Accepted;
    ReleasesAreFaithful(steps, h);
    var r := Run(steps).history[h];
    var j :| 0 <= j < |steps| && PublishedAt(steps, j, h, r);
    ShowsWhatWasAccepted(steps[..j], r.template);
  }
}

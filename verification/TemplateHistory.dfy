/** Group validation and its template history (apis/cloud-init.openchami.io/v1/group_types.go).
    Hashing, variable extraction, rendering and YAML checking are parameters. */
module TemplateHistory {
  import opened Prelude
  import opened MergePatch
  import opened ShorthandPatch

  datatype Info = Info(version: string, timestamp: string, valid: bool, message: string)

  const LIMIT: nat := 10

  // ---------------------------------------------------------------- the history

  function FirstWith(h: seq<Info>, version: string): Option<nat> {
    if h == [] then None
    else if h[0].version == version then Some(0)
    else match FirstWith(h[1..], version)
      case Some(i) => Some(i + 1)
      case None => None
  }

  lemma {:induction false} FirstWithIs(h: seq<Info>, version: string, i: nat)
    requires i < |h| && h[i].version == version && forall j :: 0 <= j < i ==> h[j].version != version
    ensures FirstWith(h, version) == Some(i)
  {
    if i > 0 {
      FirstWithIs(h[1..], version, i - 1);
    }
  }

  lemma {:induction false} FirstWithNone(h: seq<Info>, version: string)
    ensures FirstWith(h, version).None? <==> forall j :: 0 <= j < |h| ==> h[j].version != version
    ensures FirstWith(h, version).Some? ==>
              FirstWith(h, version).value < |h| && h[FirstWith(h, version).value].version == version
  {
    if h != [] {
      FirstWithNone(h[1..], version);
      assert forall j :: 1 <= j < |h| ==> h[j] == h[1..][j - 1];
    }
  }

  function LastTen<T>(s: seq<T>): seq<T> {
    if |s| > LIMIT then s[|s| - LIMIT..] else s
  }

  /** trackTemplateVersion: replace the entry of the version in place, or append and drop the oldest. */
  function Tracked(h: seq<Info>, e: Info): seq<Info> {
    match FirstWith(h, e.version)
    case Some(i) => (FirstWithNone(h, e.version); h[i := e])
    case None => LastTen(h + [e])
  }

  /** The history after tracking these outcomes in turn, from none. */
  function History(log: seq<Info>): seq<Info> {
    if log == [] then [] else Tracked(History(log[..|log| - 1]), log[|log| - 1])
  }

  // ---------------------------------------------------------------- what it should be

  /** A bounded first-in first-out queue of distinct versions. */
  function Queue(log: seq<Info>): seq<string> {
    if log == [] then []
    else
      var q, v := Queue(log[..|log| - 1]), log[|log| - 1].version;
      if v in q then q else LastTen(q + [v])
  }

  /** The latest outcome tracked for a version. */
  function Latest(log: seq<Info>, version: string): Option<Info> {
    if log == [] then None
    else if log[|log| - 1].version == version then Some(log[|log| - 1])
    else Latest(log[..|log| - 1], version)
  }

  ghost predicate Distinct(q: seq<string>) {
    forall i, j :: 0 <= i < j < |q| ==> q[i] != q[j]
  }

  /** `h` lists the versions of `q` in order, each with its latest outcome. */
  ghost predicate Shows(h: seq<Info>, q: seq<string>, log: seq<Info>) {
    && |h| == |q|
    && forall i :: 0 <= i < |q| ==> h[i].version == q[i] && Latest(log, q[i]) == Some(h[i])
  }

  lemma {:induction false} QueueIsBounded(log: seq<Info>)
    ensures |Queue(log)| <= LIMIT && Distinct(Queue(log))
    ensures log != [] ==> log[|log| - 1].version in Queue(log)
  {
    if log != [] {
      var front, v := Queue(log[..|log| - 1]), log[|log| - 1].version;
      QueueIsBounded(log[..|log| - 1]);
      if v !in front {
        var all := front + [v];
        assert LastTen(all)[|LastTen(all)| - 1] == v;
      }
    }
  }

  lemma ShowsUpdated(h: seq<Info>, q: seq<string>, log: seq<Info>, e: Info)
    requires Shows(h, q, log) && Distinct(q) && e.version in q
    ensures Shows(Tracked(h, e), q, log + [e])
  {
    var i :| 0 <= i < |q| && q[i] == e.version;
    FirstWithIs(h, e.version, i);
    assert (log + [e])[..|log|] == log;
  }

  lemma ShowsAppended(h: seq<Info>, q: seq<string>, log: seq<Info>, e: Info)
    requires Shows(h, q, log) && e.version !in q
    ensures Shows(Tracked(h, e), LastTen(q + [e.version]), log + [e])
  {
    FirstWithNone(h, e.version);
    assert forall j :: 0 <= j < |h| ==> h[j].version == q[j] && q[j] in q;
    assert (log + [e])[..|log|] == log;
    assert Shows(h + [e], q + [e.version], log + [e]);
  }

  lemma {:induction false} HistoryShowsQueue(log: seq<Info>)
    ensures Shows(History(log), Queue(log), log)
  {
    if log != [] {
      var n := |log| - 1;
      HistoryShowsQueue(log[..n]);
      QueueIsBounded(log[..n]);
      assert log == log[..n] + [log[n]];
      if log[n].version in Queue(log[..n]) {
        ShowsUpdated(History(log[..n]), Queue(log[..n]), log[..n], log[n]);
      } else {
        ShowsAppended(History(log[..n]), Queue(log[..n]), log[..n], log[n]);
      }
    }
  }

  /** From an empty history, after any sequence of validations: at most ten entries, distinct versions, in
      first-in first-out order; the current version is there; and each entry holds its version's latest outcome. */
  lemma HistoryIsBoundedOrderedMap(log: seq<Info>)
    ensures |History(log)| <= LIMIT
    ensures forall i, j :: 0 <= i < j < |History(log)| ==> History(log)[i].version != History(log)[j].version
    ensures Shows(History(log), Queue(log), log)
    ensures log != [] ==> log[|log| - 1] in History(log)
  {
    HistoryShowsQueue(log);
    QueueIsBounded(log);
    if log != [] {
      var v := log[|log| - 1].version;
      var i :| 0 <= i < |Queue(log)| && Queue(log)[i] == v;
      assert History(log)[i] == log[|log| - 1];
    }
  }

  // ---------------------------------------------------------------- validation

  /** Library calls that Validate makes. */
  datatype Library = Library(
    version: string -> string, variables: string -> seq<string>,
    render: (string, Fields) -> Result<string>, yamlError: string -> Option<string>)

  /** MergeMetadata: the group's texts over the defaults. */
  function MergedMetadata(defaults: Fields, group: map<string, string>): Fields {
    defaults + map k | k in group :: Str(group[k])
  }

  /** The group's value wins over the default, key by key, and nothing is made up. */
  lemma GroupValueWins(defaults: Fields, group: map<string, string>, k: string)
    ensures k in MergedMetadata(defaults, group) <==> k in defaults || k in group
    ensures k in group ==> MergedMetadata(defaults, group)[k] == Str(group[k])
    ensures k in defaults && k !in group ==> MergedMetadata(defaults, group)[k] == defaults[k]
  {
  }

  /** hasTemplateVariableData: the walk down the dotted path succeeds exactly when there is a value at it. */
  method HasTemplateVariableData(metadata: Fields, variable: string) returns (found: bool)
    ensures found <==> At(metadata, SplitDots(variable)).Some?
  {
    var current := Obj(metadata);
    var parts := SplitDots(variable);
    for i := 0 to |parts|
      invariant i < |parts| ==>
                  At(metadata, parts) == At(if current.Obj? then current.fields else map[], parts[i..])
      invariant i == |parts| ==> At(metadata, parts).Some?
    {
      var below := if current.Obj? then current.fields else map[];
      assert parts[i..][0] == parts[i] && parts[i..][1..] == parts[i + 1..];
      if !current.Obj? || parts[i] !in current.fields {
        if i + 1 < |parts| {
          AtEmpty(parts[i + 1..]);
        }
        return false;
      }
      current := current.fields[parts[i]];
      assert Child(below, parts[i]) == if current.Obj? then current.fields else map[];
    }
    return true;
  }

  /** The variables without data, in the order of the template. */
  function Missing(metadata: Fields, variables: seq<string>): seq<string> {
    if variables == [] then []
    else
      var front, v := Missing(metadata, variables[..|variables| - 1]), variables[|variables| - 1];
      if At(metadata, SplitDots(v)).None? then front + [v] else front
  }

  lemma {:induction false} MissingAreThose(metadata: Fields, variables: seq<string>, v: string)
    ensures v in Missing(metadata, variables) <==> v in variables && At(metadata, SplitDots(v)).None?
  {
    if variables != [] {
      var n := |variables| - 1;
      MissingAreThose(metadata, variables[..n], v);
      assert variables == variables[..n] + [variables[n]];
    }
  }

  method FindMissing(metadata: Fields, variables: seq<string>) returns (missing: seq<string>)
    ensures missing == Missing(metadata, variables)
  {
    missing := [];
    for i := 0 to |variables|
      invariant missing == Missing(metadata, variables[..i])
    {
      assert variables[..i + 1][..i] == variables[..i];
      var found := HasTemplateVariableData(metadata, variables[i]);
      if !found {
        missing := missing + [variables[i]];
      }
    }
    assert variables[..|variables|] == variables;
  }

  /** A list of texts as `%v` prints it. */
  function Printed(names: seq<string>): string {
    "[" + Spaced(names) + "]"
  }

  function Spaced(names: seq<string>): string {
    if names == [] then "" else if |names| == 1 then names[0] else names[0] + " " + Spaced(names[1..])
  }

  /** What Validate finds: valid, or the first error it reports. */
  datatype Verdict =
    Valid | NoTemplate | MissingVariables(names: seq<string>) | RenderError(detail: string)
      | InvalidYAML(detail: string)
  {
    function Message(): string {
      match this
      case Valid => ""
      case NoTemplate => "template is required"
      case MissingVariables(names) => "missing required variables: " + Printed(names)
      case RenderError(detail) => "template render error: " + detail
      case InvalidYAML(detail) => "template YAML invalid after rendering: " + detail
    }
  }

  function Judged(lib: Library, template: string, metadata: Fields): Verdict {
    if template == "" then NoTemplate
    else if Missing(metadata, lib.variables(template)) != [] then
      MissingVariables(Missing(metadata, lib.variables(template)))
    else match lib.render(template, metadata)
      case Err(detail) => RenderError(detail)
      case Ok(text) =>
        (match lib.yamlError(text)
         case Some(detail) => InvalidYAML(detail)
         case None => Valid)
  }

  /** A group is valid exactly when it has a template, every variable of it has data, and it renders to YAML. */
  lemma ValidExactly(lib: Library, template: string, metadata: Fields)
    ensures Judged(lib, template, metadata).Valid? <==>
              && template != ""
              && (forall v :: v in lib.variables(template) ==> At(metadata, SplitDots(v)).Some?)
              && lib.render(template, metadata).Ok? && lib.yamlError(lib.render(template, metadata).value).None?
  {
    var variables := lib.variables(template);
    var missing := Missing(metadata, variables);
    forall v ensures v in missing <==> v in variables && At(metadata, SplitDots(v)).None? {
      MissingAreThose(metadata, variables, v);
    }
    assert missing != [] ==> missing[0] in missing;
  }

  /** Which error is reported: the first of these that applies. */
  lemma ErrorExactly(lib: Library, template: string, metadata: Fields)
    ensures var verdict, variables := Judged(lib, template, metadata), lib.variables(template);
            var complete := forall v :: v in variables ==> At(metadata, SplitDots(v)).Some?;
            && (verdict.NoTemplate? <==> template == "")
            && (verdict.MissingVariables? <==> template != "" && !complete)
            && (verdict.MissingVariables? ==> verdict.names == Missing(metadata, variables))
            && (verdict.RenderError? <==> template != "" && complete && lib.render(template, metadata).Err?)
            && (verdict.RenderError? ==> lib.render(template, metadata) == Err(verdict.detail))
            && (verdict.InvalidYAML? ==> lib.yamlError(lib.render(template, metadata).value) == Some(verdict.detail))
  {
    var variables := lib.variables(template);
    var missing := Missing(metadata, variables);
    forall v ensures v in missing <==> v in variables && At(metadata, SplitDots(v)).None? {
      MissingAreThose(metadata, variables, v);
    }
    assert missing != [] ==> missing[0] in missing;
  }

  /** And what it says. */
  lemma MessageSays(names: seq<string>, detail: string)
    ensures Valid.Message() == "" && NoTemplate.Message() == "template is required"
    ensures MissingVariables(names).Message() == "missing required variables: [" + Spaced(names) + "]"
    ensures RenderError(detail).Message() == "template render error: " + detail
    ensures InvalidYAML(detail).Message() == "template YAML invalid after rendering: " + detail
  {
    assert "missing required variables: " + ("[" + Spaced(names) + "]")
        == "missing required variables: [" + Spaced(names) + "]";
  }

  lemma {:induction false} SpacedSnoc(names: seq<string>, name: string)
    requires names != []
    ensures Spaced(names + [name]) == Spaced(names) + " " + name
  {
    assert (names + [name])[1..] == names[1..] + [name];
    if |names| > 1 {
      SpacedSnoc(names[1..], name);
    } else {
      assert Spaced([name]) == name;
    }
  }

  class Group {
    var template: string
    var metaData: map<string, string>
    var valid: bool
    var errorMessage: string
    var requiredVariables: seq<string>
    var currentVersion: string
    var history: seq<Info>

    constructor (template: string, metaData: map<string, string>)
      ensures this.template == template && this.metaData == metaData && history == []
    {
      this.template, this.metaData := template, metaData;
      valid, errorMessage, requiredVariables, currentVersion, history := false, "", [], "", [];
    }

    method TrackTemplateVersion(lib: Library, ok: bool, message: string, timestamp: string)
      modifies this`currentVersion, this`history
      ensures currentVersion == lib.version(template)
      ensures history == Tracked(old(history), Info(lib.version(template), timestamp, ok, message))
    {
      var version := lib.version(template);
      var info := Info(version, timestamp, ok, message);
      for i := 0 to |history|
        invariant history == old(history)
        invariant forall j :: 0 <= j < i ==> history[j].version != version
      {
        if history[i].version == version {
          FirstWithIs(history, version, i);
          history := history[i := info];
          currentVersion := version;
          return;
        }
      }
      FirstWithNone(history, version);
      history := history + [info];
      currentVersion := version;
      if |history| > 10 {
        history := history[|history| - 10..];
      }
    }

    method Validate(lib: Library, defaults: Fields, timestamp: string) returns (ok: bool)
      modifies this
      ensures var verdict := Judged(lib, old(template), MergedMetadata(defaults, old(metaData)));
              && ok == valid == verdict.Valid? && errorMessage == verdict.Message()
              && currentVersion == lib.version(template)
              && history == Tracked(old(history), Info(lib.version(template), timestamp, valid, errorMessage))
      ensures requiredVariables == if template == "" then old(requiredVariables) else lib.variables(template)
      ensures template == old(template) && metaData == old(metaData)
    {
      var merged := MergedMetadata(defaults, metaData);
      var verdict := Valid;
      if template == "" {
        verdict := NoTemplate;
      } else {
        requiredVariables := lib.variables(template);
        var missing := FindMissing(merged, requiredVariables);
        if |missing| > 0 {
          verdict := MissingVariables(missing);
        } else {
          var rendered := lib.render(template, merged);
          match rendered
          case Err(detail) =>
            verdict := RenderError(detail);
          case Ok(text) =>
            var wrong := lib.yamlError(text);
            if wrong.Some? {
              verdict := InvalidYAML(wrong.value);
            }
        }
      }
      valid, errorMessage := verdict.Valid?, verdict.Message();
      TrackTemplateVersion(lib, valid, errorMessage, timestamp);
      return valid;
    }
  }
}

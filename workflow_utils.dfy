/** The checks and the serialisation step of src/utils/workflowUtils.ts:
    `validateWorkflow` (lines 76-107), `parseWorkflowYaml` (lines 4-32) on a
    document the YAML library has already decoded, and the key cleaning that
    `workflowToYaml` (lines 34-51) does before it hands the object to the
    YAML library. */
module WorkflowUtils {
  import opened Common
  import opened WorkflowTypes
  import opened Template

  const ValidShells: seq<string> := ["zsh", "bash", "fish"]

  const NameRequired: string := "Name is required"
  const CommandRequired: string := "Command is required"
  const InvalidShellsLabel: string := "Invalid shells: "
  const UndefinedArgumentsLabel: string := "Undefined arguments in command: "

  // ---------------------------------------------------------------------------
  // validateWorkflow

  /** `!s?.trim()` is false: the value is defined and not blank. */
  predicate HasText(s: Option<string>) {
    s.Some? && Trim(s.value) != ""
  }

  /** `shells.filter(shell => !validShells.includes(shell))`. */
  function InvalidShells(shells: seq<string>): (r: seq<string>)
    ensures forall s :: s in r <==> s in shells && s !in ValidShells
  {
    Filter(shells, (s: string) => s !in ValidShells)
  }

  /** `names.filter(arg => !declared.includes(arg))`. */
  function Undefined(names: seq<string>, declared: seq<string>): (r: seq<string>)
    ensures forall n :: n in r <==> n in names && n !in declared
  {
    Filter(names, (n: string) => n !in declared)
  }

  /** The placeholders of the command that no argument declares. */
  function MissingArguments(w: Workflow): (r: seq<string>)
    ensures NoDups(r)
    ensures forall n :: n in r <==> n in ArgumentNames(w.command.GetOr("")) && n !in DeclaredNames(w)
  {
    var names := ArgumentNames(w.command.GetOr(""));
    FilterNoDups(names, (n: string) => n !in DeclaredNames(w));
    Undefined(names, DeclaredNames(w))
  }

  function ShellsMessage(invalid: seq<string>): string {
    InvalidShellsLabel + Join(invalid, ", ")
  }

  function UndefinedMessage(missing: seq<string>): string {
    UndefinedArgumentsLabel + Join(missing, ", ")
  }

  /** The messages `validateWorkflow` pushes, in its order. */
  function ValidationErrors(w: Workflow): seq<string> {
    NameErrors(w) + CommandErrors(w) + ShellErrors(w) + ArgumentErrors(w)
  }

  function NameErrors(w: Workflow): seq<string> {
    if HasText(w.name) then [] else [NameRequired]
  }

  function CommandErrors(w: Workflow): seq<string> {
    if HasText(w.command) then [] else [CommandRequired]
  }

  function ShellErrors(w: Workflow): seq<string> {
    if w.shells.Some? && InvalidShells(w.shells.value) != [] then [ShellsMessage(InvalidShells(w.shells.value))] else []
  }

  function ArgumentErrors(w: Workflow): seq<string> {
    if Truthy(w.command) && MissingArguments(w) != [] then [UndefinedMessage(MissingArguments(w))] else []
  }

  /** `validateWorkflow`: the checks in order, each pushing onto `errors`. */
  method ValidateWorkflow(w: Workflow) returns (errors: seq<string>)
    ensures errors == ValidationErrors(w)
  {
    errors := [];
    if !HasText(w.name) {
      errors := errors + [NameRequired];
    }
    assert errors == NameErrors(w);
    if !HasText(w.command) {
      errors := errors + [CommandRequired];
    }
    assert errors == NameErrors(w) + CommandErrors(w);
    if w.shells.Some? {
      var invalidShells := InvalidShells(w.shells.value);
      if |invalidShells| > 0 {
        errors := errors + [ShellsMessage(invalidShells)];
      }
    }
    var before := errors;
    assert before == NameErrors(w) + CommandErrors(w) + ShellErrors(w);
    if Truthy(w.command) {
      var commandArgs := ExtractArguments(w.command.value);
      var definedArgs := DeclaredNames(w);
      var undefinedArgs := Undefined(commandArgs, definedArgs);
      assert undefinedArgs == MissingArguments(w);
      if |undefinedArgs| > 0 {
        errors := errors + [UndefinedMessage(undefinedArgs)];
      } else {
        assert errors == before + [];
      }
    } else {
      assert errors == before + [];
    }
    assert errors == before + ArgumentErrors(w);
  }

  /** Which of the four checks a message comes from (4: none of them). */
  function Kind(msg: string): nat {
    if msg == NameRequired then 0
    else if msg == CommandRequired then 1
    else if InvalidShellsLabel <= msg then 2
    else if UndefinedArgumentsLabel <= msg then 3
    else 4
  }

  lemma ShellsMessageKind(invalid: seq<string>)
    ensures Kind(ShellsMessage(invalid)) == 2
  {
    var m := ShellsMessage(invalid);
    assert m[0] == 'I' && m[..|InvalidShellsLabel|] == InvalidShellsLabel;
  }

  lemma UndefinedMessageKind(missing: seq<string>)
    ensures Kind(UndefinedMessage(missing)) == 3
  {
    var m := UndefinedMessage(missing);
    assert m[0] == 'U' && m[..|UndefinedArgumentsLabel|] == UndefinedArgumentsLabel;
  }

  /** Each check contributes at most one message, of its own kind. */
  lemma PieceKinds(w: Workflow)
    ensures |NameErrors(w)| <= 1 && forall m :: m in NameErrors(w) ==> Kind(m) == 0
    ensures |CommandErrors(w)| <= 1 && forall m :: m in CommandErrors(w) ==> Kind(m) == 1
    ensures |ShellErrors(w)| <= 1 && forall m :: m in ShellErrors(w) ==> Kind(m) == 2
    ensures |ArgumentErrors(w)| <= 1 && forall m :: m in ArgumentErrors(w) ==> Kind(m) == 3
  {
    if w.shells.Some? {
      ShellsMessageKind(InvalidShells(w.shells.value));
    }
    UndefinedMessageKind(MissingArguments(w));
  }

  /** Messages strictly ordered by the check they come from. */
  predicate Ascending(r: seq<string>) {
    forall i, j :: 0 <= i < j < |r| ==> Kind(r[i]) < Kind(r[j])
  }

  lemma AscendingConcat(a: seq<string>, b: seq<string>)
    requires Ascending(a) && Ascending(b)
    requires forall x, y :: x in a && y in b ==> Kind(x) < Kind(y)
    ensures Ascending(a + b)
  {
    var r := a + b;
    forall i, j | 0 <= i < j < |r| ensures Kind(r[i]) < Kind(r[j]) {
      if j < |a| {
        assert r[i] == a[i] && r[j] == a[j];
      } else if i >= |a| {
        assert r[i] == b[i - |a|] && r[j] == b[j - |a|];
      } else {
        assert r[i] in a && r[j] in b;
      }
    }
  }

  /** The messages come from the four checks, in the fixed order name,
      command, shells, arguments, each at most once. */
  lemma ErrorsInOrder(w: Workflow)
    ensures |ValidationErrors(w)| <= 4
    ensures forall m :: m in ValidationErrors(w) ==> Kind(m) < 4
    ensures forall i, j :: 0 <= i < j < |ValidationErrors(w)| ==>
      Kind(ValidationErrors(w)[i]) < Kind(ValidationErrors(w)[j])
  {
    PieceKinds(w);
    var a, b, c, d := NameErrors(w), CommandErrors(w), ShellErrors(w), ArgumentErrors(w);
    AscendingConcat(a, b);
    AscendingConcat(a + b, c);
    AscendingConcat(a + b + c, d);
  }

  /** "Name is required" is reported exactly when the name is absent or blank. */
  lemma NameErrorIff(w: Workflow)
    ensures NameRequired in ValidationErrors(w) <==> !HasText(w.name)
  {
    if NameRequired in ValidationErrors(w) {
      assert Kind(NameRequired) == 0;
      KindZeroFromName(w, NameRequired);
    }
  }

  /** A message of the name check's kind can only come from the name check. */
  lemma KindZeroFromName(w: Workflow, m: string)
    requires m in ValidationErrors(w) && Kind(m) == 0
    ensures m in NameErrors(w)
  {
    PieceKinds(w);
    assert m in NameErrors(w) + CommandErrors(w) + ShellErrors(w) + ArgumentErrors(w);
  }

  /** "Command is required" is reported exactly when the command is absent or blank. */
  lemma CommandErrorIff(w: Workflow)
    ensures CommandRequired in ValidationErrors(w) <==> !HasText(w.command)
  {
    PieceKinds(w);
  }

  /** A shells message is reported exactly when some shell is not one of zsh,
      bash and fish, and it lists the offending shells. */
  lemma ShellErrorIff(w: Workflow)
    ensures (exists m :: m in ValidationErrors(w) && Kind(m) == 2) <==>
      w.shells.Some? && exists s :: s in w.shells.value && s !in ValidShells
    ensures w.shells.Some? && InvalidShells(w.shells.value) != [] ==>
      ShellsMessage(InvalidShells(w.shells.value)) in ValidationErrors(w)
  {
    PieceKinds(w);
    var r := ValidationErrors(w);
    if exists m :: m in r && Kind(m) == 2 {
      var m :| m in r && Kind(m) == 2;
      assert m in ShellErrors(w);
      var v := InvalidShells(w.shells.value);
      assert v[0] in v;
    }
    if w.shells.Some? && exists s :: s in w.shells.value && s !in ValidShells {
      var s :| s in w.shells.value && s !in ValidShells;
      var v := InvalidShells(w.shells.value);
      assert s in v;
      ShellsMessageKind(v);
      assert ShellsMessage(v) in ShellErrors(w);
    }
  }

  /** An undefined-arguments message is reported exactly when some placeholder
      of the command is not declared, and it lists the missing names. */
  lemma ArgumentErrorIff(w: Workflow)
    ensures (exists m :: m in ValidationErrors(w) && Kind(m) == 3) <==>
      exists n :: n in ArgumentNames(w.command.GetOr("")) && n !in DeclaredNames(w)
    ensures MissingArguments(w) != [] ==> UndefinedMessage(MissingArguments(w)) in ValidationErrors(w)
  {
    PieceKinds(w);
    var r, v := ValidationErrors(w), MissingArguments(w);
    if exists m :: m in r && Kind(m) == 3 {
      var m :| m in r && Kind(m) == 3;
      assert m in ArgumentErrors(w);
      assert v[0] in v;
    }
    if v != [] {
      CommandOfArguments(w);
      UndefinedMessageKind(v);
      assert UndefinedMessage(v) in ArgumentErrors(w);
    }
    if exists n :: n in ArgumentNames(w.command.GetOr("")) && n !in DeclaredNames(w) {
      var n :| n in ArgumentNames(w.command.GetOr("")) && n !in DeclaredNames(w);
      assert n in v;
    }
  }

  /** An empty or absent command has no placeholders. */
  lemma CommandOfArguments(w: Workflow)
    requires MissingArguments(w) != []
    ensures Truthy(w.command)
  {
  }

  /** The offending shells are listed in input order, each as often as it
      occurs in the input. */
  lemma InvalidShellsListed(a: seq<string>, b: seq<string>, s: string)
    ensures InvalidShells(a + b) == InvalidShells(a) + InvalidShells(b)
    ensures multiset(InvalidShells(a))[s] == if s in ValidShells then 0 else multiset(a)[s]
  {
    FilterAppend(a, b, (t: string) => t !in ValidShells);
    FilterCount(a, (t: string) => t !in ValidShells, s);
  }

  /** The missing names keep the order of their first occurrence in the command. */
  lemma MissingInFirstOccurrenceOrder(w: Workflow)
    ensures forall n :: n in MissingArguments(w) ==> n in Matches(w.command.GetOr(""))
    ensures forall i, j :: 0 <= i < j < |MissingArguments(w)| ==>
      FirstIndex(Matches(w.command.GetOr("")), MissingArguments(w)[i]) <
      FirstIndex(Matches(w.command.GetOr("")), MissingArguments(w)[j])
  {
    var ms := Matches(w.command.GetOr(""));
    var rank := (n: string) => if n in ms then FirstIndex(ms, n) else 0;
    DistinctFirstOccurrenceOrder(ms);
    var d := Distinct(ms);
    assert forall i, j :: 0 <= i < j < |d| ==> rank(d[i]) < rank(d[j]) by {
      forall i, j | 0 <= i < j < |d| ensures rank(d[i]) < rank(d[j]) {
        assert d[i] in ms && d[j] in ms;
      }
    }
    FilterOrdered(d, (n: string) => n !in DeclaredNames(w), rank);
    var r := MissingArguments(w);
    forall i, j | 0 <= i < j < |r| ensures FirstIndex(ms, r[i]) < FirstIndex(ms, r[j]) {
      assert r[i] in ms && r[j] in ms;
      assert rank(r[i]) < rank(r[j]);
    }
  }

  /** `validateWorkflow` returns no message exactly when the name and the
      command are not blank, every shell is one of zsh, bash and fish, and
      every placeholder of the command is a declared argument. */
  lemma ValidIff(w: Workflow)
    ensures ValidationErrors(w) == [] <==>
      HasText(w.name) && HasText(w.command)
      && (w.shells.Some? ==> forall s :: s in w.shells.value ==> s in ValidShells)
      && (forall n :: n in ArgumentNames(w.command.GetOr("")) ==> n in DeclaredNames(w))
  {
    ShellErrorsEmptyIff(w);
    ArgumentErrorsEmptyIff(w);
  }

  lemma ShellErrorsEmptyIff(w: Workflow)
    ensures ShellErrors(w) == [] <==> (w.shells.Some? ==> forall s :: s in w.shells.value ==> s in ValidShells)
  {
    if w.shells.Some? {
      var v := InvalidShells(w.shells.value);
      if v != [] {
        assert v[0] in v;
      }
      if !(forall s :: s in w.shells.value ==> s in ValidShells) {
        var s :| s in w.shells.value && s !in ValidShells;
        assert s in v;
      }
    }
  }

  lemma ArgumentErrorsEmptyIff(w: Workflow)
    ensures ArgumentErrors(w) == [] <==> forall n :: n in ArgumentNames(w.command.GetOr("")) ==> n in DeclaredNames(w)
  {
    var v := MissingArguments(w);
    if v != [] {
      CommandOfArguments(w);
      assert v[0] in v;
    }
    if !(forall n :: n in ArgumentNames(w.command.GetOr("")) ==> n in DeclaredNames(w)) {
      var n :| n in ArgumentNames(w.command.GetOr("")) && n !in DeclaredNames(w);
      assert n in v;
    }
  }

  // ---------------------------------------------------------------------------
  // parseWorkflowYaml

  /** What `yaml.load` produced: a decoded record, or the message of the
      `YAMLException` it threw. */
  datatype Loaded = Decoded(record: Workflow) | Malformed(reason: string)

  const ParseNameRequired: string := "Workflow name is required"
  const ParseCommandRequired: string := "Workflow command is required"
  const ValidShellsNote: string := ". Valid shells are: "

  /** `parseWorkflowYaml` after decoding: the first failing check throws;
      otherwise the record is returned as decoded. */
  function ParseWorkflowYaml(loaded: Loaded): (r: Result<Workflow>)
    ensures r.Ok? ==> loaded.Decoded? && r.value == loaded.record
  {
    match loaded
    case Malformed(reason) => Err("Invalid YAML: " + reason)
    case Decoded(w) =>
      if !Truthy(w.name) then Err(ParseNameRequired)
      else if !Truthy(w.command) then Err(ParseCommandRequired)
      else if w.shells.Some? && InvalidShells(w.shells.value) != [] then
        Err(ShellsMessage(InvalidShells(w.shells.value)) + ValidShellsNote + Join(ValidShells, ", "))
      else Ok(w)
  }

  /** A decoded record is accepted exactly when its name and command are
      non-empty and its shells are all valid; the parse of a malformed text
      always fails with the library's reason. */
  lemma ParseAcceptsIff(loaded: Loaded)
    ensures ParseWorkflowYaml(loaded).Ok? <==>
      loaded.Decoded? && Truthy(loaded.record.name) && Truthy(loaded.record.command)
      && (loaded.record.shells.Some? ==> forall s :: s in loaded.record.shells.value ==> s in ValidShells)
    ensures loaded.Malformed? ==> ParseWorkflowYaml(loaded) == Err("Invalid YAML: " + loaded.reason)
  {
    if loaded.Decoded? {
      var w := loaded.record;
      if w.shells.Some? && !(forall s :: s in w.shells.value ==> s in ValidShells) {
        var s :| s in w.shells.value && s !in ValidShells;
        assert s in InvalidShells(w.shells.value);
      }
      if w.shells.Some? && InvalidShells(w.shells.value) != [] {
        assert InvalidShells(w.shells.value)[0] in InvalidShells(w.shells.value);
      }
    }
  }

  /** The checks run name, command, shells: the first failure decides the message. */
  lemma ParseFirstFailureWins(w: Workflow)
    ensures !Truthy(w.name) ==> ParseWorkflowYaml(Decoded(w)) == Err(ParseNameRequired)
    ensures Truthy(w.name) && !Truthy(w.command) ==> ParseWorkflowYaml(Decoded(w)) == Err(ParseCommandRequired)
    ensures Truthy(w.name) && Truthy(w.command) && w.shells.Some? && InvalidShells(w.shells.value) != [] ==>
      ParseWorkflowYaml(Decoded(w)) == Err(ShellsMessage(InvalidShells(w.shells.value)) + ". Valid shells are: zsh, bash, fish")
  {
    assert Join(ValidShells, ", ") == "zsh, bash, fish";
  }

  lemma TrimmedNonEmpty(s: Option<string>)
    requires HasText(s)
    ensures Truthy(s)
  {
  }

  /** What the editor accepts, the parser accepts too, unchanged. */
  lemma ValidImpliesParses(w: Workflow)
    requires ValidationErrors(w) == []
    ensures ParseWorkflowYaml(Decoded(w)) == Ok(w)
  {
    ValidIff(w);
    TrimmedNonEmpty(w.name);
    TrimmedNonEmpty(w.command);
    ParseAcceptsIff(Decoded(w));
  }

  /** The converse fails: the parser does not trim, so a blank name passes
      it and is then reported by the validator. */
  lemma BlankNameParsesButFailsValidation()
    ensures var w := Workflow(Some(" "), Some("ls"), None, None, None, None, None, None, None);
      ParseWorkflowYaml(Decoded(w)) == Ok(w) && NameRequired in ValidationErrors(w)
  {
    var w := Workflow(Some(" "), Some("ls"), None, None, None, None, None, None, None);
    assert Trim(" ") == "";
    NameErrorIff(w);
  }

  /** For the same offending shells, the parser's message is the validator's
      with the list of valid shells appended, so the two never coincide. */
  lemma ShellMessagesDiffer(w: Workflow)
    requires Truthy(w.name) && Truthy(w.command)
    requires w.shells.Some? && InvalidShells(w.shells.value) != []
    ensures ParseWorkflowYaml(Decoded(w)).Err?
    ensures ParseWorkflowYaml(Decoded(w)).message ==
      ShellsMessage(InvalidShells(w.shells.value)) + ". Valid shells are: zsh, bash, fish"
    ensures ShellsMessage(InvalidShells(w.shells.value)) in ValidationErrors(w)
    ensures ParseWorkflowYaml(Decoded(w)).message !in ValidationErrors(w)
  {
    ParseFirstFailureWins(w);
    ShellErrorIff(w);
    PieceKinds(w);
    var x := ShellsMessage(InvalidShells(w.shells.value));
    var m := ParseWorkflowYaml(Decoded(w)).message;
    assert Kind(m) == 2 by {
      assert m[..|InvalidShellsLabel|] == x[..|InvalidShellsLabel|] == InvalidShellsLabel;
      assert m[0] == 'I';
    }
    assert |m| > |x|;
  }

  // ---------------------------------------------------------------------------
  // workflowToYaml: the cleaned object

  /** The value of one key of a workflow object. */
  datatype Value = Text(text: string) | Strings(items: seq<string>) | Arguments(args: seq<WorkflowArgument>)

  /** A decoded object: its keys in order, with their values. */
  type Document = seq<(string, Value)>

  /** The keys of a workflow object and their values (`None`: undefined or
      null), in the order the type declares them. */
  function Fields(w: Workflow): (r: seq<(string, Option<Value>)>)
    ensures |r| == 9
  {
    [("name", OptText(w.name)), ("command", OptText(w.command)), ("tags", OptStrings(w.tags)),
     ("description", OptText(w.description)), ("source_url", OptText(w.sourceUrl)),
     ("author", OptText(w.author)), ("author_url", OptText(w.authorUrl)),
     ("shells", OptStrings(w.shells)), ("arguments", OptArguments(w.arguments))]
  }

  function OptText(o: Option<string>): Option<Value> {
    if o.Some? then Some(Text(o.value)) else None
  }

  function OptStrings(o: Option<seq<string>>): Option<Value> {
    if o.Some? then Some(Strings(o.value)) else None
  }

  function OptArguments(o: Option<seq<WorkflowArgument>>): Option<Value> {
    if o.Some? then Some(Arguments(o.value)) else None
  }

  /** The values the cleaning deletes: undefined, null, or an empty array. */
  predicate Omitted(v: Option<Value>) {
    v.None? || (v.value.Strings? && v.value.items == []) || (v.value.Arguments? && v.value.args == [])
  }

  /** The entries that survive the cleaning, in their order. */
  function Cleaned(entries: seq<(string, Option<Value>)>): (doc: Document)
    ensures |doc| <= |entries|
  {
    if entries == [] then []
    else
      var last := entries[|entries| - 1];
      Cleaned(entries[..|entries| - 1]) + (if Omitted(last.1) then [] else [(last.0, last.1.value)])
  }

  /** `workflowToYaml` up to the dump: copy the object, then go over its keys
      and delete those whose value is omitted. */
  method WorkflowToYaml(w: Workflow) returns (doc: Document)
    ensures doc == Cleaned(Fields(w))
  {
    var entries := Fields(w);
    doc := [];
    for i := 0 to |entries|
      invariant doc == Cleaned(entries[..i])
    {
      var (key, value) := entries[i];
      assert entries[..i + 1][..i] == entries[..i];
      if !Omitted(value) {
        doc := doc + [(key, value.value)];
      }
    }
    assert entries[..|entries|] == entries;
  }

  /** Cleaning works entry by entry, so it never reorders what it keeps. */
  lemma {:induction false} CleanedAppend(a: seq<(string, Option<Value>)>, b: seq<(string, Option<Value>)>)
    ensures Cleaned(a + b) == Cleaned(a) + Cleaned(b)
    decreases |b|
  {
    if b == [] {
      assert a + b == a;
    } else {
      var b' := b[..|b| - 1];
      assert (a + b)[..|a + b| - 1] == a + b';
      assert (a + b)[|a + b| - 1] == b[|b| - 1];
      CleanedAppend(a, b');
    }
  }

  /** The cleaned object keeps exactly the entries whose value is not omitted;
      an empty string is kept. */
  lemma {:induction false} CleanedKeepsExactly(entries: seq<(string, Option<Value>)>)
    ensures forall k, v :: (k, v) in Cleaned(entries) <==> (k, Some(v)) in entries && !Omitted(Some(v))
    decreases |entries|
  {
    if entries != [] {
      var init := entries[..|entries| - 1];
      assert entries == init + [entries[|entries| - 1]];
      CleanedKeepsExactly(init);
    }
  }

  /** The value of key `k` in a document (the last entry for it wins). */
  function Lookup(doc: Document, k: string): Option<Value> {
    if doc == [] then None
    else if doc[|doc| - 1].0 == k then Some(doc[|doc| - 1].1)
    else Lookup(doc[..|doc| - 1], k)
  }

  /** The value of key `k` among the entries, read as the cleaned object does. */
  function FieldLookup(entries: seq<(string, Option<Value>)>, k: string): Option<Value> {
    if entries == [] then None
    else if entries[|entries| - 1].0 == k then
      (if Omitted(entries[|entries| - 1].1) then FieldLookup(entries[..|entries| - 1], k) else entries[|entries| - 1].1)
    else FieldLookup(entries[..|entries| - 1], k)
  }

  lemma {:induction false} LookupCleaned(entries: seq<(string, Option<Value>)>, k: string)
    ensures Lookup(Cleaned(entries), k) == FieldLookup(entries, k)
    decreases |entries|
  {
    if entries != [] {
      var init, last := entries[..|entries| - 1], entries[|entries| - 1];
      LookupCleaned(init, k);
      if !Omitted(last.1) {
        var doc := Cleaned(init) + [(last.0, last.1.value)];
        assert doc[..|doc| - 1] == Cleaned(init);
        assert Cleaned(entries) == doc;
        assert last.1 == Some(last.1.value);
      } else {
        assert Cleaned(entries) == Cleaned(init);
      }
    }
  }

  /** The record a document decodes to. */
  function FromDocument(doc: Document): Workflow {
    Workflow(
      TextOf(Lookup(doc, "name")), TextOf(Lookup(doc, "command")), StringsOf(Lookup(doc, "tags")),
      TextOf(Lookup(doc, "description")), TextOf(Lookup(doc, "source_url")),
      TextOf(Lookup(doc, "author")), TextOf(Lookup(doc, "author_url")),
      StringsOf(Lookup(doc, "shells")), ArgumentsOf(Lookup(doc, "arguments")))
  }

  function TextOf(v: Option<Value>): Option<string> {
    if v.Some? && v.value.Text? then Some(v.value.text) else None
  }

  function StringsOf(v: Option<Value>): Option<seq<string>> {
    if v.Some? && v.value.Strings? then Some(v.value.items) else None
  }

  function ArgumentsOf(v: Option<Value>): Option<seq<WorkflowArgument>> {
    if v.Some? && v.value.Arguments? then Some(v.value.args) else None
  }

  /** An absent list for an empty one. */
  function NonEmpty<T>(o: Option<seq<T>>): Option<seq<T>> {
    if o.Some? && o.value == [] then None else o
  }

  /** The workflow with its empty lists dropped: what the cleaned object means. */
  function Normalized(w: Workflow): Workflow {
    w.(tags := NonEmpty(w.tags), shells := NonEmpty(w.shells), arguments := NonEmpty(w.arguments))
  }

  /** Reading the cleaned object back gives the workflow without its empty
      lists, and cleaning that again gives the same object. */
  lemma CleanRoundTrip(w: Workflow)
    ensures FromDocument(Cleaned(Fields(w))) == Normalized(w)
    ensures Cleaned(Fields(Normalized(w))) == Cleaned(Fields(w))
  {
    var doc := Cleaned(Fields(w));
    var n := Normalized(w);
    ReadBack(w, 0);
    assert TextOf(Lookup(doc, "name")) == n.name;
    ReadBack(w, 1);
    assert TextOf(Lookup(doc, "command")) == n.command;
    ReadBack(w, 2);
    assert StringsOf(Lookup(doc, "tags")) == n.tags;
    ReadBack(w, 3);
    assert TextOf(Lookup(doc, "description")) == n.description;
    ReadBack(w, 4);
    assert TextOf(Lookup(doc, "source_url")) == n.sourceUrl;
    ReadBack(w, 5);
    assert TextOf(Lookup(doc, "author")) == n.author;
    ReadBack(w, 6);
    assert TextOf(Lookup(doc, "author_url")) == n.authorUrl;
    ReadBack(w, 7);
    assert StringsOf(Lookup(doc, "shells")) == n.shells;
    ReadBack(w, 8);
    assert ArgumentsOf(Lookup(doc, "arguments")) == n.arguments;
    CleanedNormalized(w);
  }

  /** Key `i` of the cleaned object reads back as the workflow's field `i`,
      unless that was omitted. */
  lemma ReadBack(w: Workflow, i: nat)
    requires i < 9
    ensures Lookup(Cleaned(Fields(w)), Keys[i]) == if Omitted(Fields(w)[i].1) then None else Fields(w)[i].1
  {
    FieldKeys(w);
    LookupCleaned(Fields(w), Keys[i]);
    FieldLookupAt(Fields(w), i, Keys[i]);
  }

  /** The keys of the workflow object, in declaration order. */
  const Keys: seq<string> :=
    ["name", "command", "tags", "description", "source_url", "author", "author_url", "shells", "arguments"]

  lemma FieldKeys(w: Workflow)
    ensures forall i :: 0 <= i < 9 ==> Fields(w)[i].0 == Keys[i]
    ensures forall i, j :: 0 <= i < 9 && 0 <= j < 9 && i != j ==> Keys[i] != Keys[j]
  {
  }

  /** With a key that occurs once, at index `i`, the lookup reads that entry. */
  lemma {:induction false} FieldLookupAt(entries: seq<(string, Option<Value>)>, i: nat, k: string)
    requires i < |entries| && entries[i].0 == k
    requires forall j :: 0 <= j < |entries| && j != i ==> entries[j].0 != k
    ensures FieldLookup(entries, k) == if Omitted(entries[i].1) then None else entries[i].1
    decreases |entries|
  {
    var n := |entries| - 1;
    var init := entries[..n];
    if i < n {
      assert entries[n].0 != k;
      FieldLookupAt(init, i, k);
    } else {
      FieldLookupAbsent(init, k);
    }
  }

  lemma {:induction false} FieldLookupAbsent(entries: seq<(string, Option<Value>)>, k: string)
    requires forall j :: 0 <= j < |entries| ==> entries[j].0 != k
    ensures FieldLookup(entries, k) == None
    decreases |entries|
  {
    if entries != [] {
      FieldLookupAbsent(entries[..|entries| - 1], k);
    }
  }

  lemma CleanedNormalized(w: Workflow)
    ensures Cleaned(Fields(Normalized(w))) == Cleaned(Fields(w))
  {
    var a, b := Fields(w), Fields(Normalized(w));
    forall i | 0 <= i <= |a|
      ensures Cleaned(a[..i]) == Cleaned(b[..i])
    {
      CleanedPrefixes(w, i);
    }
    assert a[..|a|] == a && b[..|b|] == b;
  }

  lemma {:induction false} CleanedPrefixes(w: Workflow, i: nat)
    requires i <= 9
    ensures Cleaned(Fields(w)[..i]) == Cleaned(Fields(Normalized(w))[..i])
  {
    if i > 0 {
      CleanedPrefixes(w, i - 1);
      EntryNormalized(w, i - 1);
      CleanedStep(Fields(w), Fields(Normalized(w)), i);
    }
  }

  /** Entry `j` of a workflow and of its normalized form: the same key, omitted
      alike, and the same value when kept. */
  lemma EntryNormalized(w: Workflow, j: nat)
    requires j < 9
    ensures Fields(w)[j].0 == Fields(Normalized(w))[j].0
    ensures Omitted(Fields(w)[j].1) <==> Omitted(Fields(Normalized(w))[j].1)
    ensures !Omitted(Fields(w)[j].1) ==> Fields(w)[j].1 == Fields(Normalized(w))[j].1
  {
  }

  /** Two entry lists that clean alike up to `i - 1`, and whose entries at
      `i - 1` clean alike, clean alike up to `i`. */
  lemma CleanedStep(a: seq<(string, Option<Value>)>, b: seq<(string, Option<Value>)>, i: nat)
    requires 0 < i <= |a| && i <= |b|
    requires Cleaned(a[..i - 1]) == Cleaned(b[..i - 1])
    requires a[i - 1].0 == b[i - 1].0
    requires Omitted(a[i - 1].1) <==> Omitted(b[i - 1].1)
    requires !Omitted(a[i - 1].1) ==> a[i - 1].1 == b[i - 1].1
    ensures Cleaned(a[..i]) == Cleaned(b[..i])
  {
    assert a[..i][..i - 1] == a[..i - 1] && b[..i][..i - 1] == b[..i - 1];
    assert a[..i][i - 1] == a[i - 1] && b[..i][i - 1] == b[i - 1];
  }

  /** Dropping empty lists changes nothing the validator reports. */
  lemma NormalizedValidation(w: Workflow)
    ensures ValidationErrors(Normalized(w)) == ValidationErrors(w)
  {
    var n := Normalized(w);
    if w.shells == Some([]) {
      assert InvalidShells([]) == [];
    }
    assert DeclaredNames(n) == DeclaredNames(w);
    assert MissingArguments(n) == MissingArguments(w);
  }

  // ---------------------------------------------------------------------------
  // mockWorkflows

  /** Midnight UTC of 2024-01-01, 2024-01-02 and 2024-01-03, in milliseconds. */
  const Jan1: int := 1704067200000
  const Jan2: int := 1704153600000
  const Jan3: int := 1704240000000

  const GitCommand: string :=
    "git status && git add " + Token("files") + " && git commit -m \"" + Token("message") + "\" && git push"
  const DockerCommand: string :=
    "docker stop " + Token("container") + " && docker rm " + Token("container") + " && docker rmi " + Token("image")
  /** The third sample command: seven pieces of text with the placeholder
      `{{component_name}}` between each two. */
  const ComponentCommand: string := Join(ComponentPieces, Token("component_name"))

  const ComponentPieces: seq<string> := [
    "mkdir -p src/components/",
    " && echo \"import React from 'react';\n\nconst ",
    " = () => {\n  return (\n    <div>\n      <h1>",
    "</h1>\n    </div>\n  );\n};\n\nexport default ",
    ";\" > src/components/",
    "/",
    ".tsx"]

  function Described(name: string, description: string): WorkflowArgument {
    WorkflowArgument(name, Some(description), None)
  }

  const GitMock: ParsedWorkflow := ParsedWorkflow("1", Workflow(
    Some("Git Status and Push"), Some(GitCommand), Some(["git", "version-control"]),
    Some("Check git status, stage files, commit with message, and push to remote"), None, None, None,
    Some(["bash", "zsh"]),
    Some([WorkflowArgument("files", Some("Files to stage (use . for all files)"), Some(".")),
          Described("message", "Commit message")])),
    Jan1, Jan1)

  const DockerMock: ParsedWorkflow := ParsedWorkflow("2", Workflow(
    Some("Docker Container Cleanup"), Some(DockerCommand), Some(["docker", "cleanup"]),
    Some("Stop, remove container, and remove image"), None, None, None,
    Some(["bash", "zsh", "fish"]),
    Some([Described("container", "Container name or ID"), Described("image", "Image name or ID")])),
    Jan2, Jan2)

  const ComponentMock: ParsedWorkflow := ParsedWorkflow("3", Workflow(
    Some("Create React Component"), Some(ComponentCommand), Some(["react", "typescript", "component"]),
    Some("Create a new React component with TypeScript"), None, None, None,
    Some(["bash", "zsh"]),
    Some([Described("component_name", "Name of the React component")])),
    Jan3, Jan3)

  /** The three sample workflows the page starts with. */
  const MockWorkflows: seq<ParsedWorkflow> := [GitMock, DockerMock, ComponentMock]

  lemma NoBraceSafe(p: string)
    requires '{' !in p
    ensures BraceSafe(p)
  {
  }

  lemma GitCommandScan()
    ensures Matches(GitCommand) == ["files", "message"]
  {
    GitCommandPieces("git status && git add ", " && git commit -m \"", "\" && git push");
  }

  lemma GitCommandPieces(a: string, b: string, c: string)
    requires a == "git status && git add " && b == " && git commit -m \"" && c == "\" && git push"
    ensures Matches(a + Token("files") + b + Token("message") + c) == ["files", "message"]
  {
    MatchesTwoTokens(a, "files", b, "message", c);
  }

  lemma DockerCommandScan()
    ensures Matches(DockerCommand) == ["container", "container", "image"]
  {
    DockerCommandPieces("docker stop ", " && docker rm ", " && docker rmi ");
  }

  lemma DockerCommandPieces(a: string, b: string, c: string)
    requires a == "docker stop " && b == " && docker rm " && c == " && docker rmi "
    ensures Matches(a + Token("container") + b + Token("container") + c + Token("image")) == ["container", "container", "image"]
  {
    MatchesThreeTokens(a, "container", b, "container", c, "image");
  }

  /** Three tokens separated by brace-free text are matched in order. */
  lemma MatchesThreeTokens(a: string, x: string, b: string, y: string, c: string, z: string)
    requires IsArgumentName(x) && IsArgumentName(y) && IsArgumentName(z)
    requires '{' !in a && '{' !in b && '{' !in c
    ensures Matches(a + Token(x) + b + Token(y) + c + Token(z)) == [x, y, z]
  {
    var s4 := Token(z);
    MatchesToken(z, []);
    assert s4 + [] == s4;
    var s3 := c + s4;
    MatchesSkipPlain(c, s4);
    var s2 := Token(y) + s3;
    MatchesToken(y, s3);
    var s1 := b + s2;
    MatchesSkipPlain(b, s2);
    var s0 := Token(x) + s1;
    MatchesToken(x, s1);
    MatchesSkipPlain(a, s0);
    Assoc6(a, Token(x), b, Token(y), c, s4);
  }

  lemma ComponentCommandScan()
    ensures Matches(ComponentCommand) == seq(6, _ => "component_name")
  {
    ComponentPiecesSafe(ComponentPieces);
    MatchesJoin(ComponentPieces, "component_name");
  }

  lemma ComponentPiecesSafe(ps: seq<string>)
    requires ps == ComponentPieces
    ensures forall i :: 0 <= i < |ps| ==> BraceSafe(ps[i])
  {
    assert |ps| == 7;
    NoBraceSafe(ps[0]);
    SecondPieceSafe(ps[1]);
    ThirdPieceSafe(ps[2]);
    FourthPieceSafe(ps[3]);
    NoBraceSafe(ps[4]);
    NoBraceSafe(ps[5]);
    NoBraceSafe(ps[6]);
  }

  lemma SecondPieceSafe(p: string)
    requires p == " && echo \"import React from 'react';\n\nconst "
    ensures BraceSafe(p)
  {
    NoBraceSafe(p);
  }

  /** The one lone `{` of the sample, at index 9 of its piece. */
  lemma ThirdPieceSafe(p: string)
    requires p == " = () => {\n  return (\n    <div>\n      <h1>"
    ensures BraceSafe(p)
  {
    forall i | 0 <= i < |p| && p[i] == '{' ensures i + 1 < |p| && p[i + 1] != '{' {
      assert i == 9;
    }
  }

  lemma FourthPieceSafe(p: string)
    requires p == "</h1>\n    </div>\n  );\n};\n\nexport default "
    ensures BraceSafe(p)
  {
    NoBraceSafe(p);
  }

  /** Every sample workflow passes `validateWorkflow`. */
  lemma MockWorkflowsValid(i: nat)
    requires i < |MockWorkflows|
    ensures ValidationErrors(MockWorkflows[i].data) == []
  {
    assert MockWorkflows[i] == [GitMock, DockerMock, ComponentMock][i];
    if i == 0 {
      GitMockValid();
    } else if i == 1 {
      DockerMockValid();
    } else {
      ComponentMockValid();
    }
  }

  lemma AllClear(w: Workflow)
    requires NameErrors(w) == [] && CommandErrors(w) == [] && ShellErrors(w) == [] && ArgumentErrors(w) == []
    ensures ValidationErrors(w) == []
  {
  }

  lemma GitMockValid()
    ensures ValidationErrors(GitMock.data) == []
  {
    GitMockHeader(GitMock.data);
    GitMockArguments(GitMock.data);
    AllClear(GitMock.data);
  }

  lemma GitMockHeader(w: Workflow)
    requires w == GitMock.data
    ensures NameErrors(w) == [] && CommandErrors(w) == [] && ShellErrors(w) == []
  {
    NotBlank(w.name.value);
    assert w.command.value[0] == 'g';
    NotBlank(w.command.value);
    ShellErrorsEmptyIff(w);
  }

  lemma GitMockArguments(w: Workflow)
    requires w == GitMock.data
    ensures ArgumentErrors(w) == []
  {
    GitCommandScan();
    assert DeclaredNames(w) == ["files", "message"];
    ArgumentErrorsEmptyIff(w);
  }

  lemma DockerMockValid()
    ensures ValidationErrors(DockerMock.data) == []
  {
    DockerMockHeader(DockerMock.data);
    DockerMockArguments(DockerMock.data);
    AllClear(DockerMock.data);
  }

  lemma DockerMockHeader(w: Workflow)
    requires w == DockerMock.data
    ensures NameErrors(w) == [] && CommandErrors(w) == [] && ShellErrors(w) == []
  {
    NotBlank(w.name.value);
    assert w.command.value[0] == 'd';
    NotBlank(w.command.value);
    ShellErrorsEmptyIff(w);
  }

  lemma DockerMockArguments(w: Workflow)
    requires w == DockerMock.data
    ensures ArgumentErrors(w) == []
  {
    DockerCommandScan();
    assert DeclaredNames(w) == ["container", "image"];
    ArgumentErrorsEmptyIff(w);
  }

  lemma ComponentMockValid()
    ensures ValidationErrors(ComponentMock.data) == []
  {
    ComponentMockHeader(ComponentMock.data);
    ComponentMockArguments(ComponentMock.data);
    AllClear(ComponentMock.data);
  }

  lemma ComponentMockHeader(w: Workflow)
    requires w == ComponentMock.data
    ensures NameErrors(w) == [] && CommandErrors(w) == [] && ShellErrors(w) == []
  {
    NotBlank(w.name.value);
    assert w.command.value[0] == 'm';
    NotBlank(w.command.value);
    ShellErrorsEmptyIff(w);
  }

  lemma ComponentMockArguments(w: Workflow)
    requires w == ComponentMock.data
    ensures ArgumentErrors(w) == []
  {
    ComponentCommandScan();
    assert DeclaredNames(w) == ["component_name"];
    ArgumentErrorsEmptyIff(w);
  }

  /** Text that starts with a non-space character is not blank. */
  lemma NotBlank(s: string)
    requires |s| > 0 && !IsSpace(s[0])
    ensures Trim(s) != ""
  {
    TrimEmptyIff(s);
  }
}

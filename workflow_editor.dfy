/** The form state of src/components/workflows/WorkflowEditor.tsx and the
    handlers that update it. The validation effect, which React runs after
    every change of `formData`, is modelled as an explicit call of
    `ValidateWorkflow` at the end of each handler that changes `formData`. */
module WorkflowEditor {
  import opened Common
  import opened WorkflowTypes
  import opened WorkflowUtils

  /** The text of the YAML tab: either what the user typed, or
      `workflowToYaml(source)`, the emitted form of the document
      `Cleaned(Fields(source))`. */
  datatype YamlText = Typed(text: string) | Dumped(source: Workflow)

  /** The form of a new workflow: every text empty, every list empty. */
  const BlankForm: Workflow :=
    Workflow(Some(""), Some(""), Some([]), Some(""), Some(""), Some(""), Some(""), Some([]), Some([]))

  /** The argument `addArgument` appends: no name, an empty description and
      no default. */
  const NewArgument: WorkflowArgument := WorkflowArgument("", Some(""), None)

  /** `handleFormChange(field, value)`: the field and its new value. */
  datatype FormChange =
    | SetName(name: string)
    | SetCommand(command: string)
    | SetTags(tags: seq<string>)
    | SetDescription(description: string)
    | SetSourceUrl(sourceUrl: string)
    | SetAuthor(author: string)
    | SetAuthorUrl(authorUrl: string)
    | SetShells(shells: seq<string>)
    | SetArguments(arguments: seq<WorkflowArgument>)

  /** `{ ...formData, [field]: value }`. */
  function Applied(w: Workflow, c: FormChange): Workflow {
    match c
    case SetName(v) => w.(name := Some(v))
    case SetCommand(v) => w.(command := Some(v))
    case SetTags(v) => w.(tags := Some(v))
    case SetDescription(v) => w.(description := Some(v))
    case SetSourceUrl(v) => w.(sourceUrl := Some(v))
    case SetAuthor(v) => w.(author := Some(v))
    case SetAuthorUrl(v) => w.(authorUrl := Some(v))
    case SetShells(v) => w.(shells := Some(v))
    case SetArguments(v) => w.(arguments := Some(v))
  }

  /** The position of the changed key among `Keys`. */
  function Slot(c: FormChange): (i: nat)
    ensures i < 9
  {
    match c
    case SetName(_) => 0
    case SetCommand(_) => 1
    case SetTags(_) => 2
    case SetDescription(_) => 3
    case SetSourceUrl(_) => 4
    case SetAuthor(_) => 5
    case SetAuthorUrl(_) => 6
    case SetShells(_) => 7
    case SetArguments(_) => 8
  }

  function NewValue(c: FormChange): Value {
    match c
    case SetName(v) => Text(v)
    case SetCommand(v) => Text(v)
    case SetTags(v) => Strings(v)
    case SetDescription(v) => Text(v)
    case SetSourceUrl(v) => Text(v)
    case SetAuthor(v) => Text(v)
    case SetAuthorUrl(v) => Text(v)
    case SetShells(v) => Strings(v)
    case SetArguments(v) => Arguments(v)
  }

  /** A form change sets its own key, and only that key, to the new value. */
  lemma ChangeTouchesOneKey(w: Workflow, c: FormChange)
    ensures Fields(Applied(w, c))[Slot(c)] == (Keys[Slot(c)], Some(NewValue(c)))
    ensures forall i :: 0 <= i < 9 && i != Slot(c) ==> Fields(Applied(w, c))[i] == Fields(w)[i]
  {
    FieldKeys(Applied(w, c));
  }

  /** The three editable fields of an argument row. */
  datatype ArgumentField = ArgName | ArgDescription | ArgDefault

  /** `{ ...arg, [field]: value }`. */
  function WithField(a: WorkflowArgument, field: ArgumentField, value: string): WorkflowArgument {
    match field
    case ArgName => a.(name := value)
    case ArgDescription => a.(description := Some(value))
    case ArgDefault => a.(defaultValue := Some(value))
  }

  /** `xs.filter((_, i) => i !== index)`. */
  function DropIndex<T>(xs: seq<T>, index: int): (r: seq<T>)
    ensures 0 <= index < |xs| ==> r == xs[..index] + xs[index + 1..]
    ensures !(0 <= index < |xs|) ==> r == xs
    decreases |xs|
  {
    if xs == [] then []
    else
      var tail := xs[1..];
      var rest := DropIndex(tail, index - 1);
      if index == 0 then
        assert xs[index + 1..] == tail;
        rest
      else if 0 < index < |xs| then
        assert rest == tail[..index - 1] + tail[index..];
        assert xs[..index] == [xs[0]] + tail[..index - 1];
        assert xs[index + 1..] == tail[index..];
        [xs[0]] + rest
      else
        assert rest == tail;
        assert xs == [xs[0]] + tail;
        [xs[0]] + rest
  }

  /** Removing an argument shifts the later ones down by one and keeps the
      earlier ones in place. */
  lemma DropIndexShifts<T>(xs: seq<T>, index: nat)
    requires index < |xs|
    ensures |DropIndex(xs, index)| == |xs| - 1
    ensures forall i :: 0 <= i < index ==> DropIndex(xs, index)[i] == xs[i]
    ensures forall i :: index <= i < |xs| - 1 ==> DropIndex(xs, index)[i] == xs[i + 1]
  {
  }

  /** A trimmed tag that is new keeps the tag list free of duplicates. */
  lemma AppendNewKeepsNoDups(tags: seq<string>, tag: string)
    requires NoDups(tags) && tag !in tags
    ensures NoDups(tags + [tag])
  {
    var r := tags + [tag];
    forall i, j | 0 <= i < j < |r| ensures r[i] != r[j] {
      if j == |tags| {
        assert r[i] == tags[i] && r[i] in tags;
      } else {
        assert r[i] == tags[i] && r[j] == tags[j];
      }
    }
  }

  class Editor {
    var formData: Workflow
    var yamlContent: YamlText
    var newTag: string
    var errors: seq<string>

    /** The errors shown are those of the form: the validation effect has run. */
    predicate InSync()
      reads this
    {
      errors == ValidationErrors(formData)
    }

    /** Mounting the editor, optionally on an existing workflow: the form
        shows it and the YAML tab its serialization, and the validation
        effect has run on what the form holds. */
    constructor (workflow: Option<Workflow>)
      ensures formData == workflow.GetOr(BlankForm)
      ensures yamlContent == if workflow.Some? then Dumped(workflow.value) else Typed("")
      ensures newTag == ""
      ensures InSync()
    {
      match workflow {
        case Some(w) =>
          formData := w;
          yamlContent := Dumped(w);
        case None =>
          formData := BlankForm;
          yamlContent := Typed("");
      }
      newTag := "";
      new;
      errors := ValidateWorkflow(formData);
    }

    /** Sets one field, re-serializes the form and re-validates it. */
    method HandleFormChange(c: FormChange)
      modifies this
      ensures formData == Applied(old(formData), c)
      ensures yamlContent == Dumped(formData)
      ensures InSync()
      ensures newTag == old(newTag)
    {
      formData := Applied(formData, c);
      yamlContent := Dumped(formData);
      errors := ValidateWorkflow(formData);
    }

    /** An edit of the YAML text. `loaded` is what the YAML library makes of
        `value`. A record that parses replaces the form, and the effect then
        validates it; otherwise the parse error is the only error and the
        form stays as it was. */
    method HandleYamlChange(value: string, loaded: Loaded)
      modifies this
      ensures yamlContent == Typed(value)
      ensures newTag == old(newTag)
      ensures match ParseWorkflowYaml(loaded)
        case Ok(w) => formData == w && InSync()
        case Err(m) => formData == old(formData) && errors == [m]
    {
      yamlContent := Typed(value);
      var parsed := ParseWorkflowYaml(loaded);
      match parsed
      case Ok(w) =>
        formData := w;
        errors := [];
        errors := ValidateWorkflow(formData);
      case Err(m) =>
        errors := [m];
    }

    /** The tag input's change handler. */
    method SetNewTag(text: string)
      modifies this
      ensures newTag == text
      ensures formData == old(formData) && yamlContent == old(yamlContent) && errors == old(errors)
    {
      newTag := text;
    }

    /** Adds the trimmed input as a tag when it is non-empty and not yet a
        tag, and then clears the input; otherwise nothing changes. */
    method AddTag()
      modifies this
      ensures var tag := Trim(old(newTag));
              var tags := old(formData).tags.GetOr([]);
              if tag != "" && tag !in tags then
                formData == Applied(old(formData), SetTags(tags + [tag])) && newTag == "" &&
                yamlContent == Dumped(formData) && InSync()
              else
                formData == old(formData) && newTag == old(newTag) &&
                yamlContent == old(yamlContent) && errors == old(errors)
      ensures NoDups(old(formData).tags.GetOr([])) ==> NoDups(formData.tags.GetOr([]))
    {
      var tag := Trim(newTag);
      var tags := formData.tags.GetOr([]);
      if tag != "" && tag !in tags {
        var grown := tags + [tag];
        if NoDups(tags) {
          AppendNewKeepsNoDups(tags, tag);
        }
        HandleFormChange(SetTags(grown));
        assert formData.tags == Some(grown);
        newTag := "";
      }
    }

    /** Removes every occurrence of the tag; a missing tag list becomes empty. */
    method RemoveTag(tag: string)
      modifies this
      ensures formData == Applied(old(formData), SetTags(RemoveAll(old(formData).tags.GetOr([]), tag)))
      ensures yamlContent == Dumped(formData) && InSync()
      ensures newTag == old(newTag)
    {
      HandleFormChange(SetTags(RemoveAll(formData.tags.GetOr([]), tag)));
    }

    /** Appends a blank argument row. */
    method AddArgument()
      modifies this
      ensures formData == Applied(old(formData), SetArguments(old(formData).arguments.GetOr([]) + [NewArgument]))
      ensures |formData.arguments.GetOr([])| == |old(formData).arguments.GetOr([])| + 1
      ensures yamlContent == Dumped(formData) && InSync()
      ensures newTag == old(newTag)
    {
      var args := formData.arguments.GetOr([]);
      var grown := args + [NewArgument];
      HandleFormChange(SetArguments(grown));
      assert formData.arguments == Some(grown);
    }

    /** Sets one field of the argument at `index`; the other arguments and
        the list's length stay. */
    method UpdateArgument(index: nat, field: ArgumentField, value: string)
      requires index < |formData.arguments.GetOr([])|
      modifies this
      ensures var args := old(formData).arguments.GetOr([]);
              formData == Applied(old(formData), SetArguments(args[index := WithField(args[index], field, value)]))
      ensures |formData.arguments.GetOr([])| == |old(formData).arguments.GetOr([])|
      ensures yamlContent == Dumped(formData) && InSync()
      ensures newTag == old(newTag)
    {
      var args := formData.arguments.GetOr([]);
      HandleFormChange(SetArguments(args[index := WithField(args[index], field, value)]));
    }

    /** Drops the argument at `index`, if there is one. */
    method RemoveArgument(index: int)
      modifies this
      ensures formData == Applied(old(formData), SetArguments(DropIndex(old(formData).arguments.GetOr([]), index)))
      ensures yamlContent == Dumped(formData) && InSync()
      ensures newTag == old(newTag)
    {
      HandleFormChange(SetArguments(DropIndex(formData.arguments.GetOr([]), index)));
    }

    /** A shell checkbox: checking appends the shell, even one already
        listed; unchecking removes every occurrence. */
    method HandleShellChange(shell: string, checked: bool)
      modifies this
      ensures var shells := old(formData).shells.GetOr([]);
              formData == Applied(old(formData), SetShells(if checked then shells + [shell] else RemoveAll(shells, shell)))
      ensures yamlContent == Dumped(formData) && InSync()
      ensures newTag == old(newTag)
    {
      var shells := formData.shells.GetOr([]);
      if checked {
        HandleFormChange(SetShells(shells + [shell]));
      } else {
        HandleFormChange(SetShells(RemoveAll(shells, shell)));
      }
    }

    /** The save button: the form is handed on only when no error is shown.
        When the errors shown are the form's own, that is exactly when the
        form is valid. */
    method HandleSave() returns (saved: Option<Workflow>)
      ensures saved.Some? <==> errors == []
      ensures saved.Some? ==> saved.value == formData
      ensures InSync() ==> (saved.Some? <==> ValidationErrors(formData) == [])
    {
      if |errors| > 0 {
        saved := None;
      } else {
        saved := Some(formData);
      }
    }
  }
}

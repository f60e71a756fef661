/** The entities of src/types/workflow.ts. Every optional field is an
    `Option`; the required `name` and `command` are too, because a record
    decoded from YAML or built in the form may lack them, and the checks
    exist precisely to catch that. `shells` is a list of plain strings: the
    declared union `'zsh' | 'bash' | 'fish'` is not enforced at run time. */
module WorkflowTypes {
  import opened Common

  datatype WorkflowArgument = WorkflowArgument(
    name: string,
    description: Option<string>,
    defaultValue: Option<string>)

  datatype Workflow = Workflow(
    name: Option<string>,
    command: Option<string>,
    tags: Option<seq<string>>,
    description: Option<string>,
    sourceUrl: Option<string>,
    author: Option<string>,
    authorUrl: Option<string>,
    shells: Option<seq<string>>,
    arguments: Option<seq<WorkflowArgument>>)

  /** A stored workflow: the definition plus the identity and the two
      timestamps (milliseconds since the epoch) its owner assigns. */
  datatype ParsedWorkflow = ParsedWorkflow(
    id: string,
    data: Workflow,
    createdAt: int,
    updatedAt: int)

  /** A JavaScript string value is truthy when it is defined and non-empty. */
  predicate Truthy(s: Option<string>) {
    s.Some? && s.value != ""
  }

  /** The names declared in the argument list: `arguments?.map(a => a.name) || []`. */
  function DeclaredNames(w: Workflow): seq<string> {
    Names(w.arguments.GetOr([]))
  }

  function Names(args: seq<WorkflowArgument>): (r: seq<string>)
    ensures |r| == |args|
    ensures forall n :: n in r <==> exists a :: a in args && a.name == n
  {
    if args == [] then []
    else
      assert args == [args[0]] + args[1..];
      [args[0].name] + Names(args[1..])
  }
}

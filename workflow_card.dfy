/** The execute dialog of src/components/workflows/WorkflowCard.tsx: the
    argument values it seeds from the defaults, the values the user types,
    and the substituted command it shows and hands on. */
module WorkflowCard {
  import opened Common
  import opened WorkflowTypes
  import opened Template

  // ---------------------------------------------------------------------------
  // The `Record<string, string>` of argument values

  /** A string-keyed object as its list of entries in insertion order, which
      is the order `Object.entries` reports them in. */
  type Values = seq<(string, string)>

  predicate UniqueKeys(m: Values) {
    forall i, j :: 0 <= i < j < |m| ==> m[i].0 != m[j].0
  }

  /** `m[k]`. */
  function Get(m: Values, k: string): (r: Option<string>)
    ensures r.None? <==> forall i :: 0 <= i < |m| ==> m[i].0 != k
    ensures r.Some? ==> (k, r.value) in m
  {
    if m == [] then None
    else if m[0].0 == k then Some(m[0].1)
    else
      var r := Get(m[1..], k);
      assert forall i :: 1 <= i < |m| ==> m[1..][i - 1] == m[i];
      r
  }

  /** `{ ...m, [k]: v }`: an existing key keeps its place and takes the new
      value, a new key goes last. */
  function Put(m: Values, k: string, v: string): (r: Values)
    ensures |r| == if Get(m, k).Some? then |m| else |m| + 1
  {
    if m == [] then [(k, v)]
    else if m[0].0 == k then [(k, v)] + m[1..]
    else [m[0]] + Put(m[1..], k, v)
  }

  /** Every key stays in its place, and a new key is appended at the end. */
  lemma {:induction false} PutKeysInPlace(m: Values, k: string, v: string)
    ensures forall i :: 0 <= i < |m| ==> Put(m, k, v)[i].0 == m[i].0
    ensures Get(m, k).None? ==> Put(m, k, v) == m + [(k, v)]
  {
    if m != [] && m[0].0 != k {
      PutKeysInPlace(m[1..], k, v);
      var rest := Put(m[1..], k, v);
      assert forall i :: 1 <= i < |m| ==> m[1..][i - 1] == m[i];
      assert Put(m, k, v) == [m[0]] + rest;
      if Get(m, k).None? {
        assert m == [m[0]] + m[1..];
      }
    }
  }

  /** The spread update keeps the keys unique. */
  lemma {:induction false} PutKeepsUnique(m: Values, k: string, v: string)
    requires UniqueKeys(m)
    ensures UniqueKeys(Put(m, k, v))
  {
    if m != [] && m[0].0 != k {
      var tail := m[1..];
      assert UniqueKeys(tail);
      PutKeepsUnique(tail, k, v);
      PutKeysInPlace(tail, k, v);
      var rest := Put(tail, k, v);
      forall j | 0 <= j < |rest| ensures rest[j].0 != m[0].0 {
        if j < |tail| {
          assert rest[j].0 == m[j + 1].0;
        }
      }
      MoreUnique(m[0], rest);
    } else if m != [] {
      var r := Put(m, k, v);
      forall i, j | 0 <= i < j < |r| ensures r[i].0 != r[j].0 {
        assert r[j] == m[j];
        if i > 0 {
          assert r[i] == m[i];
        }
      }
    }
  }

  /** A pair in front of entries whose keys are unique and differ from its own. */
  lemma MoreUnique(e: (string, string), rest: Values)
    requires UniqueKeys(rest)
    requires forall j :: 0 <= j < |rest| ==> rest[j].0 != e.0
    ensures UniqueKeys([e] + rest)
  {
    var r := [e] + rest;
    forall i, j | 0 <= i < j < |r| ensures r[i].0 != r[j].0 {
      assert r[j] == rest[j - 1];
      if i > 0 {
        assert r[i] == rest[i - 1];
      }
    }
  }

  /** After a `Put`, `k` reads the new value and every other key reads what
      it read before. */
  lemma {:induction false} PutGet(m: Values, k: string, v: string, q: string)
    ensures Get(Put(m, k, v), q) == if q == k then Some(v) else Get(m, q)
  {
    if m != [] && m[0].0 != k {
      PutGet(m[1..], k, v, q);
    }
  }

  // ---------------------------------------------------------------------------
  // Seeding the defaults

  /** `initialValues` after the `forEach` over the arguments: each argument
      with a non-empty default sets its name to that default. */
  function Seeded(args: seq<WorkflowArgument>): Values
    decreases |args|
  {
    if args == [] then []
    else
      var init := Seeded(args[..|args| - 1]);
      var a := args[|args| - 1];
      if Truthy(a.defaultValue) then Put(init, a.name, a.defaultValue.value) else init
  }

  /** The default of the last argument named `n` that has a non-empty one. */
  function LastDefault(args: seq<WorkflowArgument>, n: string): (r: Option<string>)
    ensures r.Some? ==> r.value != "" && exists a :: a in args && a.name == n && a.defaultValue == Some(r.value)
    ensures r.None? ==> forall a :: a in args && a.name == n ==> !Truthy(a.defaultValue)
    decreases |args|
  {
    if args == [] then None
    else
      var a := args[|args| - 1];
      var init := args[..|args| - 1];
      assert args == init + [a];
      if a.name == n && Truthy(a.defaultValue) then Some(a.defaultValue.value)
      else LastDefault(init, n)
  }

  /** The seeded value of a name is the last non-empty default given for it;
      a name with none is absent. */
  lemma {:induction false} SeededReadsLastDefault(args: seq<WorkflowArgument>, n: string)
    ensures Get(Seeded(args), n) == LastDefault(args, n)
    decreases |args|
  {
    if args != [] {
      var init := args[..|args| - 1];
      var a := args[|args| - 1];
      SeededReadsLastDefault(init, n);
      if Truthy(a.defaultValue) {
        PutGet(Seeded(init), a.name, a.defaultValue.value, n);
      }
    }
  }

  lemma {:induction false} SeededUniqueKeys(args: seq<WorkflowArgument>)
    ensures UniqueKeys(Seeded(args))
    decreases |args|
  {
    if args != [] {
      var init := args[..|args| - 1];
      var a := args[|args| - 1];
      SeededUniqueKeys(init);
      if Truthy(a.defaultValue) {
        PutKeepsUnique(Seeded(init), a.name, a.defaultValue.value);
      }
    }
  }

  /** A placeholder that has no entry is left in the command as it is. */
  lemma UnfilledPlaceholderStays(command: string, values: Values, n: string)
    requires PlainBindings(values) && PlainName(n)
    requires Get(values, n).None? && Contains(command, Token(n))
    ensures Contains(Substituted(command, values), Token(n))
  {
    UnboundTokenKept(command, values, n);
  }

  // ---------------------------------------------------------------------------
  // The card

  class Card {
    const workflow: ParsedWorkflow
    var showExecuteDialog: bool
    var argumentValues: Values
    var finalCommand: string

    constructor (w: ParsedWorkflow)
      ensures workflow == w
      ensures !showExecuteDialog && argumentValues == [] && finalCommand == ""
    {
      workflow := w;
      showExecuteDialog := false;
      argumentValues := [];
      finalCommand := "";
    }

    function Command(): string {
      workflow.data.command.GetOr("")
    }

    /** The dialog's input fields: one per distinct placeholder, in order of
        first occurrence, each the name of a token in the command. */
    method CommandArguments() returns (names: seq<string>)
      ensures names == ArgumentNames(Command())
      ensures NoDups(names)
      ensures forall n :: n in names ==> Contains(Command(), Token(n))
    {
      names := ExtractArguments(Command());
    }

    /** Opens the dialog with the defaults filled in and the raw command shown. */
    method HandleExecute()
      modifies this
      ensures argumentValues == Seeded(workflow.data.arguments.GetOr([]))
      ensures finalCommand == Command()
      ensures showExecuteDialog
    {
      var args := workflow.data.arguments.GetOr([]);
      var initial: Values := [];
      for i := 0 to |args|
        invariant initial == Seeded(args[..i])
      {
        var a := args[i];
        assert args[..i + 1][..i] == args[..i];
        if Truthy(a.defaultValue) {
          initial := Put(initial, a.name, a.defaultValue.value);
        }
      }
      assert args[..|args|] == args;
      argumentValues := initial;
      finalCommand := Command();
      showExecuteDialog := true;
    }

    /** Records one input and shows the command with the values so far. */
    method HandleArgumentChange(argName: string, value: string)
      requires PlainBindings(Put(argumentValues, argName, value))
      modifies this
      ensures argumentValues == Put(old(argumentValues), argName, value)
      ensures finalCommand == Substituted(Command(), argumentValues)
      ensures showExecuteDialog == old(showExecuteDialog)
    {
      var newValues := Put(argumentValues, argName, value);
      argumentValues := newValues;
      finalCommand := ReplaceArguments(Command(), newValues);
    }

    /** The command to copy, with the current values substituted; the
        dialog closes. */
    method ExecuteCommand() returns (command: string)
      requires PlainBindings(argumentValues)
      modifies this
      ensures command == Substituted(Command(), argumentValues)
      ensures !showExecuteDialog
      ensures argumentValues == old(argumentValues) && finalCommand == old(finalCommand)
    {
      command := ReplaceArguments(Command(), argumentValues);
      showExecuteDialog := false;
    }
  }
}

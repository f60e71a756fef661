/** The page of src/pages/WorkflowsPage.tsx: which view is shown, the list of
    stored workflows, the workflow being edited, and the save handler that
    updates or prepends a workflow. The clock reads of the save handler are
    parameters. */
module WorkflowsPage {
  import opened Common
  import opened WorkflowTypes
  import opened WorkflowUtils

  datatype ViewMode = ListView | CreateView | EditView

  // ---------------------------------------------------------------------------
  // `Date.now().toString()`

  function Digit(d: nat): char
    requires d < 10
  {
    ('0' as int + d) as char
  }

  predicate IsDigits(s: string) {
    forall i :: 0 <= i < |s| ==> '0' <= s[i] <= '9'
  }

  /** The decimal notation of `n`, without leading zeros. */
  function DecimalString(n: nat): (s: string)
    ensures |s| > 0 && IsDigits(s)
    ensures s[0] == '0' ==> n == 0
  {
    if n < 10 then [Digit(n)]
    else DecimalString(n / 10) + [Digit(n % 10)]
  }

  /** The number a string of digits denotes. */
  function DecimalValue(s: string): nat
    requires IsDigits(s)
  {
    if s == [] then 0
    else DecimalValue(s[..|s| - 1]) * 10 + (s[|s| - 1] as int - '0' as int)
  }

  /** The id names the clock value it was made from, so distinct clock values
      give distinct ids. */
  lemma {:induction false} DecimalRoundTrip(n: nat)
    ensures DecimalValue(DecimalString(n)) == n
  {
    if n >= 10 {
      var s := DecimalString(n);
      assert s[..|s| - 1] == DecimalString(n / 10);
      DecimalRoundTrip(n / 10);
    }
  }

  lemma DistinctClocksDistinctIds(a: nat, b: nat)
    requires a != b
    ensures DecimalString(a) != DecimalString(b)
  {
    DecimalRoundTrip(a);
    DecimalRoundTrip(b);
  }

  // ---------------------------------------------------------------------------
  // The list updates

  /** `prev.map(w => w.id === id ? updated : w)`, element by element. */
  function ReplaceById(ws: seq<ParsedWorkflow>, id: string, updated: ParsedWorkflow): (r: seq<ParsedWorkflow>)
    ensures |r| == |ws|
  {
    if ws == [] then []
    else [if ws[0].id == id then updated else ws[0]] + ReplaceById(ws[1..], id, updated)
  }

  /** The `map` works in place: each element with the id becomes `updated`,
      every other element stays where it was. */
  lemma {:induction false} ReplaceByIdAt(ws: seq<ParsedWorkflow>, id: string, updated: ParsedWorkflow)
    ensures forall i :: 0 <= i < |ws| ==>
      ReplaceById(ws, id, updated)[i] == if ws[i].id == id then updated else ws[i]
  {
    if ws != [] {
      ReplaceByIdAt(ws[1..], id, updated);
      var r := ReplaceById(ws, id, updated);
      forall i | 1 <= i < |ws| ensures r[i] == if ws[i].id == id then updated else ws[i] {
        assert r[i] == ReplaceById(ws[1..], id, updated)[i - 1];
      }
    }
  }

  /** After the update the only workflow carrying the id is `updated`; the
      workflows with other ids are kept, and nothing else is added. A list
      without the id is left as it is. */
  lemma ReplaceByIdExactly(ws: seq<ParsedWorkflow>, id: string, updated: ParsedWorkflow)
    ensures forall p :: p in ReplaceById(ws, id, updated) && p.id == id ==> p == updated
    ensures forall p :: p in ws && p.id != id ==> p in ReplaceById(ws, id, updated)
    ensures forall p :: p in ReplaceById(ws, id, updated) ==> p == updated || (p in ws && p.id != id)
    ensures (forall i :: 0 <= i < |ws| ==> ws[i].id != id) ==> ReplaceById(ws, id, updated) == ws
  {
    ReplaceByIdAt(ws, id, updated);
    var r := ReplaceById(ws, id, updated);
    forall p | p in ws && p.id != id ensures p in r {
      var i :| 0 <= i < |ws| && ws[i] == p;
      assert r[i] == p;
    }
  }

  /** `ws.map(w => w.id)`, element by element. */
  function Ids(ws: seq<ParsedWorkflow>): (r: seq<string>)
    ensures |r| == |ws|
  {
    if ws == [] then [] else [ws[0].id] + Ids(ws[1..])
  }

  lemma {:induction false} IdsAt(ws: seq<ParsedWorkflow>)
    ensures forall i :: 0 <= i < |ws| ==> Ids(ws)[i] == ws[i].id
  {
    if ws != [] {
      IdsAt(ws[1..]);
      forall i | 1 <= i < |ws| ensures Ids(ws)[i] == ws[i].id {
        assert Ids(ws)[i] == Ids(ws[1..])[i - 1];
      }
    }
  }

  /** A replacement that keeps the id leaves the ids as they were, so ids
      that were unique stay unique. */
  lemma ReplaceKeepsIds(ws: seq<ParsedWorkflow>, id: string, updated: ParsedWorkflow)
    requires updated.id == id
    ensures Ids(ReplaceById(ws, id, updated)) == Ids(ws)
  {
    var r := ReplaceById(ws, id, updated);
    ReplaceByIdAt(ws, id, updated);
    IdsAt(ws);
    IdsAt(r);
    assert forall i :: 0 <= i < |ws| ==> Ids(r)[i] == Ids(ws)[i];
  }

  /** Prepending a workflow whose id is new keeps the ids unique. */
  lemma PrependNewIdKeepsUnique(ws: seq<ParsedWorkflow>, p: ParsedWorkflow)
    requires NoDups(Ids(ws)) && p.id !in Ids(ws)
    ensures NoDups(Ids([p] + ws))
  {
    assert ([p] + ws)[1..] == ws;
    var r := Ids([p] + ws);
    assert r == [p.id] + Ids(ws);
    forall i, j | 0 <= i < j < |r| ensures r[i] != r[j] {
      assert r[j] == Ids(ws)[j - 1];
      if i > 0 {
        assert r[i] == Ids(ws)[i - 1];
      }
    }
  }

  // ---------------------------------------------------------------------------
  // The page

  class Page {
    var viewMode: ViewMode
    var workflows: seq<ParsedWorkflow>
    var editingWorkflow: Option<ParsedWorkflow>

    constructor ()
      ensures viewMode == ListView && workflows == MockWorkflows && editingWorkflow == None
    {
      viewMode := ListView;
      workflows := MockWorkflows;
      editingWorkflow := None;
    }

    method HandleCreateNew()
      modifies this
      ensures viewMode == CreateView && editingWorkflow == None
      ensures workflows == old(workflows)
    {
      editingWorkflow := None;
      viewMode := CreateView;
    }

    method HandleEditWorkflow(w: ParsedWorkflow)
      modifies this
      ensures viewMode == EditView && editingWorkflow == Some(w)
      ensures workflows == old(workflows)
    {
      editingWorkflow := Some(w);
      viewMode := EditView;
    }

    /** Saves what the editor hands on. While editing, every stored workflow
        with the edited id is replaced by the new data under the same id and
        creation time, stamped `updatedTime`. Otherwise a new workflow is put
        first: its id is the decimal form of `idTime` and its timestamps are
        `createdTime` and `updatedTime` (the three clock reads of the handler,
        in order). Either way the page returns to the list. */
    method HandleSaveWorkflow(data: Workflow, idTime: nat, createdTime: int, updatedTime: int)
      modifies this
      ensures match old(editingWorkflow)
        case Some(e) =>
          workflows == ReplaceById(old(workflows), e.id, ParsedWorkflow(e.id, data, e.createdAt, updatedTime))
        case None =>
          workflows == [ParsedWorkflow(DecimalString(idTime), data, createdTime, updatedTime)] + old(workflows)
      ensures viewMode == ListView && editingWorkflow == None
    {
      match editingWorkflow {
        case Some(e) =>
          var updated := ParsedWorkflow(e.id, data, e.createdAt, updatedTime);
          workflows := ReplaceById(workflows, e.id, updated);
        case None =>
          var created := ParsedWorkflow(DecimalString(idTime), data, createdTime, updatedTime);
          workflows := [created] + workflows;
      }
      viewMode := ListView;
      editingWorkflow := None;
    }

    method HandleCancel()
      modifies this
      ensures viewMode == ListView && editingWorkflow == None
      ensures workflows == old(workflows)
    {
      viewMode := ListView;
      editingWorkflow := None;
    }
  }
}

/** The list view of src/components/workflows/WorkflowList.tsx: the filter
    predicate over search text, selected tags and shell, the newest-first
    sort, the de-duplicated tag and shell pickers, and the view state that
    `toggleTag` and `clearFilters` update. */
module WorkflowList {
  import opened Common
  import opened WorkflowTypes
  import opened WorkflowUtils

  // ---------------------------------------------------------------------------
  // The filter predicate

  /** The search: a case-insensitive substring test on the name, the
      description, the command and every tag. A missing description or tag
      list does not match. */
  predicate MatchesSearch(w: Workflow, query: string) {
    var q := Lower(query);
    Contains(Lower(w.name.GetOr("")), q)
    || (w.description.Some? && Contains(Lower(w.description.value), q))
    || Contains(Lower(w.command.GetOr("")), q)
    || (w.tags.Some? && exists t :: t in w.tags.value && Contains(Lower(t), q))
  }

  /** With no tag selected every workflow passes; otherwise each selected tag
      must be one of the workflow's tags, compared exactly. */
  predicate MatchesTags(w: Workflow, selected: seq<string>) {
    |selected| == 0 || forall t :: t in selected ==> w.tags.Some? && t in w.tags.value
  }

  /** The shell filter passes on "all", on a workflow that names no shell,
      and on a workflow that lists the selected shell. */
  predicate MatchesShell(w: Workflow, shell: string) {
    shell == "all" || w.shells.None? || |w.shells.value| == 0 || shell in w.shells.value
  }

  predicate Keep(w: Workflow, query: string, selected: seq<string>, shell: string) {
    MatchesSearch(w, query) && MatchesTags(w, selected) && MatchesShell(w, shell)
  }

  /** The workflows that pass all three filters, in list order. */
  function FilterWorkflows(ws: seq<ParsedWorkflow>, query: string, selected: seq<string>, shell: string): seq<ParsedWorkflow> {
    Filter(ws, (p: ParsedWorkflow) => Keep(p.data, query, selected, shell))
  }

  /** A workflow is listed exactly as often as it occurs in the input when it
      passes the three filters, and not at all otherwise. */
  lemma FilteredExactly(ws: seq<ParsedWorkflow>, query: string, selected: seq<string>, shell: string, p: ParsedWorkflow)
    ensures p in FilterWorkflows(ws, query, selected, shell) <==> p in ws && Keep(p.data, query, selected, shell)
    ensures multiset(FilterWorkflows(ws, query, selected, shell))[p] ==
            if Keep(p.data, query, selected, shell) then multiset(ws)[p] else 0
  {
    FilterCount(ws, (p: ParsedWorkflow) => Keep(p.data, query, selected, shell), p);
  }

  /** Lower-casing keeps an occurrence of `t` in `s`. */
  lemma LowerContains(s: string, t: string)
    requires Contains(s, t)
    ensures Contains(Lower(s), Lower(t))
  {
    var i :| 0 <= i <= |s| - |t| && OccursAt(s, t, i);
    LowerAt(s);
    LowerAt(t);
    assert Lower(s)[i..i + |t|] == Lower(t) by {
      forall k | 0 <= k < |t| ensures Lower(s)[i..i + |t|][k] == Lower(t)[k] {
        assert s[i + k] == t[k];
      }
    }
    assert OccursAt(Lower(s), Lower(t), i);
  }

  lemma LowerTwice(s: string)
    ensures Lower(Lower(s)) == Lower(s)
  {
    LowerAt(s);
    LowerAt(Lower(s));
    assert forall i :: 0 <= i < |s| ==> LowerChar(LowerChar(s[i])) == LowerChar(s[i]);
  }

  /** An empty query matches every workflow. */
  lemma EmptyQueryMatchesAll(w: Workflow)
    ensures MatchesSearch(w, "")
  {
    ContainsItself(Lower(w.name.GetOr("")));
  }

  /** The query's case does not matter: it is lower-cased before the test. */
  lemma SearchIgnoresQueryCase(w: Workflow, query: string)
    ensures MatchesSearch(w, Lower(query)) == MatchesSearch(w, query)
  {
    LowerTwice(query);
  }

  /** A query found verbatim in the name, the command or one of the tags
      matches, whatever the case of either side. */
  lemma SearchFinds(w: Workflow, query: string)
    requires Contains(w.name.GetOr(""), query)
          || Contains(w.command.GetOr(""), query)
          || (w.tags.Some? && exists t :: t in w.tags.value && Contains(t, query))
    ensures MatchesSearch(w, query)
  {
    if Contains(w.name.GetOr(""), query) {
      LowerContains(w.name.GetOr(""), query);
    } else if Contains(w.command.GetOr(""), query) {
      LowerContains(w.command.GetOr(""), query);
    } else {
      var t :| t in w.tags.value && Contains(t, query);
      LowerContains(t, query);
    }
  }

  /** The cleared filters (empty query, no tag, shell "all") list every
      workflow, in order. */
  lemma ClearedFiltersKeepAll(ws: seq<ParsedWorkflow>)
    ensures FilterWorkflows(ws, "", [], "all") == ws
  {
    forall p | p in ws ensures Keep(p.data, "", [], "all") {
      EmptyQueryMatchesAll(p.data);
    }
    FilterKeepsAll(ws, (p: ParsedWorkflow) => Keep(p.data, "", [], "all"));
  }

  // ---------------------------------------------------------------------------
  // Sorting by a timestamp, newest first

  /** The timestamp sorts of the sort selector; 'updated' is also the
      comparator's default branch. */
  datatype TimeField = Created | Updated

  function Time(p: ParsedWorkflow, f: TimeField): int {
    match f
    case Created => p.createdAt
    case Updated => p.updatedAt
  }

  predicate NewestFirst(ws: seq<ParsedWorkflow>, f: TimeField) {
    forall i, j :: 0 <= i < j < |ws| ==> Time(ws[i], f) >= Time(ws[j], f)
  }

  /** Inserts `x` before the first element that is strictly older, so that
      among equal timestamps the element inserted last comes first. */
  function Insert(x: ParsedWorkflow, ys: seq<ParsedWorkflow>, f: TimeField): (r: seq<ParsedWorkflow>)
    ensures |r| == |ys| + 1
  {
    if ys == [] || Time(x, f) >= Time(ys[0], f) then [x] + ys
    else [ys[0]] + Insert(x, ys[1..], f)
  }

  /** Inserting adds exactly the one element. */
  lemma {:induction false} InsertPermutes(x: ParsedWorkflow, ys: seq<ParsedWorkflow>, f: TimeField)
    ensures multiset(Insert(x, ys, f)) == multiset(ys) + multiset{x}
    decreases |ys|
  {
    if !(ys == [] || Time(x, f) >= Time(ys[0], f)) {
      InsertPermutes(x, ys[1..], f);
      assert ys == [ys[0]] + ys[1..];
    }
  }

  /** Inserting into a newest-first list keeps it newest first. */
  lemma {:induction false} InsertKeepsNewestFirst(x: ParsedWorkflow, ys: seq<ParsedWorkflow>, f: TimeField)
    requires NewestFirst(ys, f)
    ensures NewestFirst(Insert(x, ys, f), f)
    decreases |ys|
  {
    if ys == [] || Time(x, f) >= Time(ys[0], f) {
      assert forall k :: 0 <= k < |ys| ==> Time(ys[k], f) <= Time(ys[0], f);
      ConsNewestFirst(x, ys, f);
    } else {
      var tail := ys[1..];
      TailNewestFirst(ys, f);
      InsertKeepsNewestFirst(x, tail, f);
      InsertPermutes(x, tail, f);
      var rest := Insert(x, tail, f);
      forall k | 0 <= k < |rest| ensures Time(rest[k], f) <= Time(ys[0], f) {
        assert rest[k] in multiset(tail) + multiset{x};
        if rest[k] != x {
          assert rest[k] in tail;
        }
      }
      ConsNewestFirst(ys[0], rest, f);
    }
  }

  /** Dropping the newest element leaves a newest-first list of elements no
      newer than it. */
  lemma TailNewestFirst(ys: seq<ParsedWorkflow>, f: TimeField)
    requires NewestFirst(ys, f) && ys != []
    ensures NewestFirst(ys[1..], f)
    ensures forall y :: y in ys[1..] ==> Time(y, f) <= Time(ys[0], f)
  {
    var tail := ys[1..];
    forall i, j | 0 <= i < j < |tail| ensures Time(tail[i], f) >= Time(tail[j], f) {
      assert tail[i] == ys[i + 1] && tail[j] == ys[j + 1];
    }
    forall y | y in tail ensures Time(y, f) <= Time(ys[0], f) {
      var i :| 0 <= i < |tail| && tail[i] == y;
      assert ys[i + 1] == y;
    }
  }

  /** Putting an element no older than any of a newest-first list in front
      keeps it newest first. */
  lemma ConsNewestFirst(y: ParsedWorkflow, rest: seq<ParsedWorkflow>, f: TimeField)
    requires NewestFirst(rest, f)
    requires forall k :: 0 <= k < |rest| ==> Time(rest[k], f) <= Time(y, f)
    ensures NewestFirst([y] + rest, f)
  {
    var r := [y] + rest;
    forall i, j | 0 <= i < j < |r| ensures Time(r[i], f) >= Time(r[j], f) {
      assert r[j] == rest[j - 1];
      if i > 0 {
        assert r[i] == rest[i - 1];
      }
    }
  }

  /** The comparator `b.t - a.t`, newest first. Ties keep their input order,
      as in the stable `Array.prototype.sort` (`SortStable`). */
  function SortNewestFirst(ws: seq<ParsedWorkflow>, f: TimeField): (r: seq<ParsedWorkflow>)
    ensures NewestFirst(r, f)
    ensures multiset(r) == multiset(ws)
  {
    if ws == [] then []
    else
      var rest := SortNewestFirst(ws[1..], f);
      InsertKeepsNewestFirst(ws[0], rest, f);
      InsertPermutes(ws[0], rest, f);
      assert ws == [ws[0]] + ws[1..];
      Insert(ws[0], rest, f)
  }

  /** A list already newest first is left as it is. */
  lemma {:induction false} SortKeepsSorted(ws: seq<ParsedWorkflow>, f: TimeField)
    requires NewestFirst(ws, f)
    ensures SortNewestFirst(ws, f) == ws
  {
    if ws != [] {
      var tail := ws[1..];
      assert NewestFirst(tail, f);
      SortKeepsSorted(tail, f);
    }
  }

  /** The workflows of one timestamp, in their order in `ws`. */
  function AtTime(ws: seq<ParsedWorkflow>, f: TimeField, t: int): seq<ParsedWorkflow> {
    if ws == [] then []
    else Own(ws[0], f, t) + AtTime(ws[1..], f, t)
  }

  /** The workflow itself if it has the timestamp, nothing otherwise. */
  function Own(p: ParsedWorkflow, f: TimeField, t: int): seq<ParsedWorkflow> {
    if Time(p, f) == t then [p] else []
  }

  lemma AtTimeCons(y: ParsedWorkflow, rest: seq<ParsedWorkflow>, f: TimeField, t: int)
    ensures AtTime([y] + rest, f, t) == Own(y, f, t) + AtTime(rest, f, t)
  {
    assert ([y] + rest)[0] == y && ([y] + rest)[1..] == rest;
  }

  /** Inserting `x` puts it in front of every workflow of its own timestamp. */
  lemma {:induction false} InsertAtTime(x: ParsedWorkflow, ys: seq<ParsedWorkflow>, f: TimeField, t: int)
    ensures AtTime(Insert(x, ys, f), f, t) == Own(x, f, t) + AtTime(ys, f, t)
    decreases |ys|
  {
    if ys == [] || Time(x, f) >= Time(ys[0], f) {
      AtTimeCons(x, ys, f, t);
    } else {
      var y, tail := ys[0], ys[1..];
      InsertOlder(x, ys, f);
      InsertAtTime(x, tail, f, t);
      AtTimeCons(y, Insert(x, tail, f), f, t);
      AtTimeCons(y, tail, f, t);
      assert ys == [y] + tail;
      var ox, oy, rest := Own(x, f, t), Own(y, f, t), AtTime(tail, f, t);
      assert AtTime(Insert(x, ys, f), f, t) == oy + (ox + rest);
      assert AtTime(ys, f, t) == oy + rest;
      assert ox == [] || oy == [];
      SwapPastEmpty(oy, ox, rest);
    }
  }

  /** Two pieces of which one is empty can be put in either order. */
  lemma SwapPastEmpty<T>(a: seq<T>, b: seq<T>, c: seq<T>)
    requires a == [] || b == []
    ensures a + (b + c) == b + (a + c)
  {
    if a == [] {
      assert a + (b + c) == b + c;
    } else {
      assert b + (a + c) == a + c;
    }
  }

  /** The sort is stable: workflows with equal timestamps keep their input
      order, as `Array.prototype.sort` guarantees. */
  lemma {:induction false} SortStable(ws: seq<ParsedWorkflow>, f: TimeField, t: int)
    ensures AtTime(SortNewestFirst(ws, f), f, t) == AtTime(ws, f, t)
  {
    if ws != [] {
      SortStable(ws[1..], f, t);
      InsertAtTime(ws[0], SortNewestFirst(ws[1..], f), f, t);
    }
  }

  lemma InsertOlder(x: ParsedWorkflow, ys: seq<ParsedWorkflow>, f: TimeField)
    requires ys != [] && Time(x, f) < Time(ys[0], f)
    ensures Insert(x, ys, f) == [ys[0]] + Insert(x, ys[1..], f)
  {
  }

  lemma SortOne(c: ParsedWorkflow, f: TimeField)
    ensures SortNewestFirst([c], f) == [c]
  {
    assert [c][1..] == [];
  }

  /** Sorting a list is inserting its head into its sorted tail. */
  lemma SortCons(x: ParsedWorkflow, ws: seq<ParsedWorkflow>, f: TimeField)
    ensures SortNewestFirst([x] + ws, f) == Insert(x, SortNewestFirst(ws, f), f)
  {
    assert ([x] + ws)[0] == x && ([x] + ws)[1..] == ws;
  }

  /** An older workflow goes after a single newer one. */
  lemma InsertAfterOne(x: ParsedWorkflow, y: ParsedWorkflow, f: TimeField)
    requires Time(x, f) < Time(y, f)
    ensures Insert(x, [y], f) == [y, x]
  {
    InsertAtEnd(x, [y], f);
    assert [y] + [x] == [y, x];
  }

  lemma SortTwo(b: ParsedWorkflow, c: ParsedWorkflow, f: TimeField)
    requires Time(b, f) < Time(c, f)
    ensures SortNewestFirst([b, c], f) == [c, b]
  {
    SortCons(b, [c], f);
    assert [b] + [c] == [b, c];
    SortOne(c, f);
    InsertAfterOne(b, c, f);
  }

  /** Three workflows updated in turn are listed in the reverse order. */
  lemma ThreeNewestFirst(a: ParsedWorkflow, b: ParsedWorkflow, c: ParsedWorkflow, f: TimeField)
    requires Time(a, f) < Time(b, f) < Time(c, f)
    ensures SortNewestFirst([a, b, c], f) == [c, b, a]
  {
    SortThree(a, b, c, f);
    SortTwo(b, c, f);
    InsertBehindTwo(a, b, c, f);
  }

  lemma SortThree(a: ParsedWorkflow, b: ParsedWorkflow, c: ParsedWorkflow, f: TimeField)
    ensures SortNewestFirst([a, b, c], f) == Insert(a, SortNewestFirst([b, c], f), f)
  {
    assert [a, b, c][1..] == [b, c];
  }

  /** The oldest of three goes after the two newer ones. */
  lemma InsertBehindTwo(a: ParsedWorkflow, b: ParsedWorkflow, c: ParsedWorkflow, f: TimeField)
    requires Time(a, f) < Time(b, f) < Time(c, f)
    ensures Insert(a, [c, b], f) == [c, b, a]
  {
    var ys := [c, b];
    InsertAtEnd(a, ys, f);
    assert ys + [a] == [c, b, a];
  }

  /** A workflow older than every listed one goes last. */
  lemma {:induction false} InsertAtEnd(x: ParsedWorkflow, ys: seq<ParsedWorkflow>, f: TimeField)
    requires forall k :: 0 <= k < |ys| ==> Time(x, f) < Time(ys[k], f)
    ensures Insert(x, ys, f) == ys + [x]
    decreases |ys|
  {
    if ys != [] {
      InsertOlder(x, ys, f);
      InsertAtEnd(x, ys[1..], f);
      assert [ys[0]] + (ys[1..] + [x]) == ys + [x];
    }
  }

  /** The sample workflows listed by the default sort: the most recently
      updated, the component recipe, comes first. */
  lemma SamplesNewestFirst()
    ensures SortNewestFirst(MockWorkflows, Updated) == [ComponentMock, DockerMock, GitMock]
  {
    ThreeNewestFirst(GitMock, DockerMock, ComponentMock, Updated);
  }

  /** The listing: the filtered workflows, newest first. */
  function Listed(ws: seq<ParsedWorkflow>, query: string, selected: seq<string>, shell: string, f: TimeField): (r: seq<ParsedWorkflow>)
    ensures NewestFirst(r, f)
    ensures forall p :: p in r <==> p in ws && Keep(p.data, query, selected, shell)
    ensures multiset(r) == multiset(FilterWorkflows(ws, query, selected, shell))
  {
    var kept := FilterWorkflows(ws, query, selected, shell);
    var r := SortNewestFirst(kept, f);
    assert forall p :: p in r <==> p in multiset(kept);
    r
  }

  // ---------------------------------------------------------------------------
  // The tag and shell pickers

  /** `workflows.flatMap(w => w.tags || [])`. */
  function TagsOf(ws: seq<ParsedWorkflow>): (r: seq<string>)
    ensures forall t :: t in r <==> exists i :: 0 <= i < |ws| && t in ws[i].data.tags.GetOr([])
  {
    var lists := seq(|ws|, i requires 0 <= i < |ws| => ws[i].data.tags.GetOr([]));
    assert forall i :: 0 <= i < |ws| ==> lists[i] == ws[i].data.tags.GetOr([]);
    Flatten(lists)
  }

  /** `workflows.flatMap(w => w.shells || [])`. */
  function ShellsOf(ws: seq<ParsedWorkflow>): (r: seq<string>)
    ensures forall s :: s in r <==> exists i :: 0 <= i < |ws| && s in ws[i].data.shells.GetOr([])
  {
    var lists := seq(|ws|, i requires 0 <= i < |ws| => ws[i].data.shells.GetOr([]));
    assert forall i :: 0 <= i < |ws| ==> lists[i] == ws[i].data.shells.GetOr([]);
    Flatten(lists)
  }

  /** `Array.from(new Set(workflows.flatMap(w => w.tags || [])))`. */
  function AllTags(ws: seq<ParsedWorkflow>): seq<string> {
    Distinct(TagsOf(ws))
  }

  function AllShells(ws: seq<ParsedWorkflow>): seq<string> {
    Distinct(ShellsOf(ws))
  }

  /** Every tag of some workflow is offered exactly once, and the offers come
      in the order the tags first occur. */
  lemma AllTagsOffered(ws: seq<ParsedWorkflow>)
    ensures NoDups(AllTags(ws))
    ensures forall t :: t in AllTags(ws) <==> exists i :: 0 <= i < |ws| && t in ws[i].data.tags.GetOr([])
    ensures forall i, j :: 0 <= i < j < |AllTags(ws)| ==>
      FirstIndex(TagsOf(ws), AllTags(ws)[i]) < FirstIndex(TagsOf(ws), AllTags(ws)[j])
  {
    DistinctFirstOccurrenceOrder(TagsOf(ws));
  }

  lemma AllShellsOffered(ws: seq<ParsedWorkflow>)
    ensures NoDups(AllShells(ws))
    ensures forall s :: s in AllShells(ws) <==> exists i :: 0 <= i < |ws| && s in ws[i].data.shells.GetOr([])
    ensures forall i, j :: 0 <= i < j < |AllShells(ws)| ==>
      FirstIndex(ShellsOf(ws), AllShells(ws)[i]) < FirstIndex(ShellsOf(ws), AllShells(ws)[j])
  {
    DistinctFirstOccurrenceOrder(ShellsOf(ws));
  }

  // ---------------------------------------------------------------------------
  // The view state

  /** The value of the sort selector. Ordering by name uses the host's
      locale collation and is not part of this model. */
  datatype SortBy = ByName | ByCreated | ByUpdated

  /** `toggleTag`'s update of the selection: drop every occurrence of a
      selected tag, append one that is not selected. */
  function Toggled(selected: seq<string>, tag: string): seq<string> {
    if tag in selected then RemoveAll(selected, tag) else selected + [tag]
  }

  /** Toggling flips the tag's membership and leaves every other tag's. */
  lemma ToggleFlips(selected: seq<string>, tag: string, other: string)
    requires other != tag
    ensures tag in Toggled(selected, tag) <==> tag !in selected
    ensures other in Toggled(selected, tag) <==> other in selected
  {
  }

  /** An absent tag is appended at the end. */
  lemma ToggleAppends(selected: seq<string>, tag: string)
    requires tag !in selected
    ensures |Toggled(selected, tag)| == |selected| + 1
    ensures Toggled(selected, tag)[..|selected|] == selected
    ensures Toggled(selected, tag)[|selected|] == tag
  {
  }

  /** Toggling an unselected tag twice gives back the selection. */
  lemma ToggleTwiceRestores(selected: seq<string>, tag: string)
    requires tag !in selected
    ensures Toggled(Toggled(selected, tag), tag) == selected
  {
    RemoveAllAppend(selected, [tag], tag);
    RemoveAbsent(selected, tag);
    assert RemoveAll([tag], tag) == [];
  }

  /** Toggling keeps the selection free of duplicates. */
  lemma ToggleKeepsNoDups(selected: seq<string>, tag: string)
    requires NoDups(selected)
    ensures NoDups(Toggled(selected, tag))
  {
    if tag in selected {
      RemoveAllNoDups(selected, tag);
    }
  }

  /** The four filter and sort controls of the list page. */
  class WorkflowListView {
    var searchQuery: string
    var selectedTags: seq<string>
    var selectedShell: string
    var sortBy: SortBy

    /** The initial state: no query, no tag, every shell, most recently
        updated first. */
    constructor ()
      ensures searchQuery == "" && selectedTags == [] && selectedShell == "all" && sortBy == ByUpdated
    {
      searchQuery := "";
      selectedTags := [];
      selectedShell := "all";
      sortBy := ByUpdated;
    }

    method SetSearchQuery(query: string)
      modifies this
      ensures searchQuery == query
      ensures selectedTags == old(selectedTags) && selectedShell == old(selectedShell) && sortBy == old(sortBy)
    {
      searchQuery := query;
    }

    method SetSelectedShell(shell: string)
      modifies this
      ensures selectedShell == shell
      ensures searchQuery == old(searchQuery) && selectedTags == old(selectedTags) && sortBy == old(sortBy)
    {
      selectedShell := shell;
    }

    method SetSortBy(order: SortBy)
      modifies this
      ensures sortBy == order
      ensures searchQuery == old(searchQuery) && selectedTags == old(selectedTags) && selectedShell == old(selectedShell)
    {
      sortBy := order;
    }

    method ToggleTag(tag: string)
      modifies this
      ensures selectedTags == Toggled(old(selectedTags), tag)
      ensures searchQuery == old(searchQuery) && selectedShell == old(selectedShell) && sortBy == old(sortBy)
    {
      if tag in selectedTags {
        selectedTags := RemoveAll(selectedTags, tag);
      } else {
        selectedTags := selectedTags + [tag];
      }
    }

    /** Resets the three filters; the sort order stays. Afterwards every
        workflow is listed (`ClearedFiltersKeepAll`). */
    method ClearFilters()
      modifies this
      ensures searchQuery == "" && selectedTags == [] && selectedShell == "all"
      ensures sortBy == old(sortBy)
    {
      searchQuery := "";
      selectedTags := [];
      selectedShell := "all";
    }
  }
}

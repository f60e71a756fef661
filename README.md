# Workflow template engine, modelled in Dafny

This project models the workflow template engine of a web app that stores
shell-command recipes ("workflows"). A workflow has a name, a command with
`{{name}}` placeholders, tags, the shells it runs in, and declared arguments
with optional defaults.

The engine lives in `src/utils/workflowUtils.ts`:
- placeholder extraction (`extractArguments`);
- placeholder substitution (`replaceArguments`);
- validation (`validateWorkflow`);
- the post-load checks of the YAML parser (`parseWorkflowYaml`);
- the key-cleaning step of the YAML serializer (`workflowToYaml`).

Around it sit the UI handlers that keep state:
- the list view's filter, sort, tag pickers and tag toggle (`WorkflowList.tsx`);
- the editor's form handlers and save gate (`WorkflowEditor.tsx`);
- the card's execute dialog (`WorkflowCard.tsx`);
- the page's store of workflows (`WorkflowsPage.tsx`).

Modules, one per source file, in dependency order:

- `Common` (`common.dfy`): option and result values, plus the JavaScript built-ins the code relies on. These are `filter`, `Set` de-duplication, `join`, `includes`, `trim` and `toLowerCase`.
- `WorkflowTypes` (`workflow_types.dfy`): the records of `src/types/workflow.ts`. Every field is an `Option`, because decoded or edited records may lack any of them.
- `Template` (`template.dfy`): extraction and substitution.
  - `Matches` states the regex `/\{\{([^}]+)\}\}/g` as a recursive function over suffixes. `ExtractArguments` is the `exec` loop proved against it.
  - `Substituted` is the left fold of global literal replacements. `ReplaceArguments` is the `forEach` loop proved against it.
- `WorkflowUtils` (`workflow_utils.dfy`):
  - validation, as the accumulating method `ValidateWorkflow` proved against `ValidationErrors`;
  - the parser's checks on a decoded record;
  - the serializer's cleaning loop;
  - the three sample workflows.
- `WorkflowList` (`workflow_list.dfy`): the filter predicate, the newest-first sort, the tag and shell pickers, and the class `WorkflowListView` holding the filter state.
- `WorkflowEditor` (`workflow_editor.dfy`): the class `Editor`, whose handlers rebuild the form and re-run validation after every change of the form. React runs that validation as an effect.
- `WorkflowCard` (`workflow_card.dfy`): the class `Card`. Its argument values are an ordered list of entries, as `Object.entries` reports them. It seeds defaults and substitutes.
- `WorkflowsPage` (`workflows_page.dfy`): the class `Page`, with its view mode, the stored list and the save handler.

Where the code's evident intent and what it does differ, the model follows what it does:
- Substitution is sequential. A substitution of named placeholders suggests that passes for different names never interact. In the code each pass runs on the result of the previous ones. So a value that contains another entry's token is rewritten by that later pass (`Template.SubstitutionOrderMatters`).
- The parser and the validator check names differently. The parser rejects only an empty name or command. The validator rejects blank ones after trimming (`WorkflowUtils.BlankNameParsesButFailsValidation`).
- The shell messages differ. The parser's message adds the list of valid shells; the validator's does not (`WorkflowUtils.ShellMessagesDiffer`).

## Model

| member | source | states |
|---|---|---|
| Common.Filter | src/utils/workflowUtils.ts:89 | `filter` keeps exactly the elements that pass, never lengthening the list |
| Common.Distinct | src/utils/workflowUtils.ts:62 | `[...new Set(xs)]` has no duplicates and the same elements as `xs` |
| Common.DistinctFirstOccurrenceOrder | src/utils/workflowUtils.ts:62 | the de-duplicated names come in the order of their first occurrence |
| Common.FilterNoDups | src/utils/workflowUtils.ts:99 | filtering a duplicate-free list leaves it duplicate-free |
| Common.TrimEmptyIff | src/utils/workflowUtils.ts:79 | a trimmed string is empty exactly when every character is white space |
| Common.LowerAt | src/components/workflows/WorkflowList.tsx:30 | the recursive lower-casing keeps the length and maps each character through ASCII lower-casing on its own |
| WorkflowTypes.Names | src/utils/workflowUtils.ts:98 | `arguments.map(a => a.name)` has one name per argument, and a name is listed exactly when some argument has it |
| Template.CloseIndex | src/utils/workflowUtils.ts:54 | the group `[^}]+` ends at the first `}` after the opening braces |
| Template.TokenAtShape | src/utils/workflowUtils.ts:54 | a match at the start of a text is `{{`, a non-empty name without `}`, then `}}` |
| Template.ExtractArguments | src/utils/workflowUtils.ts:53-63 | the `exec` loop returns the distinct captured names; each is a valid name whose token occurs in the command |
| Template.MatchesAreTokens | src/utils/workflowUtils.ts:54-60 | every match is a non-empty name without `}` whose token occurs in the text |
| Template.TokenAtToken | src/utils/workflowUtils.ts:54 | a token at the start of a text is matched there, and it ends where the token ends |
| Template.MatchesNonEmpty | src/utils/workflowUtils.ts:58-60 | a text that holds a token anywhere yields at least one match |
| Template.NoArgumentsIff | src/utils/workflowUtils.ts:53-63 | the result is empty exactly when the command holds no token |
| Template.MatchesSkipPlain | src/utils/workflowUtils.ts:58 | text without `{` contributes no match and does not disturb the matches after it |
| Template.MatchesSkipBrace | src/utils/workflowUtils.ts:54 | a lone `{` is not the start of a match |
| Template.MatchesToken | src/utils/workflowUtils.ts:58-59 | a token at the front contributes its name and scanning resumes after it |
| Template.MatchesTwoTokens | src/utils/workflowUtils.ts:58-59 | two tokens in brace-free text yield their two names in order |
| Template.MatchesSkipSafe | src/utils/workflowUtils.ts:58 | text whose braces are never doubled contributes no match |
| Template.BraceSafeLone | src/utils/workflowUtils.ts:54 | a single `{` between brace-free texts can never open a match |
| Template.MatchesInterleave | src/utils/workflowUtils.ts:58-60 | brace-safe text interleaved with tokens yields exactly the token names, in order |
| Template.MatchesJoin | src/utils/workflowUtils.ts:58-60 | a text joined by one token yields that name once per separator |
| Template.GitCommandArguments | src/utils/workflowUtils.ts:53-63 | `git add {{files}} && git commit -m "{{message}}"` yields `files`, `message` |
| Template.GitCommandPieces | src/utils/workflowUtils.ts:58-60 | the same command has exactly the matches `files`, `message` |
| Template.ReplaceArguments | src/utils/workflowUtils.ts:65-74 | the `forEach` yields the in-order fold of the passes; an empty mapping leaves the command unchanged |
| Template.ReplaceAllAbsent | src/utils/workflowUtils.ts:70 | a pass whose token does not occur leaves the text unchanged |
| Template.ReplaceAllSplit | src/utils/workflowUtils.ts:70 | a pass distributes over a split that cuts no occurrence |
| Template.TokensApart | src/utils/workflowUtils.ts:69 | an occurrence of a plain name's token ends before any later token begins |
| Template.TokensAtSamePlace | src/utils/workflowUtils.ts:69 | two tokens of plain names at the same place have the same name |
| Template.TokenNotInToken | src/utils/workflowUtils.ts:69 | the token of one plain name never occurs inside another's |
| Template.NoBraceNoToken | src/utils/workflowUtils.ts:69 | text without `{` holds no token |
| Template.ReplaceAtToken | src/utils/workflowUtils.ts:70 | a pass rewrites the first occurrence and continues after it |
| Template.ReplaceTokenJoin | src/utils/workflowUtils.ts:70 | a pass replaces every occurrence of the token: the text joined by the token becomes the text joined by the value |
| Template.PassKeepsToken | src/utils/workflowUtils.ts:69-70 | a pass for another plain name keeps a token in the text |
| Template.UnboundTokenKept | src/utils/workflowUtils.ts:68-71 | a token whose name has no entry stays in the result literally |
| Template.SubstitutedAppend | src/utils/workflowUtils.ts:68-71 | substituting `a ++ b` is substituting `a`, then `b` on its result |
| Template.SubstitutionOrderMatters | src/utils/workflowUtils.ts:68-71 | for two distinct plain names, a value holding the second token is rewritten when the second entry comes after the first, and kept when it comes before |
| Template.RepeatedTokenReplaced | src/utils/workflowUtils.ts:69-70 | with the global flag, every repetition of a token is replaced |
| WorkflowUtils.InvalidShells | src/utils/workflowUtils.ts:88-89 | the offending shells are exactly those not in zsh, bash, fish |
| WorkflowUtils.Undefined | src/utils/workflowUtils.ts:99 | the undefined names are exactly the used names not declared |
| WorkflowUtils.MissingArguments | src/utils/workflowUtils.ts:96-99 | the missing names are duplicate-free, and are exactly the placeholders with no declared argument; the editor's warning list (src/components/workflows/WorkflowEditor.tsx:113-115) is the same computation on the form |
| WorkflowUtils.ValidateWorkflow | src/utils/workflowUtils.ts:76-107 | the pushes produce the name, command, shell and argument checks' messages, concatenated in that order |
| WorkflowUtils.ShellsMessageKind | src/utils/workflowUtils.ts:91 | the shell message is recognised as the invalid-shells kind |
| WorkflowUtils.UndefinedMessageKind | src/utils/workflowUtils.ts:102 | the argument message is recognised as the undefined-arguments kind |
| WorkflowUtils.PieceKinds | src/utils/workflowUtils.ts:79-104 | each check contributes at most one message, of its own kind |
| WorkflowUtils.ErrorsInOrder | src/utils/workflowUtils.ts:79-104 | at most four messages, each kind at most once, in the fixed order name, command, shells, arguments |
| WorkflowUtils.NameErrorIff | src/utils/workflowUtils.ts:79-81 | "Name is required" is reported exactly when the trimmed name is empty or absent |
| WorkflowUtils.CommandErrorIff | src/utils/workflowUtils.ts:83-85 | "Command is required" is reported exactly when the trimmed command is empty or absent |
| WorkflowUtils.ShellErrorIff | src/utils/workflowUtils.ts:87-93 | an invalid-shells message is reported exactly when some shell is invalid, and it lists the offenders |
| WorkflowUtils.ArgumentErrorIff | src/utils/workflowUtils.ts:96-104 | an undefined-arguments message is reported exactly when the command uses an undeclared name, and it lists them |
| WorkflowUtils.CommandOfArguments | src/utils/workflowUtils.ts:96 | missing arguments can only be found in a non-empty command |
| WorkflowUtils.InvalidShellsListed | src/utils/workflowUtils.ts:89 | offending shells stay in input order with their repetitions |
| WorkflowUtils.MissingInFirstOccurrenceOrder | src/utils/workflowUtils.ts:97-99 | missing names are placeholders of the command, listed by first occurrence |
| WorkflowUtils.ValidIff | src/utils/workflowUtils.ts:76-107 | no errors exactly when name and command have text, every shell is valid and every placeholder is declared |
| WorkflowUtils.ShellErrorsEmptyIff | src/utils/workflowUtils.ts:87-93 | the shell check is silent exactly when all shells are valid |
| WorkflowUtils.ArgumentErrorsEmptyIff | src/utils/workflowUtils.ts:96-104 | the argument check is silent exactly when every placeholder is declared |
| WorkflowUtils.ParseWorkflowYaml | src/utils/workflowUtils.ts:4-32 | a successful parse returns the decoded record unchanged |
| WorkflowUtils.ParseAcceptsIff | src/utils/workflowUtils.ts:4-32 | the parse succeeds exactly when name and command are non-empty and all shells valid; a YAML error is reported as "Invalid YAML: " and its reason |
| WorkflowUtils.ParseFirstFailureWins | src/utils/workflowUtils.ts:9-22 | the name check comes first, then the command, then the shells |
| WorkflowUtils.TrimmedNonEmpty | src/utils/workflowUtils.ts:79 | text that is non-empty after trimming is non-empty |
| WorkflowUtils.ValidImpliesParses | src/utils/workflowUtils.ts:9-25 | every record that validates is accepted by the parser unchanged |
| WorkflowUtils.BlankNameParsesButFailsValidation | src/utils/workflowUtils.ts:9 | a name of one space passes the parser yet fails validation |
| WorkflowUtils.ShellMessagesDiffer | src/utils/workflowUtils.ts:21 | the parser's shell message adds the valid list, and is not among the validator's messages |
| WorkflowUtils.WorkflowToYaml | src/utils/workflowUtils.ts:34-43 | the cleaning loop yields the cleaned key list of the workflow, with the keys in the order the `Workflow` type declares them |
| WorkflowUtils.CleanedAppend | src/utils/workflowUtils.ts:38-43 | cleaning is applied key by key, independently |
| WorkflowUtils.CleanedKeepsExactly | src/utils/workflowUtils.ts:38-43 | a key stays exactly when its value is not undefined, null or an empty array |
| WorkflowUtils.LookupCleaned | src/utils/workflowUtils.ts:38-43 | reading a key of the cleaned object gives its value, or nothing if it was dropped |
| WorkflowUtils.ReadBack | src/utils/workflowUtils.ts:38-43 | each declared key reads back its value, unless the cleaning dropped it |
| WorkflowUtils.CleanRoundTrip | src/utils/workflowUtils.ts:34-43 | reading the cleaned object back gives the workflow with empty lists dropped, and cleaning that again changes nothing |
| WorkflowUtils.CleanedNormalized | src/utils/workflowUtils.ts:38-43 | a workflow and its normalized form clean to the same object |
| WorkflowUtils.NormalizedValidation | src/utils/workflowUtils.ts:76-107 | dropping empty lists does not change the validation result |
| WorkflowUtils.GitCommandScan | src/utils/workflowUtils.ts:114 | the first sample command has the placeholders `files`, `message` |
| WorkflowUtils.MatchesThreeTokens | src/utils/workflowUtils.ts:58-60 | three tokens in brace-free text yield their three names in order |
| WorkflowUtils.DockerCommandScan | src/utils/workflowUtils.ts:135 | the second sample command matches `container` twice, then `image` |
| WorkflowUtils.ComponentCommandScan | src/utils/workflowUtils.ts:155 | the third sample command matches `component_name` six times |
| WorkflowUtils.MockWorkflowsValid | src/utils/workflowUtils.ts:110-168 | every sample workflow validates with no error |
| WorkflowUtils.GitMockValid | src/utils/workflowUtils.ts:111-131 | the git sample validates |
| WorkflowUtils.DockerMockValid | src/utils/workflowUtils.ts:132-151 | the docker sample validates |
| WorkflowUtils.ComponentMockValid | src/utils/workflowUtils.ts:152-167 | the component sample validates |
| WorkflowList.FilteredExactly | src/components/workflows/WorkflowList.tsx:27-48 | a workflow is listed exactly when it passes search, tag and shell filters at once, as often as it is stored |
| WorkflowList.LowerContains | src/components/workflows/WorkflowList.tsx:30-35 | lower-casing both sides keeps a substring a substring |
| WorkflowList.LowerTwice | src/components/workflows/WorkflowList.tsx:30 | lower-casing twice is lower-casing once |
| WorkflowList.EmptyQueryMatchesAll | src/components/workflows/WorkflowList.tsx:30-35 | an empty query matches every workflow |
| WorkflowList.SearchIgnoresQueryCase | src/components/workflows/WorkflowList.tsx:30 | the case of the query never changes the result |
| WorkflowList.SearchFinds | src/components/workflows/WorkflowList.tsx:31-35 | a query found in the name, the command or a tag matches |
| WorkflowList.ClearedFiltersKeepAll | src/components/workflows/WorkflowList.tsx:69-73 | with the filters cleared every workflow is listed, in order |
| WorkflowList.InsertKeepsNewestFirst | src/components/workflows/WorkflowList.tsx:53-57 | inserting into a newest-first list keeps it newest first |
| WorkflowList.InsertPermutes | src/components/workflows/WorkflowList.tsx:53-57 | inserting adds exactly the one element and keeps every other |
| WorkflowList.InsertAtTime | src/components/workflows/WorkflowList.tsx:53-57 | an inserted workflow goes in front of every workflow with its own timestamp, and those keep their order |
| WorkflowList.InsertAtEnd | src/components/workflows/WorkflowList.tsx:53-57 | a workflow older than every listed one is placed last |
| WorkflowList.SortNewestFirst | src/components/workflows/WorkflowList.tsx:49-58 | the sorted list is newest first and a permutation of the input |
| WorkflowList.SortStable | src/components/workflows/WorkflowList.tsx:49-58 | the sort is stable: for every timestamp, the workflows with it come in their input order |
| WorkflowList.SortKeepsSorted | src/components/workflows/WorkflowList.tsx:49-58 | a list already newest first is unchanged |
| WorkflowList.ThreeNewestFirst | src/components/workflows/WorkflowList.tsx:53-57 | three workflows with increasing times come out reversed |
| WorkflowList.SamplesNewestFirst | src/components/workflows/WorkflowList.tsx:21 | the default sort shows the samples as component, docker, git |
| WorkflowList.Listed | src/components/workflows/WorkflowList.tsx:27-59 | the listing is newest first, holds exactly the stored workflows that pass the filters, and holds each as often as the filter keeps it |
| WorkflowList.TagsOf | src/components/workflows/WorkflowList.tsx:24 | the flattened tags are exactly the tags of some workflow |
| WorkflowList.ShellsOf | src/components/workflows/WorkflowList.tsx:25 | the flattened shells are exactly the shells of some workflow |
| WorkflowList.AllTagsOffered | src/components/workflows/WorkflowList.tsx:24 | every tag in use is offered once, in order of first occurrence |
| WorkflowList.AllShellsOffered | src/components/workflows/WorkflowList.tsx:25 | every shell in use is offered once, in order of first occurrence |
| WorkflowList.ToggleFlips | src/components/workflows/WorkflowList.tsx:61-67 | toggling flips the tag's selection and keeps every other tag's |
| WorkflowList.ToggleAppends | src/components/workflows/WorkflowList.tsx:61-67 | an unselected tag is appended at the end |
| WorkflowList.ToggleTwiceRestores | src/components/workflows/WorkflowList.tsx:61-67 | toggling an unselected tag twice restores the selection |
| WorkflowList.ToggleKeepsNoDups | src/components/workflows/WorkflowList.tsx:61-67 | toggling keeps the selection free of duplicates |
| WorkflowList.WorkflowListView.constructor | src/components/workflows/WorkflowList.tsx:18-21 | the view starts with no query, no tag, shell "all" and sort by update time |
| WorkflowList.WorkflowListView.SetSearchQuery | src/components/workflows/WorkflowList.tsx:97 | only the query changes |
| WorkflowList.WorkflowListView.SetSelectedShell | src/components/workflows/WorkflowList.tsx:101 | only the shell filter changes |
| WorkflowList.WorkflowListView.SetSortBy | src/components/workflows/WorkflowList.tsx:114 | only the sort order changes |
| WorkflowList.WorkflowListView.ToggleTag | src/components/workflows/WorkflowList.tsx:61-67 | the selection becomes the toggled one; nothing else changes |
| WorkflowList.WorkflowListView.ClearFilters | src/components/workflows/WorkflowList.tsx:69-73 | query, tags and shell are reset; the sort order stays |
| WorkflowEditor.ChangeTouchesOneKey | src/components/workflows/WorkflowEditor.tsx:52-53 | a form change sets its own key to the new value and leaves the other eight keys |
| WorkflowEditor.DropIndex | src/components/workflows/WorkflowEditor.tsx:92 | filtering by index drops exactly the element at a valid index, and nothing at an invalid one |
| WorkflowEditor.DropIndexShifts | src/components/workflows/WorkflowEditor.tsx:91-94 | after removal the earlier arguments stay in place and the later ones move down by one |
| WorkflowEditor.AppendNewKeepsNoDups | src/components/workflows/WorkflowEditor.tsx:69-74 | appending a tag not yet present keeps the tags duplicate-free |
| WorkflowEditor.Editor.constructor | src/components/workflows/WorkflowEditor.tsx:26-50 | the form shows the given workflow or the blank form; the YAML tab holds the given workflow's serialization, or empty text when there is none; the errors are the form's own |
| WorkflowEditor.Editor.HandleFormChange | src/components/workflows/WorkflowEditor.tsx:47-56 | the field is set, the YAML tab shows the new form, and the errors are re-validated |
| WorkflowEditor.Editor.HandleYamlChange | src/components/workflows/WorkflowEditor.tsx:58-67 | the typed text is kept; a record that parses replaces the form and is validated, otherwise the only error is the parse message and the form stays |
| WorkflowEditor.Editor.SetNewTag | src/components/workflows/WorkflowEditor.tsx:239 | only the tag input changes |
| WorkflowEditor.Editor.AddTag | src/components/workflows/WorkflowEditor.tsx:69-74 | a non-empty, new trimmed tag is appended and the input cleared; otherwise nothing changes; tags stay duplicate-free |
| WorkflowEditor.Editor.RemoveTag | src/components/workflows/WorkflowEditor.tsx:76-78 | every occurrence of the tag goes, the others stay in order |
| WorkflowEditor.Editor.AddArgument | src/components/workflows/WorkflowEditor.tsx:80-83 | one blank argument is appended, so the list grows by one |
| WorkflowEditor.Editor.UpdateArgument | src/components/workflows/WorkflowEditor.tsx:85-89 | only the given field of the argument at the index changes; the length stays |
| WorkflowEditor.Editor.RemoveArgument | src/components/workflows/WorkflowEditor.tsx:91-94 | the argument at the index is dropped, the rest keep their order |
| WorkflowEditor.Editor.HandleShellChange | src/components/workflows/WorkflowEditor.tsx:96-103 | checking appends the shell without de-duplication; unchecking removes every occurrence |
| WorkflowEditor.Editor.HandleSave | src/components/workflows/WorkflowEditor.tsx:105-111 | the form is handed on exactly when no error is shown, which for an up-to-date form means it is valid |
| WorkflowCard.Get | src/components/workflows/WorkflowCard.tsx:196 | a key reads nothing exactly when no entry has it, and otherwise the value of an entry with it |
| WorkflowCard.Put | src/components/workflows/WorkflowCard.tsx:46 | the spread update keeps the number of entries for an existing key and adds one for a new key |
| WorkflowCard.PutKeysInPlace | src/components/workflows/WorkflowCard.tsx:46 | every key keeps its place, and a new key is appended at the end |
| WorkflowCard.PutKeepsUnique | src/components/workflows/WorkflowCard.tsx:46 | the spread update keeps the keys unique |
| WorkflowCard.PutGet | src/components/workflows/WorkflowCard.tsx:46 | after the update the key reads the new value and every other key is unchanged |
| WorkflowCard.LastDefault | src/components/workflows/WorkflowCard.tsx:35-39 | the value is a non-empty default of an argument of that name, and is absent when no such argument has one |
| WorkflowCard.SeededReadsLastDefault | src/components/workflows/WorkflowCard.tsx:34-39 | each name is seeded with the last non-empty default given for it, and is absent if none |
| WorkflowCard.SeededUniqueKeys | src/components/workflows/WorkflowCard.tsx:34-39 | the seeded values have each name once |
| WorkflowCard.UnfilledPlaceholderStays | src/components/workflows/WorkflowCard.tsx:57 | a placeholder with no value stays in the command as typed |
| WorkflowCard.Card.constructor | src/components/workflows/WorkflowCard.tsx:26-28 | the dialog starts closed, with no values and an empty command |
| WorkflowCard.Card.CommandArguments | src/components/workflows/WorkflowCard.tsx:30 | one input per distinct placeholder, each naming a token of the command |
| WorkflowCard.Card.HandleExecute | src/components/workflows/WorkflowCard.tsx:32-43 | the defaults are seeded, the raw command is shown and the dialog opens |
| WorkflowCard.Card.HandleArgumentChange | src/components/workflows/WorkflowCard.tsx:45-49 | the value is recorded and the shown command is the command substituted with the new values |
| WorkflowCard.Card.ExecuteCommand | src/components/workflows/WorkflowCard.tsx:56-61 | the command handed on is the substituted one and the dialog closes; the values stay |
| WorkflowsPage.DecimalString | src/pages/WorkflowsPage.tsx:44 | `toString()` of the clock gives digits without a leading zero |
| WorkflowsPage.DecimalRoundTrip | src/pages/WorkflowsPage.tsx:44 | reading the id as a number gives the clock value back |
| WorkflowsPage.DistinctClocksDistinctIds | src/pages/WorkflowsPage.tsx:44 | different clock values give different ids |
| WorkflowsPage.ReplaceByIdAt | src/pages/WorkflowsPage.tsx:38 | the recursive `map` works in place: each workflow with the id becomes the update and every other stays at its position |
| WorkflowsPage.ReplaceByIdExactly | src/pages/WorkflowsPage.tsx:32-38 | afterwards the only workflow with the id is the update, the workflows with other ids are all kept and nothing else appears, and a list without the id is unchanged |
| WorkflowsPage.ReplaceKeepsIds | src/pages/WorkflowsPage.tsx:32-38 | an update under the same id leaves the list of ids unchanged |
| WorkflowsPage.PrependNewIdKeepsUnique | src/pages/WorkflowsPage.tsx:42-48 | prepending a workflow with a fresh id keeps the ids unique |
| WorkflowsPage.Page.constructor | src/pages/WorkflowsPage.tsx:15-17 | the page starts in the list view with the samples and nothing being edited |
| WorkflowsPage.Page.HandleCreateNew | src/pages/WorkflowsPage.tsx:19-22 | the create view opens with nothing being edited |
| WorkflowsPage.Page.HandleEditWorkflow | src/pages/WorkflowsPage.tsx:24-27 | the edit view opens on the chosen workflow |
| WorkflowsPage.Page.HandleSaveWorkflow | src/pages/WorkflowsPage.tsx:29-53 | editing replaces by id, keeping id and creation time; creating prepends a workflow with a clock id and times; the page returns to the list |
| WorkflowsPage.Page.HandleCancel | src/pages/WorkflowsPage.tsx:55-58 | the list view returns, nothing is edited and the stored list is untouched |

## Left out

- The YAML library. `yaml.load` is the parameter `Loaded`: a decoded record, or a syntax error with its reason. `yaml.dump` is not modelled. The model keeps the cleaned keys and values it would receive, in the declared key order (see the next line), and the editor's YAML tab records the workflow it shows (`YamlText.Dumped`) rather than the text.
- WorkflowUtils.WorkflowToYaml: the kept keys come in the order the `Workflow` type declares them (name, command, tags, description, source_url, author, author_url, shells, arguments). The code copies the object and deletes keys, so it keeps the object's own insertion order, and `yaml.dump` with `sortKeys: false` emits that order. A workflow object written with `description` before `tags`, as all three samples in src/utils/workflowUtils.ts:114-116, 135-137 and 155-157 are, is dumped with `description` first; the model puts `tags` first. The set of keys and their values is the same.
- Documents that decode to something other than a workflow record are not modelled. The code handles them as follows. An empty document or `null` makes `parsed.name` throw a `TypeError`. A scalar or a list (`5`, `hello`, `[1, 2]`) has no `name`, so it fails with "Workflow name is required". A non-zero number or any list as `name` or `command` is truthy and passes those checks; `0` (like `.nan`) is falsy and fails like an empty string, with "Workflow name is required" or "Workflow command is required". A truthy `shells` that is not a list makes `.filter` throw a `TypeError`. Fields of other wrong types are returned as they are.
- Keys outside the nine declared fields are not modelled. The parser returns the decoded object as it is (src/utils/workflowUtils.ts:25), so such keys stay. `workflowToYaml` copies and dumps every key of the object (lines 35-38), and the page stores them through `...workflowData` when it saves. The validator ignores them. The model's `Workflow` has no place for them, so a decoded record, its serialization and the stored workflow carry only the declared fields.
- Template.ReplaceArguments: requires names without regex metacharacters and values without `$`. The code builds a `RegExp` from the raw name, so such names change the matching or throw, and `$` patterns in a value are expanded. Only the literal case is modelled.
- WorkflowCard.Card.HandleArgumentChange: carries the same precondition on the values, for the same reason.
- WorkflowCard.Card.ExecuteCommand: carries the same precondition.
- WorkflowEditor.Editor.UpdateArgument: requires an index inside the argument list. The UI only passes such indices (src/components/workflows/WorkflowEditor.tsx:294-322 takes them from `formData.arguments?.map`). An index equal to the length would append an argument that holds only the edited field, because the spread of `undefined` is `{}` (lines 86-88); a larger index would leave holes in the array. Neither is modelled.
- Sorting by name is not modelled. It uses the host's locale collation (`localeCompare`). The sort selector's `ByName` value exists, but no listing is defined for it.
- `toLowerCase` and `trim` are modelled on ASCII letters and an explicit white-space set only.
- In the list, card and validator, an absent name or command reads as the empty string. The declared type makes both required. The search would throw on an absent name (src/components/workflows/WorkflowList.tsx:32), and on an absent command whenever neither the name nor the description matched (line 34).
- The ordering `Object.entries` gives integer-like keys is not modelled. Argument values are kept in insertion order.
- Clock reads are parameters of `HandleSaveWorkflow`, one per read, and timestamps are integers of milliseconds. `Date` objects are not modelled.
- Clipboard writes, toasts, rendering, the active tab, the disabled save button and JSX are not modelled.
- React's scheduling of state updates and effects is not modelled. The effect that validates after every change of the form is modelled as a call at the end of each handler that changes the form.
- The editor's construction covers its mount with or without a workflow. A later change of the `workflow` prop re-runs the same effect and is not modelled separately.
- While editing, the form holds a stored workflow with its `id` and timestamps, and those keys would also be serialized. The model's `Workflow` has no such keys.
- The sample commands are written as concatenations of text and `Token(...)` (or a join by one token). This is the same text as the source's literals.
- Uniqueness of stored ids across creations is not an invariant of `Page`. A fresh id depends on the clock, and `PrependNewIdKeepsUnique` states the condition.
- The files `src/lib/animations.ts`, `src/components/landing/MultiThreadingSection.tsx`, `src/App.tsx`, `src/config/environment.ts` and `src/lib/types.ts` hold only constants, markup, routing or unrelated types. They are not part of this model.

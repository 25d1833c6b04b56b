# ask-user view: answer state machine and view derivations in Dafny

This project models the client side of the "ask user" view: a multiple-choice question
rendered inside a host application, whose answer is sent back to the host as one text
message. It covers:

- the single-question root (`src/mcp-app.tsx`): the answer state (`SelectionState`),
  the three transitions `handleSelect`, `handleOtherToggle` and `handleOtherChange`,
  the response text built by `buildResponse`, the `canSubmit` rule, `handleSubmit`, the
  defaults applied to a tool input and the choice of screen (error, loading, submitted,
  editing);
- the pure view derivations of the multi-question components: the tab strip
  (`TabBar`), one question panel with its virtual cursor (`QuestionPanel`), the option
  list (`OptionList`);
- the "Other" row (`OtherInput`): the remembered previous `isSelected` that makes the
  text field focus itself once, on the render where "Other" turns on, and its key policy.

Modules, one per source file or concern: `Wrappers` (optional values), `Text` (`trim`
and `join`), `Types` (`src/types/index.ts`), `Selection` and `Response` (the answer
transitions and the response text of `src/mcp-app.tsx`), `App` (the root as a class
with its fields), `TabBar`, `OptionList`, `QuestionPanel`, `OtherInput`.

Representation choices:

- A JavaScript `Set<string>` is a duplicate-free `seq<string>` in insertion order,
  which is the order `forEach` visits it in. `delete` is `Selection.Remove`, `add` of an
  absent value appends.
- `undefined` and `null` are `Option.None`. An `Option` record's `label` field is
  called `labelText`, because `label` is a Dafny keyword.
- `trim()` strips a fixed set of white-space characters (`Text.IsWhitespace`).
- The transitions are the updater functions handed to `setSelection`, so they are pure
  functions from the previous state. The class `App.AskUserApp` holds `config`,
  `selection` and `submitted` and applies them.
- The host connection is outside the model. Whether an app object exists, whether it
  is connected, whether it reported an error and whether `sendMessage` succeeded are
  parameters. `HandleSubmit` returns the message it sends, or `None`.
- `OtherInput` is a class whose field is the ref `prevIsSelectedRef`. `Render` is one
  render. `Toggles` gives the flags of a whole sequence of renders, for the lemmas.

Notable behaviours of the code:

- `buildResponse` lists labels in the order the values were selected, not in option
  order. Deselecting a value and selecting it again moves it to the end
  (`Selection.SelectTwiceMovesToEnd`).
- In single-select mode, switching "Other" off keeps the previous `selected`. Under
  the single-select invariant that set is already empty.
- The single-question `canSubmit` has no notion of required questions.
- A new tool input replaces the configuration but does not reset the answer state.

## Model

| member | source | states |
|---|---|---|
| `Text.TrimStart` | src/mcp-app.tsx:129-130 | the result is the suffix left after cutting off only leading white space, and it does not start with white space |
| `Text.TrimEnd` | src/mcp-app.tsx:129-130 | the result is the prefix left after cutting off only trailing white space, and it does not end with white space |
| `Text.Trim` | src/mcp-app.tsx:129-130 | the trimmed text neither starts nor ends with white space |
| `Text.TrimIsSlice` | src/mcp-app.tsx:129-130 | the trimmed text is a slice `s[i..j]` of the input, and only white space is cut off on either side |
| `Text.TrimEmptyIff` | src/mcp-app.tsx:156-157 | the trimmed text is empty exactly when the input is all white space |
| `Text.TrimIdempotent` | src/mcp-app.tsx:129-130 | trimming twice gives the same text as trimming once |
| `Text.Join` | src/mcp-app.tsx:133 | joining no parts gives the empty text; otherwise the join starts with the first part and ends with the last, so no separator leads or trails |
| `Text.JoinLength` | src/mcp-app.tsx:133 | a join is as long as all the parts together plus one separator per pair of neighbours |
| `Text.JoinAppend` | src/mcp-app.tsx:133 | joining two non-empty lists one after the other is the join of the first, one separator, and the join of the second |
| `Text.JoinEmptyIff` | src/mcp-app.tsx:133 | with a non-empty separator, a join is empty only for no parts or a single empty part |
| `Selection.Remove` | src/mcp-app.tsx:72-73 | `Set.delete`: the members are the old ones minus the value; an absent value changes nothing; duplicate-freedom is kept |
| `Selection.RemoveCutsOut` | src/mcp-app.tsx:72-73 | deleting the value at position k of a duplicate-free set leaves the others in their insertion order: `s[..k] + s[k+1..]` |
| `Selection.Select` | src/mcp-app.tsx:66-90 | multi-select appends an absent value at the end of the insertion order and deletes a present one in place (`Remove`), keeping "Other"; single-select leaves exactly the value selected and forces "Other" off; the text is kept and the selection stays duplicate-free |
| `Selection.ToggleOther` | src/mcp-app.tsx:93-109 | "Other" flips and its text is kept; multi-select keeps `selected`; single-select clears it when turning on and keeps it when turning off |
| `Selection.ChangeOtherText` | src/mcp-app.tsx:112-114 | the text becomes the typed text verbatim, untrimmed, and nothing else changes |
| `Selection.RemoveAppended` | src/mcp-app.tsx:72-76 | deleting a value that was just added to a set without it gives the set back in the same order |
| `Selection.SelectTwiceRestoresSet` | src/mcp-app.tsx:70-76 | multi-select: clicking the same option twice restores the selected set, the "Other" flag and the text |
| `Selection.SelectTwiceRestoresState` | src/mcp-app.tsx:70-76 | multi-select: clicking an unselected option twice restores the whole state, insertion order included |
| `Selection.SelectTwiceMovesToEnd` | src/mcp-app.tsx:72-76 | multi-select: clicking any selected option twice gives the set with it deleted from its place and appended at the end |
| `Selection.PicksInClickOrder` | src/mcp-app.tsx:70-76 | multi-select: clicking options that are not yet selected, each once, selects them after the current ones in click order, leaving "Other" and its text alone |
| `Selection.ToggleOtherTwice` | src/mcp-app.tsx:93-108 | toggling "Other" twice restores the state in multi-select; in single-select it restores everything except `selected`, which ends up empty |
| `Selection.RunKeepsSingleSelectValid` | src/mcp-app.tsx:77-107 | single-select: any interactions keep at most one option selected, and no option while "Other" is on |
| `Selection.SingleSelectFromInitial` | src/mcp-app.tsx:10-14 | from the initial state, every interaction sequence on a single-select question ends with at most one option and never an option together with "Other" |
| `Selection.RunKeepsNoDuplicates` | src/mcp-app.tsx:68-81 | any interactions keep `selected` free of duplicates, as a `Set` |
| `Selection.RunKeepsOtherText` | src/mcp-app.tsx:83-114 | clicks on options and on "Other" never change the "Other" text; only typing does |
| `Response.IndexOfValue` | src/mcp-app.tsx:122 | the index of the first option carrying the value, or -1 exactly when no option carries it |
| `Response.FindOption` | src/mcp-app.tsx:122 | `find` gives nothing exactly when no option carries the value; otherwise the first option of the list that carries it |
| `Response.BuildResponse` | src/mcp-app.tsx:117-134 | the loop that pushes labels and the "Other" part computes the response text: labels of the selected values in insertion order, unknown values skipped, then `Other: <trimmed>` when "Other" is on with non-blank text, joined by ", " |
| `Response.LabelsAt` | src/mcp-app.tsx:120-126 | when every selected value names an option, there is one label per value, the label of that value's option, in selection order |
| `Response.LabelsOfUnknown` | src/mcp-app.tsx:122-125 | a selection whose values all name no option contributes no labels |
| `Response.LabelsAppend` | src/mcp-app.tsx:120-126 | the labels of two runs of values visited one after the other are the labels of the first followed by those of the second |
| `Response.LabelsRemoveUnknown` | src/mcp-app.tsx:120-126 | in any selection, a value that names no option changes nothing: the labels equal those of the selection without it |
| `Response.ResponseText` | src/mcp-app.tsx:117-134 | no parts give the empty response; otherwise it starts with the first part, and it ends with `Other: <trimmed>` whenever that part is present |
| `Response.CanSubmit` | src/mcp-app.tsx:156-157 | submit is enabled iff an option is selected, or "Other" is on and its text has a character that is not white space |
| `Response.CanSubmitIffParts` | src/mcp-app.tsx:156-157 | when the selected values name options, submit is enabled exactly when the response has at least one part |
| `Response.EmptyStateResponse` | src/mcp-app.tsx:117-134 | the untouched state yields the empty response |
| `Response.ResponseFollowsClickOrder` | src/mcp-app.tsx:120-133 | starting from the initial state (via `PicksInClickOrder`), clicking Dogs then Cats on a multi-select question with options Cats and Dogs selects `["d", "c"]` and gives "Dogs, Cats": labels follow click order, not option order |
| `App.ConfigFromArgs` | src/mcp-app.tsx:32-38 | a tool input's question, header and options are kept; a missing `multiSelect` means false and a missing `allowOther` means true |
| `App.SubmitText` | src/mcp-app.tsx:146 | the message starts with exactly "User selected: " and continues with the response unchanged |
| `App.ScreenFor` | src/mcp-app.tsx:159-217 | error wins, then loading (not connected or no question), then the submitted summary showing the response, then the editor, whose "Other" row shows iff allowed and whose submit button is enabled iff `canSubmit` |
| `App.AskUserApp.constructor` | src/mcp-app.tsx:9-15 | the root starts with no question, the empty answer state and not submitted |
| `App.AskUserApp.OnToolInput` | src/mcp-app.tsx:23-39 | a tool input stores the configuration with defaults applied and keeps the answer state |
| `App.AskUserApp.HandleSelect` | src/mcp-app.tsx:66-90 | the answer state becomes `Select` of the old one, single-select when no question is loaded; nothing else changes |
| `App.AskUserApp.HandleOtherToggle` | src/mcp-app.tsx:93-109 | the answer state becomes `ToggleOther` of the old one; nothing else changes |
| `App.AskUserApp.HandleOtherChange` | src/mcp-app.tsx:112-114 | the answer state becomes `ChangeOtherText` of the old one; nothing else changes |
| `App.AskUserApp.HandleSubmit` | src/mcp-app.tsx:137-153 | nothing is sent without an app or a question; otherwise "User selected: " plus the response is sent; `submitted` becomes true only when the send succeeds, and then the submitted screen shows the response |
| `TabBar.CurrentIndex` | src/components/TabBar.tsx:12 | the first index whose question equals the active tab, or -1 exactly when there is none |
| `TabBar.Pill` | src/components/TabBar.tsx:33-59 | a pill switches to its question and shows its header; it is active iff it is the active tab, answered iff its question is answered, shows the check iff answered and not active, past iff before the current index or on the submit step |
| `TabBar.Render` | src/components/TabBar.tsx:11-67 | progress is the number of answered questions, total the number of questions; one pill per question, active iff it is the active tab, past iff before the current index or on the submit step, checkmark iff answered and not active; a pill switches to its question, the submit pill to "submit" |
| `TabBar.OnSubmitStep` | src/components/TabBar.tsx:11-36 | on the submit step there is no current question, the submit pill is active, no question pill is active and all are past |
| `TabBar.OnQuestion` | src/components/TabBar.tsx:12-36 | with distinct questions, on question k the current index is k, only pill k is active, exactly the pills before it are past |
| `TabBar.ActiveIsNotPast` | src/components/TabBar.tsx:34-54 | an active pill is never past and never shows the answered checkmark |
| `OptionList.Rows` | src/components/OptionList.tsx:15-22 | one row per option in order; a row is selected iff its value is in the selection and focused iff the cursor index equals its position |
| `OptionList.AtMostOneFocused` | src/components/OptionList.tsx:22 | at most one row is focused, and none without a cursor index |
| `OptionList.SingleSelectionMarksOneRow` | src/components/OptionList.tsx:19 | with distinct values, a selection of at most one value marks at most one row |
| `OptionList.SelectedRowsMatchSelection` | src/components/OptionList.tsx:19 | a value shows as a selected row iff it is selected and some option carries it |
| `QuestionPanel.OtherIndex` | src/components/QuestionPanel.tsx:29 | the "Other" position is the number of options when "Other" is offered, and -1 otherwise |
| `QuestionPanel.OtherIsFocused` | src/components/QuestionPanel.tsx:29-30 | "Other" is highlighted iff the cursor is defined and equals the number of options (with "Other" offered) or -1 (without); a non-negative cursor highlights it only when it is offered |
| `QuestionPanel.NextIsFocused` | src/components/QuestionPanel.tsx:31 | the next button is highlighted iff the cursor is defined and equals `nextIndex`; never without a cursor |
| `QuestionPanel.ListFocus` | src/components/QuestionPanel.tsx:43 | the option list receives the cursor only when it is defined and below the number of options |
| `QuestionPanel.NextLabel` | src/components/QuestionPanel.tsx:73 | the next button reads "Review & Submit" iff this is the last question, else "Continue" |
| `QuestionPanel.Render` | src/components/QuestionPanel.tsx:29-73 | the panel forwards the clipped cursor to the option list, renders the "Other" row iff allowed with the selection's flag and text, and marks the next button iff the cursor is on `nextIndex` |
| `QuestionPanel.Dispatch` | src/components/QuestionPanel.tsx:38-61 | a click on option i selects that option's value, a click on "Other" toggles it (only when rendered), the next button calls `onNext` |
| `QuestionPanel.CursorMarksOneTarget` | src/components/QuestionPanel.tsx:29-55 | with the next button after the option and "Other" positions, a cursor in [0, n) marks exactly its option row, n marks "Other" when offered, `nextIndex` marks the next button, and no two are marked together |
| `QuestionPanel.NoCursorNoMarks` | src/components/QuestionPanel.tsx:30-43 | without a cursor nothing on the panel is marked |
| `OtherInput.OtherInputState.constructor` | src/components/OtherInput.tsx:14 | the remembered value starts as the first render's `isSelected` |
| `OtherInput.OtherInputState.Render` | src/components/OtherInput.tsx:17-87 | `justToggled` iff on now and off before; afterwards the remembered value is the current one; the field exists iff "Other" is on and is focused only when `justToggled` |
| `OtherInput.RisingEdge` | src/components/OtherInput.tsx:17 | a toggle is reported iff the value now is on and differs from the remembered one |
| `OtherInput.Toggles` | src/components/OtherInput.tsx:14-18 | over a sequence of renders, one flag per render; render i reports a toggle iff it is on and the render before it (or the mount value, for the first) was off |
| `OtherInput.FirstRenderQuiet` | src/components/OtherInput.tsx:14-17 | the first render after mounting never reports a toggle |
| `OtherInput.NoConsecutiveToggles` | src/components/OtherInput.tsx:17-18 | two consecutive renders never both report a toggle |
| `OtherInput.OnKeyDown` | src/components/OtherInput.tsx:20-28 | Escape and Tab blur the field; every other key passes through |
| `OtherInput.Handle` | src/components/OtherInput.tsx:34-92 | the button calls `onToggle`; typing calls `onChange` with the text untrimmed, only while the field is shown; keys in the field blur it per the key policy |

## Left out

- Transport and tool registration (`main.ts`, `server.ts`, `api/index.ts`): HTTP and stdio transport, tool and resource registration, and a file read. They are I/O and calls into foreign libraries.
- The `useApp` connection and the asynchronous `sendMessage`. The model keeps only their outcomes, as parameters: app present, connected, error, send succeeded.
- The failure log line of `handleSubmit` (`console.error`). It is output only.
- Theme handling (`src/mcp-app.tsx:16`, `:41-63`): it only sets a document attribute.
- DOM effects: the `blur()` and `focus()` calls, CSS class strings, and the progress-bar width percentage. The width is floating-point presentation. The model keeps the decision to blur or focus, not the effect.
- `OptionButton`, `QuestionHeader` and `SubmitButton` markup, `useWindowFocus`, and the build configuration. The only logic in them is the submit button's `disabled` flag, which the editing screen's `submitEnabled` carries, and the option click reporting its value, which `QuestionPanel.Dispatch` carries.
- The multi-question root is not part of this model. It owns `activeTab`, `advance`, the upkeep of `answeredQuestions`, the keyboard hook and cursor clamping. `TabBar` and `QuestionPanel` take what it provides as parameters. Auto-advance, required-question gating and the multi-line response are therefore not modelled.
- `Text.IsWhitespace`: uses a fixed set of white-space characters, not every Unicode white-space and line-terminator character that JavaScript's `trim` strips.
- The 2–4 option bound of the tool schema. No modelled operation depends on it.
- `OtherInput.OtherInputState.Render`: is related to `Toggles` only through the shared `RisingEdge` test. No lemma runs the method over a sequence of renders.

# Todo document store: a Dafny model

This project models the in-memory document of a desktop todo-list
application: an ordered sequence of named lists, each holding tasks
(title, rich-text content, checked/unchecked status, creation time), together
with the selected list and the selected task (-1 for "none"). It covers:

- the store (`renderer.js`): its getters, its mutations (which change the
  lists in place with `push` and `splice`), and its actions, which commit those
  mutations and keep the two selection indices consistent. The most delicate
  rule is the choice of the list to select after a list is removed
  (`Model.NewListIndex`, `TodoStore.Store.RemoveListItem`);
- the page component's dirty tracking: `newFile`, a successful save and a
  finished read record a snapshot of the state. Before closing or loading,
  the window asks whether the current state differs from it
  (`Document.App.NeedsSave`);
- the search panel's scan over all lists and tasks.

Files:

- `js.dfy` holds the JavaScript built-ins the store relies on:
  `Array.prototype.splice(start, 1)`, with negative and out-of-range starts,
  and `String.prototype.trim`.
- `model.dfy` holds the datatypes, the selection invariant and the selection
  rule.
- `store.dfy` holds the store as a class whose methods update `list`,
  `listIndex` and `taskIndex`.
- `search.dfy` holds the scan, proved against a recursive specification, and
  its soundness, completeness and ordering lemmas.
- `app.dfy` holds the component: snapshot, save, read, start-up and search.

The snapshot the source keeps is `md5(JSON.stringify(store.state))`. Here
digesting is taken to be injective, so the snapshot is the state value itself
and "needs save" is state inequality. The serialised state holds both
selection indices. As a consequence, selecting another list or task also
makes the document need saving. The selection is also written to the file and
restored on load.

Behaviour of the code a reader may not expect:

- A failed parse on load is not reported and does not leave the dirty flag
  alone. See Findings.
- "Needs save" compares contents. An edit that restores the saved state
  reads as clean again.
- The selection is persisted with the document.
- `newFile` keeps the file the window is bound to, and saving to a file
  chosen in the save dialog does not bind the window to it.

## Model

| member | source | states |
|---|---|---|
| `Js.Splice` | renderer.js:77-81 | `splice(start, 1)`: an index in range removes exactly that element and keeps the others in order, as a multiset minus that element. A negative start counts from the end, and one below minus the length removes the first element. A start past the end removes nothing, and an empty array stays empty. |
| `Js.Trim` | renderer.js:834 | The trimmed query is empty exactly when every character is white space. Otherwise both its ends are non-white-space. It is the slice of the input left after cutting white space only, and all of it, from each end. |
| `Model.NewListIndex` | renderer.js:137-155 | Lists before the removed one keep their index and lists after it move down by one. For an in-range removal from a valid selection, the result lies in -1 ..< count-1. It is -1 exactly when nothing was selected or no list remains. A removed selection falls back to its predecessor, or to 0 when it was the first and others remain. |
| `Model.WithTask` | renderer.js:102-123 | Replacing one task leaves every other list, the list's name, the task count and every other task unchanged. |
| `TodoStore.Store.constructor` | renderer.js:19-24 | The initial state has no lists and nothing selected. |
| `TodoStore.Store.State` | renderer.js:20-24 | The serialised state holds the lists and both selection indices, so a change of any of them changes it. |
| `TodoStore.Store.ListCount` | renderer.js:26-28 | The number of lists. Under the selection invariant a selected list lies below it, and with no lists nothing is selected. |
| `TodoStore.Store.SelectedListItem` | renderer.js:29-32 | Defined exactly when `listIndex` is in range, and then it is that list. Under the selection invariant it is defined exactly when `listIndex` is not -1. |
| `TodoStore.Store.Name` | renderer.js:33-36 | Defined exactly when `listIndex` is in range, whatever `taskIndex` is. Under the selection invariant that is exactly when `listIndex` is not -1. When defined it is the name of the list at `listIndex`. |
| `TodoStore.Store.SelectedTaskList` | renderer.js:37-40 | The tasks of the list at `listIndex`, or the empty sequence when `listIndex` is out of range. Under the selection invariant a selected task index lies inside it. |
| `TodoStore.Store.TaskCount` | renderer.js:41-43 | The number of tasks of the list at `listIndex`, 0 when `listIndex` is out of range. Under the selection invariant a selected task index lies below it. |
| `TodoStore.Store.SelectedTask` | renderer.js:44-48 | Defined exactly when both indices point at a task, and then it is that task. Under the selection invariant it is defined exactly when `taskIndex` is not -1. |
| `TodoStore.Store.Title` | renderer.js:49-52 | Under the selection invariant, defined exactly when `taskIndex` is not -1. When defined it is the title of the task at (`listIndex`, `taskIndex`). |
| `TodoStore.Store.Content` | renderer.js:53-56 | Under the selection invariant, defined exactly when `taskIndex` is not -1. When defined it is the content of the task at (`listIndex`, `taskIndex`). |
| `TodoStore.Store.TaskStatus` | renderer.js:57-60 | Under the selection invariant, defined exactly when `taskIndex` is not -1. When defined it is the status of the task at (`listIndex`, `taskIndex`). |
| `TodoStore.Store.Timestamp` | renderer.js:61-64 | Under the selection invariant, defined exactly when `taskIndex` is not -1. When defined it is the creation time of the task at (`listIndex`, `taskIndex`). |
| `TodoStore.Store.ReplaceState` | renderer.js:516 | The whole state becomes the given state. |
| `TodoStore.Store.SetTaskIndex` | renderer.js:99-101 | Only `taskIndex` changes. |
| `TodoStore.Store.ResetTaskIndex` | renderer.js:159-161 | `taskIndex` becomes -1 and nothing else changes. A valid selection stays valid. |
| `TodoStore.Store.SetListIndex` | renderer.js:126-129 | `listIndex` becomes the argument, `taskIndex` becomes -1 and the lists are unchanged. An in-range or -1 index gives a valid selection. |
| `TodoStore.Store.CommitAddListItem` | renderer.js:67-73 | Exactly one empty list named "Untitled list" is appended. The selection is untouched. |
| `TodoStore.Store.AddListItem` | renderer.js:133-136 | One empty "Untitled list" is appended and the earlier lists are untouched. It becomes the selected list, no task is selected, and the selection is valid. The getters then report the name "Untitled list", no tasks and no selected task. |
| `TodoStore.Store.CommitRemoveListItem` | renderer.js:77-81 | The lists become `splice(index, 1)` of the old lists. The selection is untouched. |
| `TodoStore.Store.RemoveListItem` | renderer.js:137-155 | An in-range index removes exactly that list and keeps the rest in order. `listIndex` becomes `NewListIndex` and `taskIndex` becomes -1. A valid selection stays valid, and it is -1 exactly when nothing was selected or no list is left. Removing another list keeps the same list selected. Removing the selected list selects its predecessor, or its successor when it was first. |
| `TodoStore.RemovalKeepsSelection` | renderer.js:137-155 | For an in-range index, `splice` removes exactly that list. The index NewListIndex gives is valid for the shorter sequence, and it is -1 exactly when nothing was selected or no list is left. Another selected list is still the one selected, and a removed selection moves to its predecessor, or to its successor when it was first. |
| `TodoStore.Store.SetListItemName` | renderer.js:82-88 | Only the selected list's name changes. A valid selection stays valid. The `name` getter then reports the new name, and the task list is the same. |
| `TodoStore.Store.CommitAddTask` | renderer.js:89-98 | The task is appended to the list at the given index. Everything else is unchanged. |
| `TodoStore.Store.AddTask` | renderer.js:171-180 | With no lists, the result is one "Untitled list" holding just the task, and it is selected. Otherwise the task is appended to the selected list and everything else is unchanged. `taskIndex` becomes -1, the selection is valid, and the task is last in the selected list. The task count of the selected list grows by one. |
| `TodoStore.Store.RemoveTask` | renderer.js:181-190 | The list at `li` loses `splice(ti, 1)` of its tasks, which is exactly task `ti` when it is in range, with the order kept. Other lists and `listIndex` are unchanged, `taskIndex` becomes -1, and a valid selection stays valid. Removing an existing task of the selected list lowers its task count by one. |
| `TodoStore.Store.SetTaskTitle` | renderer.js:102-108 | Only the title of the task at (`listIndex`, `taskIndex`) changes. A valid selection stays valid. The `title` getter then reports the new title, and content and status are unchanged. |
| `TodoStore.Store.SetTaskContent` | renderer.js:109-116 | Only the content of the task at (`listIndex`, `taskIndex`) changes. A valid selection stays valid. The `content` getter then reports the new content, and title and status are unchanged. |
| `TodoStore.Store.SetTaskStatus` | renderer.js:117-123 | Only the status of the task at `index` of the selected list changes, whatever `taskIndex` is. A valid selection stays valid. When `index` is the selected task, the `status` getter reports the new status. The selected task's title and content are unchanged. |
| `Search.SearchResult` | renderer.js:832-858 | A blank query gives no entries. |
| `Search.Scan` | renderer.js:836-853 | The nested scan produces exactly the list-then-task sequence of hits. |
| `Search.TaskHitsSound` | renderer.js:840-852 | Every hit from one list carries that list's index and name and the task at its own index, the task fits, and the hits are in task order. |
| `Search.TaskHitsComplete` | renderer.js:840-852 | Every fitting task of a list is reported. |
| `Search.ListHitsSound` | renderer.js:837-853 | Every hit from the first n lists points into those lists at the task it carries, fits, and the hits are in list-then-task order. |
| `Search.ListHitsComplete` | renderer.js:837-853 | Every fitting task of the first n lists is reported. |
| `Search.SearchResultCorrect` | renderer.js:832-858 | A blank query gives nothing. Every entry's indices point at the task it carries and its name is that list's name. The order is list-then-task with no repeats. For a non-blank query, a task appears exactly when its list name, title or content matches. |
| `Search.EmptyListContributesNothing` | renderer.js:837-853 | A list without tasks has no entry, even when its name matches. |
| `Document.App.constructor` | renderer.js:293-315 | No bound file and no snapshot. The store is new and empty, and the search is empty. |
| `Document.App.NeedsSave` | renderer.js:389-392 | The answer to "needs save": always yes while no snapshot exists. It is no exactly when the snapshot equals the current lists and both indices. |
| `Document.App.NewFile` | renderer.js:510-518 | The state becomes the empty document and is recorded as the snapshot, so nothing needs saving. |
| `Document.App.SaveFile` | renderer.js:629-657 | The write goes to the given file. A successful write stores the current state and records it as the snapshot, so nothing needs saving. A failed write reports that file and leaves the snapshot alone. |
| `Document.App.Save` | renderer.js:519-562 | For a single call: the write goes to the bound file, or, with no bound file, to the file chosen in the dialog, and it carries the state at the call. With neither, this call's promise stays pending and the snapshot is unchanged. A successful write happens exactly when there is a target and the write succeeds, and only then is "needs save" cleared. |
| `Document.App.ReadFile` | renderer.js:595-628 | As written: parsed text replaces the state, and any other input leaves it. In every case the file is bound, the snapshot is taken, nothing needs saving and the load reports success. |
| `Document.App.ReadFileChecked` | renderer.js:595-628 | As intended: a malformed file is rejected with its error count and changes nothing, including "needs save". Otherwise it behaves like `ReadFile`. |
| `Document.App.Startup` | renderer.js:412-421 | With no file argument or ".", a new empty document. Otherwise the file is read and bound. Either way nothing needs saving afterwards. |
| `Document.App.Search` | renderer.js:832-858 | For a blank query, or one that is a valid pattern, `searchList` becomes the search result for the current query and lists. A non-blank invalid pattern throws in `new RegExp`, and `searchList` keeps its previous value. |
| `Document.App.SetSearchStr` | renderer.js:370-373 | A new query immediately replaces `searchList` with its result. When it is a non-blank invalid pattern, the previous `searchList` stays. |
| `Document.MalformedLoadHidesEdit` | renderer.js:598-626 | A concrete run: after an edit the document needs saving. A malformed load then reports success, binds the broken file while the old document stays shown, and clears "needs save". |
| `Document.MalformedLoadKeepsEdit` | renderer.js:598-626 | The same run with the intended reader: the load fails, no file is bound and the edit still needs saving. |

## Left out

- Electron inter-process messages, windows, dialogs and menus are not modelled. The save/discard/cancel prompt on close and load lives in `main.js`, which is not part of this model. The file chosen in a dialog, the outcome of a write and the text read are parameters.
- Asynchrony is not modelled. Promises, stream events and `$nextTick` are taken to run to completion in program order. A change made between `save` serialising the state and the write callback taking the snapshot is not modelled.
- The read stream is taken to deliver the file in at most one `readable` chunk. For a file large enough to arrive in several chunks, the source parses each chunk separately. A stream error, such as a missing file, emits no `end` event, and that path is not modelled.
- `JSON.parse` of text that is valid JSON but not shaped like a state is not modelled. Such text is treated as a parse that yields a state.
- md5 collisions are not modelled, because the digest is taken to be injective. The save-then-load round trip through JSON is outside the model for the same reason.
- Regular expressions are abstracted as the `matches` parameter, and whether the query is a valid pattern as the `compiles` parameter. With the `g` flag, `RegExp.test` starts where the previous successful test ended, so the source can miss a task whose list name, title or content matches. For example, with query "a" and one list named "zz" holding the tasks (title "q", content "xxxa") and (title "a", content "b"), the second task is not reported. Every task the source reports does match. The model treats a match as a pure predicate of query and text, so `Search.TaskHitsComplete`, `Search.ListHitsComplete` and the completeness half of `Search.SearchResultCorrect` describe the search without this carry-over.
- The watcher that re-runs the search when the lists change while the panel is visible is not modelled. Neither are the panel's show/hide backup of `listIndex`, throttling of window resizing, the notice timer, the time filter, themes, sidebar and detail visibility, keyboard shortcuts, DOM helpers, or `readme.js`.
- `Document.App.Save` models one call in isolation. `saveAs` adds a `save-dialog-result` listener on every call and never removes it. `save` never binds the window to the chosen file, so every save of an unbound document goes through the dialog. At the next dialog that returns a file, every earlier listener also writes its own, older serialised state to that file and settles its old promise. For a save from the close prompt, that closes the window. These accumulated listeners and their concurrent, stale writes are not modelled, so across several saves the model does not fix what the file finally holds.
- Values, not references: the source's search entries share task objects with the store, so a later edit shows through them. The model copies values, so that aliasing is not captured.
- Numbers are unbounded integers. JavaScript's non-integer and string indices are not modelled, and `splice` is modelled for integer starts only.

## Findings

| source | as written | input that shows it | evidently intended | confidence | as-written member | corrected member |
|---|---|---|---|---|---|---|
| renderer.js:598-618 | The `end` handler's parameter `err` hides the parse-error counter. The `end` event passes no argument, so `readFile` never rejects: it binds the file and takes the current (unsaved) state as the snapshot. | New document, add a list, then load a file whose text is not JSON (after the load prompt). The load shows a success notice although nothing was loaded. The window is bound to the broken file while it still shows the old document, and "needs save" is cleared. The next save writes the shown document over the broken file, and a document previously saved through the dialog now saves to the broken file instead. | Reject with the error count ("file format error") and leave the file binding and snapshot unchanged, so unsaved edits still need saving. | high (not executed) | `Document.App.ReadFile`, `Document.MalformedLoadHidesEdit` | `Document.App.ReadFileChecked`, `Document.MalformedLoadKeepsEdit` |

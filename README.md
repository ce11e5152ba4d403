# Task list widget — a Dafny model

This project models the browser task-list widget of `task-list.js`. The
widget shows a list of task containers. Each container has a drag handle, a
checkbox, a text slot, and edit and delete buttons. The widget stores the
list in one storage slot as an array of `{text, done}` records. Under the
DOM calls the widget is a small state machine, and the model states it in
Dafny terms:

- **The list** (`TaskList.items`): task containers in document order. Each
  `Item` has an element identity `id`, a `view`, the checkbox state `done`,
  and the `taskCompleted` and `taskDragging` classes (`completed`,
  `dragging`).
- **The view**: `Display(shown)` (a static text element) or
  `Editing(buffer)` (a text area and its live value). A container holds
  exactly one of the two, so the text lives in the view.
- **The drag session**: `dragAllowed` is the one-shot flag that a handle
  arms. `dragSrc` is the identity of the dragged container, if any.
- **The store** (`TaskList.store`): the slot as the loader sees it. It is
  `Absent`, `Blank`, `Unparseable`, `NotAnArray` or `Tasks(records)`.
  Serialisation is the identity on records.

Each handler of the widget is a method of class `TaskListWidget.TaskList`.
Every method states the whole new state in terms of the old one. The pure
list operations the handlers use are functions in module `TaskModel`:
`Snapshot` (what saving writes), `Rebuild` (what loading builds), `Remove`
and `Move` (what `insertBefore` does). Lemmas about these functions state
the properties that the handlers inherit. Module `JsText` models
`String.prototype.trim`. `SetInput` and `TypeInEditor` stand for the user
typing. They are browser actions, not handlers of the widget.

In three places the code behaves in a way a reader may not expect; the
model follows the code:

- The code does not empty the list when the slot holds data that cannot be
  loaded. It returns early, so a failed load leaves the list as it was.
  At page start that list is empty anyway.
- The handle's arm flag is global. A mouse press on any handle arms the
  next drag start on any item, not only on the handle's own item.
- The "already editing" guard at `task-list.js:182` compares a dataset
  string to `true`. Loose equality turns `"true"` into `NaN`, so the guard
  never fires. It also never matters: the branch runs only when no editor
  is open. The model leaves the guard out. A second click on edit closes
  the editor and saves.

## Model

| member | source | states |
|---|---|---|
| JsText.Trim | task-list.js:202 | the trimmed text is the slice of the input after its leading white space; everything cut off at either end is JavaScript white space or a line terminator; the result starts and ends with neither |
| JsText.TrimEmptyIff | task-list.js:202-203 | the trimmed input is empty exactly when every character is white space, which is when `addItemFromInput` returns early |
| JsText.TrimKeeps | task-list.js:202 | text with no white space at either end is kept verbatim |
| JsText.TrimIdempotent | task-list.js:202 | trimming twice is trimming once |
| TaskModel.Snapshot | task-list.js:16-38 | the record array that saving builds: one record per item, in list order, carrying the text area's value for an item being edited, the static text otherwise, and the checkbox state |
| TaskModel.Remove | task-list.js:120 | `item.remove()`: the list without the element at index j, the others in their order |
| TaskModel.Rebuild | task-list.js:56-68 | the loader creates one container per record, in order: k-th gets identity firstId + k, display mode with the record's text, checked and completed exactly when the record is done, not dragging |
| TaskModel.Move | task-list.js:142-152 | `insertBefore` of the drag source before the target or before its next sibling: same length, the source lands at `MovedIndex`, and taking it out again leaves the list without the source, so the other items keep their relative order |
| TaskModel.MoveNextToTarget | task-list.js:148-151 | after the move the source is immediately before the target when the pointer is above the midpoint, and immediately after it otherwise |
| TaskModel.MovePermutes | task-list.js:149-151 | the move is a permutation: the same multiset of items |
| TaskModel.MoveAgain | task-list.js:142-152 | a repeated drag-over at the same pointer position changes nothing further |
| TaskModel.MoveWellFormed | task-list.js:149-151 | moving a container keeps the elements distinct and keeps the completed class equal to the checkbox |
| TaskModel.RemoveDistinct | task-list.js:120 | removing a container keeps the remaining elements distinct |
| TaskModel.SnapshotRemove | task-list.js:120 | after a delete, the save writes the old snapshot without that item's record |
| TaskModel.SnapshotUpdate | task-list.js:96-99 | after one item changes, the save writes the old snapshot with only that item's record replaced |
| TaskModel.SnapshotMove | task-list.js:136-152 | the drag end saves the reordered list's snapshot, which is the same reorder of the old snapshot |
| TaskModel.OpenEditorKeepsSnapshot | task-list.js:185-195 | opening the editor changes nothing that would be saved, because the text area starts with the shown text |
| TaskModel.SnapshotRebuild | task-list.js:44-74 | loading an array of records gives items whose snapshot is exactly those records |
| TaskModel.SaveLoadRoundTrip | task-list.js:11-74 | save then load: one item per saved item, each in display mode with the text it held (its buffer if it was being edited) and its checkbox state; saving again writes the same snapshot |
| TaskListWidget.TaskList.constructor | task-list.js:76 | page start (the module-level state of task-list.js:5-6): no drag session, an empty list, then the initial load from the slot, so the list is `Rebuild` of the stored records or empty, and the next identity follows the loaded items |
| TaskListWidget.TaskList.Save | task-list.js:11-42 | the slot afterwards holds one record per item in list order, with the text area's value for items being edited, the static text otherwise, and the checkbox state |
| TaskListWidget.TaskList.Load | task-list.js:44-74 | absent, empty, unparseable or non-array slot values leave the list unchanged; an array replaces the whole list with `Rebuild` of its records; the invariant is kept |
| TaskListWidget.TaskList.AddFromInput | task-list.js:200-208 | input that trims to empty changes nothing, and the input and slot stay as they were; otherwise exactly one item is appended (the trimmed text, unchecked, in display mode, a fresh identity), the input is cleared and the slot holds the new snapshot |
| TaskListWidget.TaskList.CheckboxChange | task-list.js:96-99 | only the toggled item's checkbox and completed class change, to the same new value; order and all other items are unchanged; the slot holds the new snapshot |
| TaskListWidget.TaskList.Delete | task-list.js:120 | exactly that item is removed, the others keep their order, and the slot holds the new snapshot |
| TaskListWidget.TaskList.ToggleEdit | task-list.js:163-198 | a displayed item becomes `Editing(shown text)` and nothing is saved; an item being edited shows its buffer verbatim (an empty one included) and the slot holds the new snapshot; no other item changes |
| TaskListWidget.TaskList.EnterInEditor | task-list.js:223-229 | Enter in an open editor always takes the finishing branch of the edit toggle |
| TaskListWidget.TaskList.HandleMouseDown | task-list.js:89 | a press on a handle arms the drag flag |
| TaskListWidget.TaskList.DragStart | task-list.js:127-134 | without the flag the drag is cancelled and nothing changes; with it the flag is consumed, the item becomes the drag source and is marked dragging |
| TaskListWidget.TaskList.DragEnd | task-list.js:136-140 | the dragging mark goes, the drag source is cleared, the arm flag is untouched, and the slot holds the snapshot of the new order |
| TaskListWidget.TaskList.DragOver | task-list.js:142-152 | no drag source, or hovering the source itself, changes nothing; otherwise the list becomes `Move` of the source to before or after the target; nothing is saved; the invariant is kept |
| TaskListWidget.EditTwice | task-list.js:163-198 | two clicks on edit with no typing give back the same list, and the slot holds its snapshot |
| TaskListWidget.EndToEndScenario | task-list.js:11-229 | empty storage, add "Buy milk" and "Walk dog", check the first, edit the second to "Walk the dog" and press Enter, reload: two records in that order, the first done, the second not |

## Left out

- DOM construction and presentation are not modelled: element creation, class names other than `taskCompleted` and `taskDragging`, titles, icon text, `focus()`, the `selectstart` suppression (task-list.js:155-157) and the `dataTransfer` settings (task-list.js:132-133).
- `getBoundingClientRect` and the midpoint arithmetic (task-list.js:146-148) become the boolean `above`. The model does not compute it from coordinates.
- `JSON.stringify`, `JSON.parse`, `localStorage` and `console.error` are foreign calls and I/O. The slot is the `Stored` value and serialisation is the identity on records. A parse failure is the `Unparseable` case, and its error log is not modelled.
- TaskListWidget.TaskList.Load: only arrays of well-formed records are modelled. An array with a malformed element (such as `null`) throws in the middle of the loop, after the list was emptied and some items appended (task-list.js:54-60). That partial result depends on JavaScript exception semantics and is not modelled.
- TaskListWidget.TaskList.DragOver: a drag source that is no longer in the list (deleted or replaced by a load while dragging) is left where it is. The DOM would put the detached element back into the list. Browsers do not deliver clicks during a drag, so this case does not come up in use.
- The keyboard filtering (`shiftKey`, `tagName`, `closest`, task-list.js:215-229) is not modelled. Only the calls that result are: `AddFromInput`, and `EnterInEditor` on an item whose editor is open.
- The `data-editing` attribute and the guard that reads it (task-list.js:177, 182-183, 195) are not modelled. The guard never fires.
- Line-break normalisation of a text area's value, and any other transformation the browser applies when it sets `textContent` or `value`, is not modelled. Text is copied verbatim.
- Storage write failures (such as a full quota) are not handled by the code and are not modelled.
- A Dafny `string` is a sequence of Unicode scalar values, while a JavaScript string is a sequence of UTF-16 code units. A lone surrogate therefore has no representation in the model, though `JSON.stringify` and `JSON.parse` carry one through the slot. `Trim` is unaffected: every white-space code point it strips is a non-surrogate character of the Basic Multilingual Plane.

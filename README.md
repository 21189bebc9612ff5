# Editing history of the granit TOML editor, in Dafny

This project models the editing-history state machine of the `Editor` React
component in `src/index.js`, taken out of its React and DOM setting:

- the **undo stack** (`this.stack`) and the **redo stack** (`this.archiveStack`),
  with `updateStack` (push, and drop the redo stack), `undo` and `redo`
  (move the top record from one stack to the other; nothing on an empty stack);
- the **visible record** that `updateInput` republishes after every change:
  the top of the undo stack, or the empty record `{"", 0, 0}`;
- the **dirty tracker**: `contentHash` follows the visible text, `savedHash`
  changes only in the constructor, `componentDidMount` and `save`, and the
  unsaved-changes indicator is on exactly when the two differ;
- **mounting** with an optional `defaultValue`;
- **key dispatch** in `handleKeyDown`: the default action is always
  prevented, the composite key (platform, meta, ctrl, shift, alt, key code,
  has-selection) is looked up in the lifecycle table first, then in the
  transform table, and a key press in neither does nothing;
- the **platform classifier** `platform()`.

Layout:

- `platform.dfy` (module `Platform`): `platform()`. The two regular
  expressions are case-insensitive substring searches over an optional
  `navigator.platform` string; for their ASCII patterns, ASCII lower-casing is
  exactly the folding a JavaScript `/i` expression performs.
- `history.dfy` (module `History`): records, the two stacks as a value, push,
  undo and redo as functions, their repetitions, and a reference model, the
  *timeline* (every reachable record, oldest first, with a cursor), onto which
  the stacks are mapped by `Abs`.
- `keys.dfy` (module `Keys`): the key tuple and the two-tier lookup. The tables
  are parameters; a transform is any function from the event and the record
  read from the text area to a new record.
- `session.dfy` (module `Session`): the whole component state as a value and
  each method as a function on it, with the lemmas about them.
- `editor.dfy` (module `EditorComponent`): class `Editor`, whose methods update
  its fields in place and are each proved equal to the matching `Session`
  function; its object invariant `Valid()` is `Session.Tracked`.
- `wrappers.dfy`: an `Option` type for the optional `defaultValue` and the
  optional `navigator`.

External collaborators are parameters: SHA-256 is a function
`hash: string -> string` given to the constructor; the `onSave` callback is
the field `saved`, the list of texts passed to it in order; the DOM writes of
`updateInput` are the field `input`; the two tables and the host's
`navigator.platform` are arguments of `HandleKeyDown`.

Two details of the code the model keeps:

- `handleKeyDown` pushes whatever record a transform returns and never checks
  its selection bounds; `Session.KeyDownKeepsInvariants` shows that every record
  stays well formed when the transform returns a well-formed one.
- `save` recomputes the digest of `value` instead of copying `contentHash`;
  the two agree in every `Session.Consistent` state, and every operation keeps
  the state consistent.

## Model

| member | source | states |
|---|---|---|
| `Platform.FromFlags` | src/index.js:8-14 | Mac exactly when the Mac test holds, Windows exactly when only the Windows test holds, other otherwise |
| `Platform.Classify` | src/index.js:5-15 | total; other when there is no `navigator`; Mac exactly when a Mac pattern matches; Windows exactly when only the Windows pattern matches |
| `Platform.ContainsFoldIffSomeOffset` | src/index.js:6-7 | the case-insensitive search succeeds exactly when the pattern occurs, ignoring ASCII case, at some offset of the platform string |
| `Platform.MacBeforeWindows` | src/index.js:8-11 | a platform string matching both patterns is classified as Mac |
| `Platform.MacHosts` | src/index.js:7-9 | "MacIntel" and "iPhone" are classified as Mac |
| `Platform.WindowsHost` | src/index.js:6-11 | "Win32" is classified as Windows |
| `Platform.OtherHost` | src/index.js:6-13 | a platform string without the letters m, p and w is classified as other |
| `Platform.ContainsFold` | src/index.js:6-7 | the search of a case-insensitive literal regular expression; `Platform.ContainsFoldIffSomeOffset` states that it succeeds exactly when the pattern occurs at some offset |
| `Platform.IsWindows` | src/index.js:6 | false without a `navigator`, otherwise the `/Win/i` search; its properties are stated by `Platform.Classify`, `Platform.WindowsHost` and `Platform.OtherHost` |
| `Platform.IsMacLike` | src/index.js:7 | false without a `navigator`, otherwise any of the four Apple searches; its properties are stated by `Platform.Classify`, `Platform.MacHosts` and `Platform.MacBeforeWindows` |
| `History.Visible` | src/index.js:57-64 | the top of the undo stack or the empty record; `History.AbsVisible` states it is the timeline entry at the cursor |
| `History.Push` | src/index.js:75-77 | `History.PushClearsRedo` and `History.AbsPush` state its effect on the stacks and on the timeline |
| `History.Undo` | src/index.js:81-86 | `History.UndoEmptyIsNoOp`, `History.UndoMovesTop` and `History.AbsUndo` state its effect |
| `History.Redo` | src/index.js:90-95 | `History.RedoEmptyIsNoOp`, `History.RedoMovesTop` and `History.AbsRedo` state its effect |
| `History.RedoN` | src/index.js:90-97 | n redos remove the top n records of the redo stack and push them, in reverse, onto the undo stack; when the redo stack holds fewer, it ends empty and the undo stack gains all of it reversed |
| `Session.Init` | src/index.js:21-29 | `Session.InitIsClean` states the fresh state is tracked, clean, with text "" and empty stacks |
| `Session.Dirty` | src/index.js:197 | the digests differ; `Session.DirtyIffUnsaved` relates it to the last saved text |
| `Session.Tracked` | src/index.js:21-107 | the invariant of the state; `Session.OperationsKeepTracked` and `Session.KeyDownKeepsInvariants` show every operation keeps it |
| `Session.UpdateStack` | src/index.js:75-79 | `Session.UpdateStackPublishes` states the whole new state |
| `Session.UndoStep` | src/index.js:81-88 | `Session.EmptyStacksAreNoOps` and `Session.UndoRedoMoveOneRecord` state the new state |
| `Session.RedoStep` | src/index.js:90-97 | `Session.EmptyStacksAreNoOps` and `Session.UndoRedoMoveOneRecord` state the new state |
| `Session.Save` | src/index.js:99-107 | `Session.SaveWhenCleanIsNoOp`, `Session.SaveWhenDirty` and `Session.SaveTwice` state its effect |
| `Session.ComponentDidMount` | src/index.js:37-50 | `Session.MountWithoutDefault` and `Session.MountWithDefault` state its effect |
| `Session.HandleKeyDown` | src/index.js:109-125 | `Session.KeyDownLifeCycle`, `Session.KeyDownTransform` and `Session.KeyDownNoMatch` state its three branches |
| `History.PushClearsRedo` | src/index.js:75-78 | a push appends the record to the undo stack, empties the redo stack whatever it held, and makes the record visible |
| `History.UndoEmptyIsNoOp` | src/index.js:81-85 | undo on an empty undo stack leaves both stacks unchanged |
| `History.UndoMovesTop` | src/index.js:81-87 | undo removes exactly the top undo record and puts it on top of the redo stack |
| `History.RedoEmptyIsNoOp` | src/index.js:90-94 | redo on an empty redo stack leaves both stacks unchanged |
| `History.RedoMovesTop` | src/index.js:90-96 | redo moves only the top redo record back onto the undo stack, where it becomes visible; the rest of the redo stack survives |
| `History.UndoRedoInverse` | src/index.js:81-97 | redo after undo, and undo after redo, give back the stacks |
| `History.OperationsKeepWellFormed` | src/index.js:57-97 | push of a well-formed record, undo and redo keep every record well formed, and the visible record is well formed |
| `History.PushAll` | src/index.js:75-78 | pushing records one by one appends them all to the undo stack and leaves the redo stack empty |
| `History.UndoN` | src/index.js:81-88 | n undos remove the top n records of the undo stack and push them, in reverse, onto the redo stack; when the undo stack holds fewer, it ends empty and the redo stack gains all of it reversed |
| `History.UndoNThenRedoN` | src/index.js:81-97 | n undos then n redos give back both stacks when the undo stack held at least n records |
| `History.PushesUndoneAndRedone` | src/index.js:75-97 | after n pushes, n undos return the undo stack to what it was before them and n redos restore both stacks and the last pushed record as the visible one |
| `History.AbsInjective` | src/index.js:28-29 | the timeline determines both stacks |
| `History.AbsVisible` | src/index.js:57-64 | the visible record is the timeline entry at the cursor, or the empty record before the first entry |
| `History.AbsPush` | src/index.js:75-78 | on the timeline a push discards every entry after the cursor and appends the record |
| `History.AbsUndo` | src/index.js:81-87 | on the timeline undo steps the cursor back by one, unless it is at the start, and keeps every entry |
| `History.AbsRedo` | src/index.js:90-96 | on the timeline redo steps the cursor forward by one, unless it is at the end, and keeps every entry |
| `Keys.KeysPressed` | src/index.js:113 | the key carries the platform, the four modifier flags and the key code of the event, and has-selection exactly when the selection bounds differ |
| `Keys.Resolve` | src/index.js:114-123 | a lifecycle entry when the key is in the lifecycle table; otherwise the transform's record (from the event and the text area's record) when it is in the transform table; otherwise no match |
| `Keys.LifeCycleFirst` | src/index.js:114-118 | a lifecycle hit resolves the same whatever the transform table holds |
| `Keys.ResolveByTuple` | src/index.js:113-122 | which table entry a key press selects depends only on its key tuple |
| `Session.UpdateInput` | src/index.js:57-72 | afterwards the text area shows the visible record, `value` is its text and `contentHash` its digest; stacks and saved state are untouched |
| `Session.InitIsClean` | src/index.js:21-29 | a new session is not dirty, has empty stacks and text "", and its digests are those of "" |
| `Session.UpdateStackPublishes` | src/index.js:75-78 | a push clears the redo stack, shows the record, sets `value` and `contentHash` from it, and leaves the saved digest and the `onSave` log alone |
| `Session.EmptyStacksAreNoOps` | src/index.js:81-94 | undo on an empty undo stack and redo on an empty redo stack change nothing, not even the text area |
| `Session.UndoRedoMoveOneRecord` | src/index.js:81-97 | undo and redo move one record between the stacks, republish the new top and leave the saved state alone |
| `Session.ConsistentByStacks` | src/index.js:57-72 | in a consistent state the stacks and the saved state determine text, text area and content digest |
| `Session.UndoSteps` | src/index.js:81-88 | n undos act on the stacks as `History.UndoN`, keep the saved state and keep the state consistent |
| `Session.RedoSteps` | src/index.js:90-97 | n redos act on the stacks as n calls of `History.Redo`, keep the saved state and keep the state consistent |
| `Session.UndoThenRedoRestores` | src/index.js:75-97 | n undos then n redos restore the whole session, including the visible record, text and digests |
| `Session.OperationsKeepTracked` | src/index.js:37-107 | every operation keeps text, text area and content digest in step with the visible record and the saved digest equal to the digest of the last saved text |
| `Session.DirtyIffUnsaved` | src/index.js:197 | the indicator is on only when the text differs from the last saved text, and, for a collision-free digest, exactly then |
| `Session.SaveWhenCleanIsNoOp` | src/index.js:100-102 | `save` with equal digests changes nothing and calls no `onSave` |
| `Session.SaveWhenDirty` | src/index.js:103-106 | otherwise `save` sets the saved digest to the digest of the text, calls `onSave` once with the text, turns the indicator off and touches nothing else |
| `Session.SaveTwice` | src/index.js:99-107 | a second `save` right after the first changes nothing, so `onSave` runs at most once |
| `Session.MountWithoutDefault` | src/index.js:38-40 | mounting without a default value, or with "", changes nothing |
| `Session.MountWithDefault` | src/index.js:41-49 | mounting with a default value pushes it with the caret at its end, clears the redo stack, leaves the buffer clean and calls `onSave` once with it |
| `Session.KeyDownLifeCycle` | src/index.js:114-118 | a lifecycle hit runs undo, redo or save and does not depend on the transform table |
| `Session.KeyDownTransform` | src/index.js:119-124 | a transform hit is `updateStack` of the transform's record: it becomes visible, `value` and `contentHash` follow it, the redo stack is cleared, and `savedHash` and the `onSave` log are untouched |
| `Session.KeyDownNoMatch` | src/index.js:119-122 | a key press in neither table changes nothing |
| `Session.KeyDownKeepsInvariants` | src/index.js:109-125 | dispatch keeps the session tracked, and keeps every record well formed when the transform that runs returns a well-formed record |
| `Session.ScenarioPushUndoRedo` | src/index.js:75-97 | from a new session, push {"a",0,1}, undo shows {"",0,0}, redo shows {"a",0,1} again |
| `Session.ScenarioMount` | src/index.js:37-50 | mounting a new session with "x=1" leaves it clean after exactly one `onSave("x=1")` |
| `Session.ScenarioBranch` | src/index.js:75-88 | push "ab", push "abc", undo, push "abz": the redo stack is empty and the undo stack is ["ab", "abz"] |
| `EditorComponent.Editor.constructor` | src/index.js:18-29 | both digests are that of "", `value` is "", both stacks are empty, the buffer is not dirty |
| `EditorComponent.Editor.ComponentDidMount` | src/index.js:37-50 | does nothing without a non-empty default value; otherwise pushes it with the caret at the end, clears redo, leaves the buffer clean and logs one `onSave` |
| `EditorComponent.Editor.UpdateInput` | src/index.js:52-73 | the text area, `value` and `contentHash` follow the top of the undo stack; stacks and saved state unchanged |
| `EditorComponent.Editor.UpdateStack` | src/index.js:75-79 | the record is appended to the undo stack, the redo stack is emptied, the record is shown |
| `EditorComponent.Editor.Undo` | src/index.js:81-88 | no change on an empty undo stack; otherwise the top record moves to the redo stack and the new top is shown |
| `EditorComponent.Editor.Redo` | src/index.js:90-97 | no change on an empty redo stack; otherwise the top redo record moves back and is shown, the rest of the redo stack stays |
| `EditorComponent.Editor.Save` | src/index.js:99-107 | no change when the digests are equal; otherwise the saved digest becomes that of the text and `onSave` is logged once; afterwards the buffer is not dirty |
| `EditorComponent.Editor.HandleKeyDown` | src/index.js:109-125 | the default action is prevented, and the new state is that of `Session.HandleKeyDown`: lifecycle table first, then transform table, else nothing |

## Left out

- `render()`, its CSS and JSX, and the syntax highlighter `highlightToml`
  (src/index.js:127-200, apart from the dirty test on line 197): presentation only.
- The `if (!input) return` guard of `updateInput`: the model assumes the text
  area exists, as it does once the component is mounted.
- SHA-256 (`hash.js`) is a parameter; only its determinism is used, and
  collision resistance only where `Session.Injective` is assumed.
- `keysMap`, `lifeCycleMap` and `highlightToml` come from `src/utils`, which is
  not part of this model; the tables are parameters and their transforms
  arbitrary functions.
- `String(keysPressed)` is modelled by the tuple itself: the joined strings of
  two key arrays are equal exactly when the arrays are.
- `this[lifeCycleMatch]()` can call any method by name; the model admits
  `undo`, `redo` and `save`.
- React's asynchronous, batched `setState`: updates are modelled as immediate
  assignments.
- The `onSave` callback's persistence: modelled as the list of texts passed to it.
- `navigator.platform` is an optional string; a `navigator` whose `platform`
  is undefined corresponds to the string "undefined", which the regular
  expressions test.
- `defaultValue.length` counts UTF-16 code units; the model's `|v|` counts
  characters, so the two differ for characters outside the Basic Multilingual Plane.
- The method bindings in the constructor (src/index.js:31-34): they only fix `this`.
- A transform that returns no record (a falsy value) and a missing `onSave`
  prop: the model assumes every transform returns a record and `onSave` is
  given. In the source a falsy record would be pushed, shown as the empty
  record and dropped by the next `undo`; a missing `onSave` throws.

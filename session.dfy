/**
 * The state of one `Editor` component of src/index.js as a value, and each of
 * its operations as a function on that value.  These functions specify the
 * methods of the `Editor` class (editor.dfy); the lemmas below state what the
 * source promises about them.
 *
 * The state holds the two stacks, the React state fields `value`,
 * `contentHash` and `savedHash`, the record last written into the text area
 * (`input`), and the texts handed to the `onSave` callback, in order
 * (`saved`).  The SHA-256 digest is the parameter `hash`.
 */
module Session {
  import opened Wrappers
  import opened History
  import Keys
  import Platform

  /** A hex digest, as `sha256().update(text).digest("hex")` returns. */
  type Digest = string
  type Hasher = string -> Digest

  /** The collision resistance of the digest, as an assumption some lemmas make. */
  ghost predicate Injective(hash: Hasher)
  {
    forall a, b :: hash(a) == hash(b) ==> a == b
  }

  datatype State = State(
    stacks: Stacks,
    value: string,
    contentHash: Digest,
    savedHash: Digest,
    input: Record,
    saved: seq<string>)

  /** The constructor: both digests are those of "", both stacks and the text area empty. */
  function Init(hash: Hasher): State
  {
    State(Stacks([], []), "", hash(""), hash(""), Empty, [])
  }

  /** The unsaved-changes indicator of `render()`. */
  predicate Dirty(s: State)
  {
    s.contentHash != s.savedHash
  }

  /** The text last handed to `onSave`, or "" before the first save. */
  function SavedText(s: State): string
  {
    if s.saved == [] then "" else s.saved[|s.saved| - 1]
  }

  /** The text, the text area and the content digest follow the visible record. */
  predicate Consistent(s: State, hash: Hasher)
  {
    && s.input == Visible(s.stacks.undo)
    && s.value == s.input.value
    && s.contentHash == hash(s.value)
  }

  /** Consistent, and the saved digest is that of the last saved text. */
  predicate Tracked(s: State, hash: Hasher)
  {
    Consistent(s, hash) && s.savedHash == hash(SavedText(s))
  }

  /** `updateInput`: write the visible record into the text area and refresh `value` and `contentHash`. */
  function UpdateInput(s: State, hash: Hasher): (s': State)
    ensures Consistent(s', hash)
    ensures s'.stacks == s.stacks && s'.savedHash == s.savedHash && s'.saved == s.saved
  {
    var record := Visible(s.stacks.undo);
    s.(input := record, value := record.value, contentHash := hash(record.value))
  }

  /** `updateStack(record)`. */
  function UpdateStack(s: State, record: Record, hash: Hasher): State
  {
    UpdateInput(s.(stacks := Push(s.stacks, record)), hash)
  }

  /** `undo()`: returns early, without republishing, when the undo stack is empty. */
  function UndoStep(s: State, hash: Hasher): State
  {
    if s.stacks.undo == [] then s else UpdateInput(s.(stacks := Undo(s.stacks)), hash)
  }

  /** `redo()`: returns early, without republishing, when the redo stack is empty. */
  function RedoStep(s: State, hash: Hasher): State
  {
    if s.stacks.redo == [] then s else UpdateInput(s.(stacks := Redo(s.stacks)), hash)
  }

  /** `save()`. */
  function Save(s: State, hash: Hasher): State
  {
    if s.savedHash == s.contentHash then s
    else s.(savedHash := hash(s.value), saved := s.saved + [s.value])
  }

  /** `componentDidMount()`; a missing or empty `defaultValue` is falsy and does nothing. */
  function ComponentDidMount(s: State, defaultValue: Option<string>, hash: Hasher): State
  {
    if defaultValue.None? || defaultValue.value == "" then s
    else
      var v := defaultValue.value;
      var s1 := UpdateStack(s, Record(v, |v|, |v|), hash);
      s1.(savedHash := hash(v), saved := s1.saved + [v])
  }

  /** `handleKeyDown(e)` on a host whose `navigator.platform` is `navigator`. */
  function HandleKeyDown(s: State, e: Keys.KeyEvent, navigator: Option<string>,
                         lifeCycleMap: map<Keys.KeyTuple, Keys.LifeCycle>,
                         keysMap: map<Keys.KeyTuple, Keys.Transform>, hash: Hasher): State
  {
    var keys := Keys.KeysPressed(Platform.Classify(navigator), e);
    match Keys.Resolve(keys, e, lifeCycleMap, keysMap)
    case LifeCycleAction(CallUndo) => UndoStep(s, hash)
    case LifeCycleAction(CallRedo) => RedoStep(s, hash)
    case LifeCycleAction(CallSave) => Save(s, hash)
    case Edit(record) => UpdateStack(s, record, hash)
    case NoMatch => s
  }

  // ---------------------------------------------------------------------------
  // A fresh session

  lemma InitIsClean(hash: Hasher)
    ensures Tracked(Init(hash), hash)
    ensures !Dirty(Init(hash))
    ensures Init(hash).value == "" && Init(hash).stacks == Stacks([], [])
  {
  }

  // ---------------------------------------------------------------------------
  // Pushing, undoing and redoing

  /** A push becomes visible, clears the redo stack and leaves the saved state alone. */
  lemma UpdateStackPublishes(s: State, record: Record, hash: Hasher)
    ensures UpdateStack(s, record, hash).stacks == Stacks(s.stacks.undo + [record], [])
    ensures UpdateStack(s, record, hash).input == record
    ensures UpdateStack(s, record, hash).value == record.value
    ensures UpdateStack(s, record, hash).contentHash == hash(record.value)
    ensures UpdateStack(s, record, hash).savedHash == s.savedHash
    ensures UpdateStack(s, record, hash).saved == s.saved
  {
  }

  /** Undo and redo on an empty stack change nothing at all. */
  lemma EmptyStacksAreNoOps(s: State, hash: Hasher)
    ensures s.stacks.undo == [] ==> UndoStep(s, hash) == s
    ensures s.stacks.redo == [] ==> RedoStep(s, hash) == s
  {
  }

  /** Undo and redo move one record between the stacks and republish the new top. */
  lemma UndoRedoMoveOneRecord(s: State, hash: Hasher)
    ensures s.stacks.undo != [] ==>
      UndoStep(s, hash).stacks == Undo(s.stacks) &&
      UndoStep(s, hash).input == Visible(s.stacks.undo[..|s.stacks.undo| - 1])
    ensures s.stacks.redo != [] ==>
      RedoStep(s, hash).stacks == Redo(s.stacks) &&
      RedoStep(s, hash).input == s.stacks.redo[|s.stacks.redo| - 1]
    ensures UndoStep(s, hash).savedHash == s.savedHash && UndoStep(s, hash).saved == s.saved
    ensures RedoStep(s, hash).savedHash == s.savedHash && RedoStep(s, hash).saved == s.saved
  {
  }

  /** In a consistent state the stacks determine everything but the saved digest and log. */
  lemma ConsistentByStacks(s1: State, s2: State, hash: Hasher)
    requires Consistent(s1, hash) && Consistent(s2, hash)
    requires s1.stacks == s2.stacks && s1.savedHash == s2.savedHash && s1.saved == s2.saved
    ensures s1 == s2
  {
  }

  /** `n` calls of `undo()`. */
  function UndoSteps(s: State, n: nat, hash: Hasher): (s': State)
    ensures s'.stacks == UndoN(s.stacks, n)
    ensures s'.savedHash == s.savedHash && s'.saved == s.saved
    ensures Consistent(s, hash) ==> Consistent(s', hash)
  {
    if n == 0 then s else UndoStep(UndoSteps(s, n - 1, hash), hash)
  }

  /** `n` calls of `redo()`. */
  function RedoSteps(s: State, n: nat, hash: Hasher): (s': State)
    ensures s'.stacks == RedoN(s.stacks, n)
    ensures s'.savedHash == s.savedHash && s'.saved == s.saved
    ensures Consistent(s, hash) ==> Consistent(s', hash)
    decreases n
  {
    if n == 0 then s else RedoSteps(RedoStep(s, hash), n - 1, hash)
  }

  /** `n` undos then `n` redos give back the whole session: stacks, visible record, text and digests. */
  lemma UndoThenRedoRestores(s: State, n: nat, hash: Hasher)
    requires Consistent(s, hash)
    requires n <= |s.stacks.undo|
    ensures RedoSteps(UndoSteps(s, n, hash), n, hash) == s
  {
    UndoNThenRedoN(s.stacks, n);
    ConsistentByStacks(RedoSteps(UndoSteps(s, n, hash), n, hash), s, hash);
  }

  // ---------------------------------------------------------------------------
  // Saving and the dirty indicator

  /** Every operation keeps the text, the text area, the content digest and the saved digest in step. */
  lemma OperationsKeepTracked(s: State, record: Record, defaultValue: Option<string>, hash: Hasher)
    requires Tracked(s, hash)
    ensures Tracked(UpdateStack(s, record, hash), hash)
    ensures Tracked(UndoStep(s, hash), hash)
    ensures Tracked(RedoStep(s, hash), hash)
    ensures Tracked(Save(s, hash), hash)
    ensures Tracked(ComponentDidMount(s, defaultValue, hash), hash)
  {
  }

  /** The indicator is on exactly when the text differs from the last saved text (for a collision-free
      digest; that differing texts turn it off needs the assumption, the other direction does not). */
  lemma DirtyIffUnsaved(s: State, hash: Hasher)
    requires Tracked(s, hash)
    ensures Dirty(s) ==> s.value != SavedText(s)
    ensures Injective(hash) ==> (Dirty(s) <==> s.value != SavedText(s))
  {
  }

  /** A save with nothing to save changes nothing and calls no `onSave`. */
  lemma SaveWhenCleanIsNoOp(s: State, hash: Hasher)
    requires !Dirty(s)
    ensures Save(s, hash) == s
  {
  }

  /** A save with something to save records the current text, calls `onSave` once with it, and
      turns the indicator off; the stacks, the text and the text area are untouched. */
  lemma SaveWhenDirty(s: State, hash: Hasher)
    requires Consistent(s, hash) && Dirty(s)
    ensures !Dirty(Save(s, hash))
    ensures Save(s, hash).saved == s.saved + [s.value]
    ensures Save(s, hash).savedHash == hash(s.value)
    ensures Save(s, hash).stacks == s.stacks && Save(s, hash).value == s.value
    ensures Save(s, hash).input == s.input && Save(s, hash).contentHash == s.contentHash
  {
  }

  /** Two saves in a row: the second does nothing, so `onSave` runs at most once. */
  lemma SaveTwice(s: State, hash: Hasher)
    requires Consistent(s, hash)
    ensures Save(Save(s, hash), hash) == Save(s, hash)
    ensures !Dirty(Save(Save(s, hash), hash))
    ensures |Save(Save(s, hash), hash).saved| <= |s.saved| + 1
  {
  }

  // ---------------------------------------------------------------------------
  // Mounting

  /** Without a default value, or with "", mounting changes nothing. */
  lemma MountWithoutDefault(s: State, defaultValue: Option<string>, hash: Hasher)
    requires defaultValue.None? || defaultValue.value == ""
    ensures ComponentDidMount(s, defaultValue, hash) == s
  {
  }

  /** With a default value, mounting shows it with the caret at its end, marks it saved and calls
      `onSave` once with it. */
  lemma MountWithDefault(s: State, v: string, hash: Hasher)
    requires v != ""
    ensures ComponentDidMount(s, Some(v), hash).stacks == Stacks(s.stacks.undo + [Record(v, |v|, |v|)], [])
    ensures ComponentDidMount(s, Some(v), hash).input == Record(v, |v|, |v|)
    ensures ComponentDidMount(s, Some(v), hash).value == v
    ensures !Dirty(ComponentDidMount(s, Some(v), hash))
    ensures ComponentDidMount(s, Some(v), hash).saved == s.saved + [v]
  {
  }

  // ---------------------------------------------------------------------------
  // Key dispatch

  /** A lifecycle hit runs the named method; the transform table plays no part. */
  lemma KeyDownLifeCycle(s: State, e: Keys.KeyEvent, navigator: Option<string>,
                         lifeCycleMap: map<Keys.KeyTuple, Keys.LifeCycle>,
                         keysMap: map<Keys.KeyTuple, Keys.Transform>,
                         otherKeysMap: map<Keys.KeyTuple, Keys.Transform>, hash: Hasher)
    requires Keys.KeysPressed(Platform.Classify(navigator), e) in lifeCycleMap
    ensures HandleKeyDown(s, e, navigator, lifeCycleMap, keysMap, hash) ==
            HandleKeyDown(s, e, navigator, lifeCycleMap, otherKeysMap, hash)
    ensures HandleKeyDown(s, e, navigator, lifeCycleMap, keysMap, hash) ==
            match lifeCycleMap[Keys.KeysPressed(Platform.Classify(navigator), e)]
            case CallUndo => UndoStep(s, hash)
            case CallRedo => RedoStep(s, hash)
            case CallSave => Save(s, hash)
  {
  }

  /** A transform hit is `updateStack` of the transform's record: it becomes visible, `value` and
      `contentHash` follow it, the redo stack is cleared, and `savedHash` and the `onSave` log
      are untouched. */
  lemma KeyDownTransform(s: State, e: Keys.KeyEvent, navigator: Option<string>,
                         lifeCycleMap: map<Keys.KeyTuple, Keys.LifeCycle>,
                         keysMap: map<Keys.KeyTuple, Keys.Transform>, hash: Hasher)
    requires Keys.KeysPressed(Platform.Classify(navigator), e) !in lifeCycleMap
    requires Keys.KeysPressed(Platform.Classify(navigator), e) in keysMap
    ensures HandleKeyDown(s, e, navigator, lifeCycleMap, keysMap, hash).stacks ==
            Stacks(s.stacks.undo + [keysMap[Keys.KeysPressed(Platform.Classify(navigator), e)](e, e.target)], [])
    ensures HandleKeyDown(s, e, navigator, lifeCycleMap, keysMap, hash).input ==
            keysMap[Keys.KeysPressed(Platform.Classify(navigator), e)](e, e.target)
    ensures HandleKeyDown(s, e, navigator, lifeCycleMap, keysMap, hash) ==
            UpdateStack(s, keysMap[Keys.KeysPressed(Platform.Classify(navigator), e)](e, e.target), hash)
    ensures HandleKeyDown(s, e, navigator, lifeCycleMap, keysMap, hash).value ==
            keysMap[Keys.KeysPressed(Platform.Classify(navigator), e)](e, e.target).value
    ensures HandleKeyDown(s, e, navigator, lifeCycleMap, keysMap, hash).contentHash ==
            hash(keysMap[Keys.KeysPressed(Platform.Classify(navigator), e)](e, e.target).value)
    ensures HandleKeyDown(s, e, navigator, lifeCycleMap, keysMap, hash).savedHash == s.savedHash
    ensures HandleKeyDown(s, e, navigator, lifeCycleMap, keysMap, hash).saved == s.saved
  {
  }

  /** A key press in neither table changes nothing. */
  lemma KeyDownNoMatch(s: State, e: Keys.KeyEvent, navigator: Option<string>,
                       lifeCycleMap: map<Keys.KeyTuple, Keys.LifeCycle>,
                       keysMap: map<Keys.KeyTuple, Keys.Transform>, hash: Hasher)
    requires Keys.KeysPressed(Platform.Classify(navigator), e) !in lifeCycleMap
    requires Keys.KeysPressed(Platform.Classify(navigator), e) !in keysMap
    ensures HandleKeyDown(s, e, navigator, lifeCycleMap, keysMap, hash) == s
  {
  }

  /** Key dispatch keeps the session tracked, and keeps every record well formed when the
      transform it runs returns a well-formed record. */
  lemma KeyDownKeepsInvariants(s: State, e: Keys.KeyEvent, navigator: Option<string>,
                               lifeCycleMap: map<Keys.KeyTuple, Keys.LifeCycle>,
                               keysMap: map<Keys.KeyTuple, Keys.Transform>, hash: Hasher)
    requires Tracked(s, hash)
    ensures Tracked(HandleKeyDown(s, e, navigator, lifeCycleMap, keysMap, hash), hash)
    ensures AllWellFormed(s.stacks) &&
            (var a := Keys.Resolve(Keys.KeysPressed(Platform.Classify(navigator), e), e, lifeCycleMap, keysMap);
             a.Edit? ==> WellFormed(a.next))
            ==> AllWellFormed(HandleKeyDown(s, e, navigator, lifeCycleMap, keysMap, hash).stacks)
  {
  }

  // ---------------------------------------------------------------------------
  // Scenarios

  /** Push "a" with its text selected, undo back to the empty record, redo to "a" again. */
  lemma ScenarioPushUndoRedo(hash: Hasher)
    ensures UndoStep(UpdateStack(Init(hash), Record("a", 0, 1), hash), hash).input == Empty
    ensures RedoStep(UndoStep(UpdateStack(Init(hash), Record("a", 0, 1), hash), hash), hash).input ==
            Record("a", 0, 1)
  {
  }

  /** Mounting with "x=1" leaves the buffer clean after one `onSave("x=1")`. */
  lemma ScenarioMount(hash: Hasher)
    ensures !Dirty(ComponentDidMount(Init(hash), Some("x=1"), hash))
    ensures ComponentDidMount(Init(hash), Some("x=1"), hash).saved == ["x=1"]
  {
  }

  /** An edit after an undo discards the undone record. */
  lemma ScenarioBranch(hash: Hasher)
    ensures
      var s1 := UpdateStack(Init(hash), Record("ab", 2, 2), hash);
      var s2 := UpdateStack(s1, Record("abc", 3, 3), hash);
      var s3 := UpdateStack(UndoStep(s2, hash), Record("abz", 3, 3), hash);
      s3.stacks == Stacks([Record("ab", 2, 2), Record("abz", 3, 3)], [])
  {
  }
}

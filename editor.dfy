/**
 * The `Editor` component of src/index.js as a class whose methods update its
 * fields in place.  Each method is proved against the function of the same
 * name in module Session, whose properties are proved there.
 *
 * Fields: `stack` and `archiveStack` are the undo and redo stacks; `value`,
 * `contentHash` and `savedHash` are the React state; `input` is what the
 * text area shows (the DOM writes of `updateInput`); `saved` lists the texts
 * passed to the `onSave` callback.  `hash` stands for SHA-256.
 */
module EditorComponent {
  import opened Wrappers
  import opened History
  import Keys
  import Platform
  import Session

  class Editor {
    const hash: Session.Hasher
    var stack: seq<Record>
    var archiveStack: seq<Record>
    var value: string
    var contentHash: Session.Digest
    var savedHash: Session.Digest
    var input: Record
    var saved: seq<string>

    /** The fields as a Session state value. */
    function State(): Session.State
      reads this
    {
      Session.State(Stacks(stack, archiveStack), value, contentHash, savedHash, input, saved)
    }

    /** The object invariant: text, text area and digests follow the top of the undo stack. */
    predicate Valid()
      reads this
    {
      Session.Tracked(State(), hash)
    }

    /** The unsaved-changes indicator. */
    predicate Dirty()
      reads this
    {
      Session.Dirty(State())
    }

    constructor (hash: Session.Hasher)
      ensures this.hash == hash && Valid()
      ensures State() == Session.Init(hash)
      ensures stack == [] && archiveStack == [] && !Dirty()
    {
      this.hash := hash;
      var defaultHash := hash("");
      contentHash, savedHash, value := defaultHash, defaultHash, "";
      stack, archiveStack := [], [];
      input := Empty;
      saved := [];
    }

    method ComponentDidMount(defaultValue: Option<string>)
      requires Valid()
      modifies this
      ensures Valid()
      ensures State() == Session.ComponentDidMount(old(State()), defaultValue, hash)
      ensures defaultValue.None? || defaultValue.value == "" ==> State() == old(State())
      ensures defaultValue.Some? && defaultValue.value != "" ==>
        var v := defaultValue.value;
        stack == old(stack) + [Record(v, |v|, |v|)] && archiveStack == [] &&
        !Dirty() && saved == old(saved) + [v]
    {
      if defaultValue.None? || defaultValue.value == "" {
        return;
      }
      var v := defaultValue.value;
      UpdateStack(Record(v, |v|, |v|));
      savedHash := hash(v);
      saved := saved + [v];
    }

    method UpdateInput()
      modifies this
      ensures Session.Consistent(State(), hash)
      ensures State() == Session.UpdateInput(old(State()), hash)
      ensures stack == old(stack) && archiveStack == old(archiveStack)
      ensures savedHash == old(savedHash) && saved == old(saved)
    {
      var record := Empty;
      if stack != [] {
        record := stack[|stack| - 1];
      }
      input := record;
      value := record.value;
      contentHash := hash(record.value);
    }

    method UpdateStack(record: Record)
      requires Valid()
      modifies this
      ensures Valid()
      ensures State() == Session.UpdateStack(old(State()), record, hash)
      ensures stack == old(stack) + [record] && archiveStack == []
      ensures input == record && value == record.value
      ensures savedHash == old(savedHash) && saved == old(saved)
    {
      stack := stack + [record];
      archiveStack := [];
      UpdateInput();
    }

    method Undo()
      requires Valid()
      modifies this
      ensures Valid()
      ensures State() == Session.UndoStep(old(State()), hash)
      ensures old(stack) == [] ==> State() == old(State())
      ensures old(stack) != [] ==>
        stack + [old(stack)[|old(stack)| - 1]] == old(stack) &&
        archiveStack == old(archiveStack) + [old(stack)[|old(stack)| - 1]] &&
        input == Visible(stack)
      ensures savedHash == old(savedHash) && saved == old(saved)
    {
      if stack == [] {
        return;
      }
      var record := stack[|stack| - 1];
      stack := stack[..|stack| - 1];
      archiveStack := archiveStack + [record];
      UpdateInput();
    }

    method Redo()
      requires Valid()
      modifies this
      ensures Valid()
      ensures State() == Session.RedoStep(old(State()), hash)
      ensures old(archiveStack) == [] ==> State() == old(State())
      ensures old(archiveStack) != [] ==>
        stack == old(stack) + [old(archiveStack)[|old(archiveStack)| - 1]] &&
        archiveStack + [old(archiveStack)[|old(archiveStack)| - 1]] == old(archiveStack) &&
        input == old(archiveStack)[|old(archiveStack)| - 1]
      ensures savedHash == old(savedHash) && saved == old(saved)
    {
      if archiveStack == [] {
        return;
      }
      var record := archiveStack[|archiveStack| - 1];
      archiveStack := archiveStack[..|archiveStack| - 1];
      stack := stack + [record];
      UpdateInput();
    }

    method Save()
      requires Valid()
      modifies this
      ensures Valid() && !Dirty()
      ensures State() == Session.Save(old(State()), hash)
      ensures old(savedHash) == old(contentHash) ==> State() == old(State())
      ensures old(savedHash) != old(contentHash) ==>
        saved == old(saved) + [value] && savedHash == hash(value) &&
        stack == old(stack) && archiveStack == old(archiveStack) && value == old(value)
    {
      if savedHash == contentHash {
        return;
      }
      savedHash := hash(value);
      saved := saved + [value];
    }

    /** `handleKeyDown(e)`; the default action is always prevented. */
    method HandleKeyDown(e: Keys.KeyEvent, navigator: Option<string>,
                         lifeCycleMap: map<Keys.KeyTuple, Keys.LifeCycle>,
                         keysMap: map<Keys.KeyTuple, Keys.Transform>)
      returns (defaultPrevented: bool)
      requires Valid()
      modifies this
      ensures Valid() && defaultPrevented
      ensures State() == Session.HandleKeyDown(old(State()), e, navigator, lifeCycleMap, keysMap, hash)
    {
      defaultPrevented := true;
      var record := e.target;
      var keysPressed := Keys.KeysPressed(Platform.Classify(navigator), e);
      if keysPressed in lifeCycleMap {
        match lifeCycleMap[keysPressed] {
          case CallUndo => Undo();
          case CallRedo => Redo();
          case CallSave => Save();
        }
        return;
      }
      if keysPressed !in keysMap {
        return;
      }
      record := keysMap[keysPressed](e, record);
      UpdateStack(record);
    }
  }
}

/**
 * Key dispatch of `handleKeyDown` in src/index.js: the composite key built
 * from a key press and the two lookup tables it is resolved against.
 *
 * The source joins the key array into a string with `String(keysPressed)` and
 * indexes two objects with it; here the key is the tuple itself, so two key
 * presses select the same entry exactly when their tuples are equal.  The
 * tables (`lifeCycleMap`, `keysMap`) are parameters; a transform entry is an
 * arbitrary function from the event and the proposed record to a new record.
 */
module Keys {
  import opened History
  import Platform

  /** A raw key press: modifier flags, key code and the state of the text area it arrived at. */
  datatype KeyEvent = KeyEvent(
    metaKey: bool, ctrlKey: bool, shiftKey: bool, altKey: bool, keyCode: int,
    target: Record)

  /** `[platform(), metaKey, ctrlKey, shiftKey, altKey, keyCode, selectionStart !== selectionEnd]`. */
  datatype KeyTuple = KeyTuple(
    platform: Platform.Tag, metaKey: bool, ctrlKey: bool, shiftKey: bool, altKey: bool,
    keyCode: int, hasSelection: bool)

  /** The component methods a lifecycle entry can name (`this[lifeCycleMatch]()`). */
  datatype LifeCycle = CallUndo | CallRedo | CallSave

  /** A `keysMap` entry: `(e, record) => newRecord`. */
  type Transform = (KeyEvent, Record) -> Record

  /** What a key press resolves to. */
  datatype Action = LifeCycleAction(name: LifeCycle) | Edit(next: Record) | NoMatch

  /** The lookup key of a key press on a host of the given platform. */
  function KeysPressed(platform: Platform.Tag, e: KeyEvent): (k: KeyTuple)
    ensures k.hasSelection <==> e.target.selectionStart != e.target.selectionEnd
    ensures k.platform == platform && k.keyCode == e.keyCode
    ensures k.metaKey == e.metaKey && k.ctrlKey == e.ctrlKey
    ensures k.shiftKey == e.shiftKey && k.altKey == e.altKey
  {
    KeyTuple(platform, e.metaKey, e.ctrlKey, e.shiftKey, e.altKey, e.keyCode,
             e.target.selectionStart != e.target.selectionEnd)
  }

  /** The two-tier lookup: the lifecycle table first, then the transform table, else nothing.
      A transform receives the event and the record read from the text area. */
  function Resolve(k: KeyTuple, e: KeyEvent,
                   lifeCycleMap: map<KeyTuple, LifeCycle>,
                   keysMap: map<KeyTuple, Transform>): (a: Action)
    ensures a.LifeCycleAction? <==> k in lifeCycleMap
    ensures a.LifeCycleAction? ==> a.name == lifeCycleMap[k]
    ensures a.Edit? <==> k !in lifeCycleMap && k in keysMap
    ensures a.Edit? ==> a.next == keysMap[k](e, e.target)
    ensures a.NoMatch? <==> k !in lifeCycleMap && k !in keysMap
  {
    if k in lifeCycleMap then LifeCycleAction(lifeCycleMap[k])
    else if k in keysMap then Edit(keysMap[k](e, e.target))
    else NoMatch
  }

  /** A lifecycle hit never consults the transform table. */
  lemma LifeCycleFirst(k: KeyTuple, e: KeyEvent, lifeCycleMap: map<KeyTuple, LifeCycle>,
                       keysMap1: map<KeyTuple, Transform>, keysMap2: map<KeyTuple, Transform>)
    requires k in lifeCycleMap
    ensures Resolve(k, e, lifeCycleMap, keysMap1) == Resolve(k, e, lifeCycleMap, keysMap2)
  {
  }

  /** Which table entry is chosen depends on the key tuple alone, not on the rest of the event. */
  lemma ResolveByTuple(k: KeyTuple, e1: KeyEvent, e2: KeyEvent,
                       lifeCycleMap: map<KeyTuple, LifeCycle>, keysMap: map<KeyTuple, Transform>)
    ensures Resolve(k, e1, lifeCycleMap, keysMap).LifeCycleAction? ==
            Resolve(k, e2, lifeCycleMap, keysMap).LifeCycleAction?
    ensures Resolve(k, e1, lifeCycleMap, keysMap).Edit? == Resolve(k, e2, lifeCycleMap, keysMap).Edit?
    ensures Resolve(k, e1, lifeCycleMap, keysMap).LifeCycleAction? ==>
            Resolve(k, e1, lifeCycleMap, keysMap) == Resolve(k, e2, lifeCycleMap, keysMap)
  {
  }
}

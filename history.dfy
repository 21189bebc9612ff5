/**
 * The two history stacks of the `Editor` component in src/index.js:
 * `this.stack` (the undo stack) and `this.archiveStack` (the redo stack), as
 * values.  A sequence's last element is the top of the stack, as with the
 * JavaScript arrays' `push` and `pop`.
 *
 * Beside the stacks stands an independent reference model, a `Timeline`: the
 * list of every record that undo and redo can reach, oldest first, and a
 * cursor saying how many of them are currently applied.  `Abs` maps the stacks
 * onto it, and the lemmas show that push, undo and redo act on the timeline
 * as "cut at the cursor and append", "step back" and "step forward".
 */
module History {

  /** One committed editing state: the text and the selection bounds. */
  datatype Record = Record(value: string, selectionStart: int, selectionEnd: int)

  /** The record shown when the undo stack is empty. */
  const Empty := Record("", 0, 0)

  /** The selection lies inside the text, start before end. */
  predicate WellFormed(r: Record)
  {
    0 <= r.selectionStart <= r.selectionEnd <= |r.value|
  }

  /** `this.stack` and `this.archiveStack`. */
  datatype Stacks = Stacks(undo: seq<Record>, redo: seq<Record>)

  /** The record `updateInput` republishes: the top of the undo stack, or `Empty`. */
  function Visible(undo: seq<Record>): Record
  {
    if undo == [] then Empty else undo[|undo| - 1]
  }

  /** `updateStack`: push onto the undo stack and drop the redo stack. */
  function Push(h: Stacks, r: Record): Stacks
  {
    Stacks(h.undo + [r], [])
  }

  /** `undo`: pop the undo stack onto the redo stack; nothing when it is empty. */
  function Undo(h: Stacks): Stacks
  {
    if h.undo == [] then h
    else Stacks(h.undo[..|h.undo| - 1], h.redo + [h.undo[|h.undo| - 1]])
  }

  /** `redo`: pop the redo stack onto the undo stack; nothing when it is empty. */
  function Redo(h: Stacks): Stacks
  {
    if h.redo == [] then h
    else Stacks(h.undo + [h.redo[|h.redo| - 1]], h.redo[..|h.redo| - 1])
  }

  // ---------------------------------------------------------------------------
  // The stack operations, one call at a time

  /** After a push the pushed record is visible and the redo stack is empty, whatever it held. */
  lemma PushClearsRedo(h: Stacks, r: Record)
    ensures Push(h, r).undo == h.undo + [r]
    ensures Push(h, r).redo == []
    ensures Visible(Push(h, r).undo) == r
  {
  }

  /** Undo on an empty undo stack changes neither stack. */
  lemma UndoEmptyIsNoOp(h: Stacks)
    requires h.undo == []
    ensures Undo(h) == h
  {
  }

  /** Undo moves exactly the top undo record onto the top of the redo stack. */
  lemma UndoMovesTop(h: Stacks)
    requires h.undo != []
    ensures Undo(h).undo + [h.undo[|h.undo| - 1]] == h.undo
    ensures Undo(h).redo == h.redo + [h.undo[|h.undo| - 1]]
    ensures Visible(Undo(h).undo) == Visible(h.undo[..|h.undo| - 1])
  {
  }

  /** Redo on an empty redo stack changes neither stack. */
  lemma RedoEmptyIsNoOp(h: Stacks)
    requires h.redo == []
    ensures Redo(h) == h
  {
  }

  /** Redo moves exactly the top redo record back; the rest of the redo stack survives. */
  lemma RedoMovesTop(h: Stacks)
    requires h.redo != []
    ensures Redo(h).undo == h.undo + [h.redo[|h.redo| - 1]]
    ensures Redo(h).redo + [h.redo[|h.redo| - 1]] == h.redo
    ensures Visible(Redo(h).undo) == h.redo[|h.redo| - 1]
  {
  }

  /** Redo undoes an undo, and undo undoes a redo. */
  lemma UndoRedoInverse(h: Stacks)
    ensures h.undo != [] ==> Redo(Undo(h)) == h
    ensures h.redo != [] ==> Undo(Redo(h)) == h
  {
  }

  /** Every operation keeps all records well formed, given a well-formed pushed record. */
  predicate AllWellFormed(h: Stacks)
  {
    (forall i :: 0 <= i < |h.undo| ==> WellFormed(h.undo[i])) &&
    (forall i :: 0 <= i < |h.redo| ==> WellFormed(h.redo[i]))
  }

  lemma OperationsKeepWellFormed(h: Stacks, r: Record)
    requires AllWellFormed(h)
    ensures WellFormed(r) ==> AllWellFormed(Push(h, r))
    ensures AllWellFormed(Undo(h)) && AllWellFormed(Redo(h))
    ensures WellFormed(Visible(h.undo))
  {
  }

  // ---------------------------------------------------------------------------
  // Repeated operations

  /** `n` pushes of the records `ps`, in order. */
  function PushAll(h: Stacks, ps: seq<Record>): (h': Stacks)
    ensures ps == [] ==> h' == h
    ensures ps != [] ==> h'.undo == h.undo + ps && h'.redo == []
  {
    if ps == [] then h
    else
      var g := Push(PushAll(h, ps[..|ps| - 1]), ps[|ps| - 1]);
      assert ps[..|ps| - 1] + [ps[|ps| - 1]] == ps;
      g
  }

  /** `n` undos in a row. */
  function UndoN(h: Stacks, n: nat): (h': Stacks)
    ensures n <= |h.undo| ==> h'.undo == h.undo[..|h.undo| - n]
    ensures n <= |h.undo| ==> h'.redo == h.redo + Reversed(h.undo[|h.undo| - n..])
    ensures n >= |h.undo| ==> h'.undo == [] && h'.redo == h.redo + Reversed(h.undo)
  {
    if n == 0 then
      assert h.undo[|h.undo|..] == [];
      h
    else
      var g := UndoN(h, n - 1);
      if n <= |h.undo| then
        var k := |h.undo| - n;
        assert h.undo[k..] == [h.undo[k]] + h.undo[k + 1..];
        assert n == |h.undo| ==> h.undo[k..] == h.undo;
        ReversedCons(h.undo[k], h.undo[k + 1..]);
        Undo(g)
      else
        Undo(g)
  }

  /** `n` redos in a row. */
  function RedoN(h: Stacks, n: nat): (h': Stacks)
    ensures n <= |h.redo| ==> h'.redo == h.redo[..|h.redo| - n]
    ensures n <= |h.redo| ==> h'.undo == h.undo + Reversed(h.redo[|h.redo| - n..])
    ensures n >= |h.redo| ==> h'.redo == [] && h'.undo == h.undo + Reversed(h.redo)
    decreases n
  {
    if n == 0 then
      assert h.redo[|h.redo|..] == [];
      h
    else
      var g := RedoN(Redo(h), n - 1);
      RedoNShift(h, n, g);
      g
  }

  /** What `RedoN(Redo(h), n - 1)` leaves is what `n` redos from `h` promise. */
  lemma RedoNShift(h: Stacks, n: nat, g: Stacks)
    requires n > 0
    requires n - 1 <= |Redo(h).redo| ==> g.redo == Redo(h).redo[..|Redo(h).redo| - (n - 1)]
    requires n - 1 <= |Redo(h).redo| ==>
      g.undo == Redo(h).undo + Reversed(Redo(h).redo[|Redo(h).redo| - (n - 1)..])
    requires n - 1 >= |Redo(h).redo| ==>
      g.redo == [] && g.undo == Redo(h).undo + Reversed(Redo(h).redo)
    ensures n <= |h.redo| ==> g.redo == h.redo[..|h.redo| - n]
    ensures n <= |h.redo| ==> g.undo == h.undo + Reversed(h.redo[|h.redo| - n..])
    ensures n >= |h.redo| ==> g.redo == [] && g.undo == h.undo + Reversed(h.redo)
  {
    var m := |h.redo|;
    if m == 0 {
      assert Redo(h) == h;
    } else {
      var y := h.redo[m - 1];
      var rest := h.redo[..m - 1];
      assert Redo(h) == Stacks(h.undo + [y], rest);
      assert Reversed(h.redo) == [y] + Reversed(rest);
      if n <= m {
        var tail := h.redo[m - n..];
        assert tail[..|tail| - 1] == rest[m - n..];
        assert rest[..m - 1 - (n - 1)] == h.redo[..m - n];
        assert Reversed(tail) == [y] + Reversed(tail[..|tail| - 1]);
        assert n == m ==> tail == h.redo;
      }
    }
  }

  /** Reversing a sequence puts its first element last. */
  lemma ReversedCons<T>(x: T, t: seq<T>)
    ensures Reversed([x] + t) == Reversed(t) + [x]
  {
    var a, b := Reversed([x] + t), Reversed(t) + [x];
    assert |a| == |b|;
    forall i | 0 <= i < |a| ensures a[i] == b[i] {
      if i < |t| {
        assert ([x] + t)[|t| - i] == t[|t| - 1 - i];
      }
    }
  }

  /** `n` undos followed by `n` redos restore both stacks, when there were `n` records to undo. */
  lemma {:induction false} UndoNThenRedoN(h: Stacks, n: nat)
    requires n <= |h.undo|
    ensures RedoN(UndoN(h, n), n) == h
  {
    if n > 0 {
      var g := UndoN(h, n - 1);
      assert g.undo != [];
      UndoRedoInverse(g);
      calc {
        RedoN(UndoN(h, n), n);
        RedoN(Redo(Undo(g)), n - 1);
        RedoN(g, n - 1);
        { UndoNThenRedoN(h, n - 1); }
        h;
      }
    }
  }

  /** After pushes `ps`, undoing them all shows what was visible before, and redoing them all
      restores both stacks and the last pushed record. */
  lemma PushesUndoneAndRedone(h: Stacks, ps: seq<Record>)
    requires ps != []
    ensures UndoN(PushAll(h, ps), |ps|).undo == h.undo
    ensures RedoN(UndoN(PushAll(h, ps), |ps|), |ps|) == PushAll(h, ps)
    ensures Visible(RedoN(UndoN(PushAll(h, ps), |ps|), |ps|).undo) == ps[|ps| - 1]
  {
    var h1 := PushAll(h, ps);
    assert h1.undo[..|h1.undo| - |ps|] == h.undo;
    UndoNThenRedoN(h1, |ps|);
  }

  // ---------------------------------------------------------------------------
  // The timeline reference model

  /** `s` read from its last element to its first. */
  function Reversed<T>(s: seq<T>): (r: seq<T>)
    ensures |r| == |s|
    ensures forall i :: 0 <= i < |s| ==> r[i] == s[|s| - 1 - i]
  {
    if s == [] then [] else [s[|s| - 1]] + Reversed(s[..|s| - 1])
  }

  /** Every reachable record, oldest first, and how many of them are applied. */
  datatype Timeline = Timeline(entries: seq<Record>, cursor: nat)

  predicate TimelineValid(t: Timeline)
  {
    t.cursor <= |t.entries|
  }

  /** The applied record at the cursor, or `Empty` before the first one. */
  function TimelineVisible(t: Timeline): Record
    requires TimelineValid(t)
  {
    if t.cursor == 0 then Empty else t.entries[t.cursor - 1]
  }

  /** A new edit discards everything after the cursor. */
  function TimelinePush(t: Timeline, r: Record): Timeline
    requires TimelineValid(t)
  {
    Timeline(t.entries[..t.cursor] + [r], t.cursor + 1)
  }

  function TimelineBack(t: Timeline): Timeline
  {
    if t.cursor == 0 then t else Timeline(t.entries, t.cursor - 1)
  }

  function TimelineForward(t: Timeline): Timeline
  {
    if t.cursor >= |t.entries| then t else Timeline(t.entries, t.cursor + 1)
  }

  /** The undo stack is the applied part of the timeline; the redo stack, reversed, the rest. */
  function Abs(h: Stacks): (t: Timeline)
    ensures TimelineValid(t)
  {
    Timeline(h.undo + Reversed(h.redo), |h.undo|)
  }

  /** `Abs` forgets nothing: the timeline determines both stacks. */
  lemma AbsInjective(h1: Stacks, h2: Stacks)
    requires Abs(h1) == Abs(h2)
    ensures h1 == h2
  {
    var t := Abs(h1).entries;
    assert h1.undo == t[..|h1.undo|] == h2.undo;
    var r1, r2 := Reversed(h1.redo), Reversed(h2.redo);
    assert r1 == t[|h1.undo|..] == r2;
    assert |h1.redo| == |h2.redo|;
    forall i | 0 <= i < |h1.redo| ensures h1.redo[i] == h2.redo[i] {
      var k := |h1.redo| - 1 - i;
      assert r1[k] == h1.redo[i] && r2[k] == h2.redo[i];
    }
  }

  /** The visible record is the timeline entry at the cursor. */
  lemma AbsVisible(h: Stacks)
    ensures Visible(h.undo) == TimelineVisible(Abs(h))
  {
  }

  /** A push cuts the timeline at the cursor and appends the record. */
  lemma AbsPush(h: Stacks, r: Record)
    ensures Abs(Push(h, r)) == TimelinePush(Abs(h), r)
  {
  }

  /** Undo steps the cursor back and keeps every entry. */
  lemma AbsUndo(h: Stacks)
    ensures Abs(Undo(h)) == TimelineBack(Abs(h))
  {
  }

  /** Redo steps the cursor forward and keeps every entry. */
  lemma AbsRedo(h: Stacks)
    ensures Abs(Redo(h)) == TimelineForward(Abs(h))
  {
  }
}

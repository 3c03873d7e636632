/**
 * The caretaker of the memento pattern: a LIFO history of opaque snapshots
 * taken from one image editor. It never looks inside a snapshot; it only
 * stores it and hands it back to the editor on undo.
 */
module Caretaker {
  import opened Originator

  /**
   * What one undo does to a stack of mementos and the editor's state: pop
   * the top memento and restore from it; when the editor refuses it, discard
   * it and go on with the shorter stack; on an empty stack, nothing.
   * The result is the remaining stack and the editor's new state.
   */
  function UndoSpec(stack: seq<Memento>, current: EditorState): (r: (seq<Memento>, EditorState))
    // what is left is the bottom of the stack
    ensures |r.0| <= |stack| && r.0 == stack[..|r.0|]
    // everything discarded above the restored memento was refused by the editor
    ensures forall i | |r.0| < i < |stack| :: stack[i].Foreign?
    // either nothing could be restored: the stack is emptied and the state kept;
    // or the topmost restorable memento was popped and the state is its contents
    ensures || (r.0 == [] && r.1 == current && forall i | 0 <= i < |stack| :: stack[i].Foreign?)
            || (|r.0| < |stack| && stack[|r.0|].ImageMemento? && r.1 == stack[|r.0|].state)
    decreases |stack|
  {
    if stack == [] then (stack, current)
    else
      var top, rest := stack[|stack| - 1], stack[..|stack| - 1];
      if top.ImageMemento? then (rest, top.state) else UndoSpec(rest, current)
  }

  /** The result of `k` undos in a row. */
  function UndoTimes(stack: seq<Memento>, current: EditorState, k: nat): (seq<Memento>, EditorState)
    decreases k
  {
    if k == 0 then (stack, current)
    else
      var (rest, restored) := UndoSpec(stack, current);
      UndoTimes(rest, restored, k - 1)
  }

  /** Undo on an empty history is a no-op however often it is repeated. */
  lemma {:induction false} UndoEmptyIsNoOp(current: EditorState, k: nat)
    ensures UndoTimes([], current, k) == ([], current)
    decreases k
  {
    if k > 0 {
      UndoEmptyIsNoOp(current, k - 1);
    }
  }

  /** Backup followed by undo restores the backed-up state and the earlier history. */
  lemma BackupThenUndo(stack: seq<Memento>, saved: EditorState, date: int, current: EditorState)
    ensures UndoSpec(stack + [ImageMemento(saved, date)], current) == (stack, saved)
  {
  }

  /** Refused mementos on top of the stack are skipped: undo acts as if they were never there. */
  lemma {:induction false} UndoSkipsForeign(below: seq<Memento>, foreign: seq<Memento>, current: EditorState)
    requires forall i | 0 <= i < |foreign| :: foreign[i].Foreign?
    ensures UndoSpec(below + foreign, current) == UndoSpec(below, current)
    decreases |foreign|
  {
    if foreign == [] {
      assert below + foreign == below;
    } else {
      var stack := below + foreign;
      var shorter := foreign[..|foreign| - 1];
      assert stack[|stack| - 1] == foreign[|foreign| - 1];
      assert stack[..|stack| - 1] == below + shorter;
      UndoSkipsForeign(below, shorter, current);
    }
  }

  /**
   * After backups at states S0..Sn (every memento restorable), k undos with
   * 1 <= k <= n+1 leave the editor in S(n+1-k) and the history holding S0..S(n-k).
   */
  lemma {:induction false} StackRoundTrip(stack: seq<Memento>, current: EditorState, k: nat)
    requires forall i | 0 <= i < |stack| :: stack[i].ImageMemento?
    requires 1 <= k <= |stack|
    ensures UndoTimes(stack, current, k) == (stack[..|stack| - k], stack[|stack| - k].state)
    decreases k
  {
    var n := |stack|;
    var rest := stack[..n - 1];
    assert UndoSpec(stack, current) == (rest, stack[n - 1].state);
    if k > 1 {
      StackRoundTrip(rest, stack[n - 1].state, k - 1);
      assert rest[..|rest| - (k - 1)] == stack[..n - k];
    }
  }

  class History {
    var mementos: seq<Memento>
    const originator: ImageEditor

    /** The editor's buffer fits its dimensions, and so does every memento it could restore. */
    ghost predicate Valid()
      reads this, originator
    {
      && originator.Valid()
      && forall i | 0 <= i < |mementos| :: Restorable(mementos[i])
    }

    /** An empty history for `originator`. */
    constructor (originator: ImageEditor)
      ensures this.originator == originator && mementos == []
      ensures originator.Valid() ==> Valid()
    {
      this.originator := originator;
      mementos := [];
    }

    /** Pushes a snapshot of the editor's current state; the editor is not changed. */
    method Backup(now: int)
      requires Valid()
      modifies this
      ensures Valid()
      ensures mementos == old(mementos) + [ImageMemento(originator.State(), now)]
      ensures originator.State() == old(originator.State())
    {
      var m := originator.Save(now);
      mementos := mementos + [m];
    }

    /**
     * Pops mementos until the editor accepts one or none is left. The
     * recursive retry on a refused memento becomes a loop over a strictly
     * shorter history.
     */
    method Undo()
      requires Valid()
      modifies this, originator
      ensures Valid()
      ensures (mementos, originator.State()) == UndoSpec(old(mementos), old(originator.State()))
      ensures old(mementos) == [] ==> mementos == [] && unchanged(originator)
    {
      while mementos != []
        invariant Valid()
        invariant UndoSpec(mementos, originator.State()) == UndoSpec(old(mementos), old(originator.State()))
        invariant old(mementos) == [] ==> unchanged(originator)
        decreases |mementos|
      {
        var memento := mementos[|mementos| - 1];
        mementos := mementos[..|mementos| - 1];
        var outcome := originator.Restore(memento);
        if outcome == Restored {
          return;
        }
      }
    }

    /** The labels of the stored mementos in insertion order, oldest first; the history is not changed. */
    method ShowHistory() returns (labels: seq<Label>)
      ensures |labels| == |mementos|
      ensures forall i | 0 <= i < |mementos| :: labels[i] == Name(mementos[i])
    {
      labels := [];
      for i := 0 to |mementos|
        invariant |labels| == i
        invariant forall j | 0 <= j < i :: labels[j] == Name(mementos[j])
      {
        labels := labels + [Name(mementos[i])];
      }
    }
  }
}

/**
 * Runs of calls on one watchlist, composed from the single-call contracts of
 * module WatchLists: any run of mutations, then as many undos. Undo takes the
 * commands back in the reverse order they were pushed, and each one restores
 * the state before it, unless it is a removal before the cursor.
 */
module History {
  import opened Wrappers
  import opened Snapshots
  import opened WatchLists

  /** Makes the watchlist call `op` stands for; the watchables involved come from `pool`. */
  method Perform(w: WatchList, op: Op<Watchable>, pool: set<Watchable>)
    requires w.Valid() && Enabled(op, w.Capture())
    requires op.Add? ==> op.item in pool
    requires forall x :: x in w.list ==> x in pool
    modifies w, pool`observers
    ensures w.Valid() && forall x :: x in w.list ==> x in pool
    ensures w.Capture() == Apply(op, old(w.Capture()))
    ensures w.undoPointer == old(w.undoPointer) + 1 < |w.undoStack|
    ensures forall i :: 0 <= i < w.undoPointer ==> w.undoStack[i] == old(w.undoStack[i])
    ensures fresh(w.undoStack[w.undoPointer]) && w.undoStack[w.undoPointer].prevState == Some(old(w.Capture()))
    ensures forall i :: 0 <= i < w.undoPointer ==> (w.UndoesExactly(i) <==> old(w.UndoesExactly(i)))
    ensures w.UndoesExactly(w.undoPointer) <==> !MovesCursorBack(op, old(w.Capture()))
  {
    match op
    case Add(item) =>
      w.AddWatchable(item);
    case Remove(i) =>
      var removed := w.RemoveWatchable(i);
    case Next =>
      var item := w.Next();
    case Reset =>
      w.Reset();
    case Rename(n) =>
      w.SetName(n);
    SamePrefix(w.undoStack, old(w.undoStack), w.undoPointer);
  }

  /** Two sequences with equal prefixes of length n agree at every index below n. */
  lemma SamePrefix<T>(a: seq<T>, b: seq<T>, n: nat)
    requires n <= |a| && n <= |b| && a[..n] == b[..n]
    ensures forall i :: 0 <= i < n ==> a[i] == b[i]
  {
    forall i | 0 <= i < n ensures a[i] == b[i] {
      assert a[..n][i] == b[..n][i];
    }
  }

  /**
   * Performs the mutations in order. Each pushes one command; the lowest of
   * them holds the state before the run, each undoes exactly, and the
   * commands below the run keep undoing exactly iff they did.
   */
  method PerformAll(w: WatchList, ops: seq<Op<Watchable>>, pool: set<Watchable>)
    requires w.Valid() && Replay(ops, w.Capture()).Some?
    requires forall x :: x in w.list ==> x in pool
    requires forall k :: 0 <= k < |ops| && ops[k].Add? ==> ops[k].item in pool
    modifies w, pool`observers
    ensures w.Valid() && w.Capture() == Replay(ops, old(w.Capture())).value
    ensures w.undoPointer == old(w.undoPointer) + |ops| < |w.undoStack|
    ensures forall i :: 0 <= i <= old(w.undoPointer) ==> w.undoStack[i] == old(w.undoStack[i])
    ensures |ops| > 0 ==> w.undoStack[old(w.undoPointer) + 1].prevState == Some(old(w.Capture()))
    ensures forall i :: 0 <= i <= old(w.undoPointer) ==> (w.UndoesExactly(i) <==> old(w.UndoesExactly(i)))
    ensures forall i :: old(w.undoPointer) < i <= w.undoPointer ==> w.UndoesExactly(i) && fresh(w.undoStack[i])
    decreases |ops|
  {
    if ops == [] {
      return;
    }
    ghost var top := w.undoPointer + 1;
    Perform(w, ops[0], pool);
    ghost var first := w.undoStack[top];
    assert first.prevState == Some(old(w.Capture())) && w.UndoesExactly(top);
    label mid:
    PerformAll(w, ops[1..], pool);
    assert w.undoStack[top] == first;
    forall i | 0 <= i < top
      ensures w.undoStack[i] == old(w.undoStack[i]) && (w.UndoesExactly(i) <==> old(w.UndoesExactly(i)))
    {
      assert w.undoStack[i] == old@mid(w.undoStack[i]);
      assert w.UndoesExactly(i) <==> old@mid(w.UndoesExactly(i));
    }
    forall i | old(w.undoPointer) < i <= w.undoPointer
      ensures w.UndoesExactly(i) && fresh(w.undoStack[i])
    {
      if i == top {
        assert old@mid(w.UndoesExactly(i));
      }
    }
  }

  /**
   * n undos in a row. When the n commands from the undo pointer down all undo
   * exactly, the state afterwards is the previous snapshot of the lowest one.
   */
  method UndoTimes(w: WatchList, n: nat)
    requires w.Valid() && 0 < n <= w.undoPointer + 1
    requires forall i :: w.undoPointer - n < i <= w.undoPointer ==> w.UndoesExactly(i)
    modifies w, set i | w.undoPointer - n < i <= w.undoPointer :: w.undoStack[i]
    ensures w.Valid() && w.undoPointer == old(w.undoPointer) - n
    ensures w.Capture() == old(w.undoStack[w.undoPointer + 1 - n].prevState.value)
  {
    ghost var low := w.undoPointer + 1 - n;
    for j := 0 to n
      invariant w.Valid() && w.undoStack == old(w.undoStack) && w.undoPointer == old(w.undoPointer) - j
      invariant forall i :: low <= i <= w.undoPointer ==> w.UndoesExactly(i)
      invariant w.undoStack[low].prevState == old(w.undoStack[low].prevState)
      invariant j > 0 ==> w.Capture() == w.undoStack[w.undoPointer + 1].prevState.value
    {
      w.Undo();
    }
  }

  /**
   * n mutations, none of them a removal before the cursor, followed by n
   * undos give back the name, the list, the cursor and the last watched entry
   * as they were before the mutations.
   */
  method RoundTrip(w: WatchList, ops: seq<Op<Watchable>>, pool: set<Watchable>)
    requires w.Valid() && Replay(ops, w.Capture()).Some?
    requires forall x :: x in w.list ==> x in pool
    requires forall k :: 0 <= k < |ops| && ops[k].Add? ==> ops[k].item in pool
    modifies w, pool`observers
    ensures w.Valid() && w.Capture() == old(w.Capture())
    ensures w.undoPointer == old(w.undoPointer)
  {
    PerformAll(w, ops, pool);
    if |ops| > 0 {
      assert w.undoPointer - |ops| == old(w.undoPointer);
      UndoTimes(w, |ops|);
    }
  }
}

/**
 * The state of a watchlist as a command captures it (the copy constructor
 * WatchList(WatchList)), the five mutations a watchlist records, and what
 * each command variant restores on undo and on redo. Everything here is a
 * value; the classes in module WatchLists are proved against these functions.
 */
module Snapshots {
  import opened Wrappers
  import Cursor

  /** The command variants: which field of the watchlist each one restores. */
  datatype Kind = AddRemove | NextReset | SetName

  /** The fields the copy constructor copies: name, list contents, cursor, last watched. */
  datatype Snapshot<T> = Snapshot(name: string, list: seq<T>, next: nat, lastWatched: Option<T>)

  /** The mutating calls of a watchlist, each recorded as one command. */
  datatype Op<T> = Add(item: T) | Remove(index: nat) | Next | Reset | Rename(newName: string)

  /** The command variant each mutation pushes. */
  function KindOf<T>(op: Op<T>): Kind
  {
    match op
    case Add(_) => AddRemove
    case Remove(_) => AddRemove
    case Next => NextReset
    case Reset => NextReset
    case Rename(_) => SetName
  }

  /** The precondition the watchlist asserts before the mutation. */
  predicate Enabled<T>(op: Op<T>, s: Snapshot<T>)
  {
    match op
    case Remove(i) => i < |s.list|
    case Next => |s.list| - s.next > 0
    case _ => true
  }

  /** The watchlist's fields after the mutation itself (after the command was pushed). */
  function Apply<T>(op: Op<T>, s: Snapshot<T>): (r: Snapshot<T>)
    requires Enabled(op, s)
    ensures r.lastWatched == s.lastWatched
    ensures r.name == (if op.Rename? then op.newName else s.name)
    ensures KindOf(op) != AddRemove ==> r.list == s.list
    ensures op.Add? ==> |r.list| == |s.list| + 1 && r.list[..|s.list|] == s.list && r.list[|s.list|] == op.item
    ensures op.Remove? ==> |r.list| == |s.list| - 1
    ensures op.Remove? ==> forall j :: 0 <= j < op.index ==> r.list[j] == s.list[j]
    ensures op.Remove? ==> forall j :: op.index <= j < |r.list| ==> r.list[j] == s.list[j + 1]
    ensures KindOf(op) == SetName ==> r.next == s.next
    ensures op.Add? ==> r.next == s.next
    ensures op.Remove? ==> r.next == (if s.next > op.index then s.next - 1 else s.next)
    ensures op.Next? ==> r.next == (s.next + 1) % |s.list|
    ensures op.Reset? ==> r.next == 0
  {
    match op
    case Add(w) => s.(list := s.list + [w])
    case Remove(i) =>
      s.(list := s.list[..i] + s.list[i + 1..], next := if s.next > i then s.next - 1 else s.next)
    case Next => s.(next := Cursor.Advance(s.next, |s.list|))
    case Reset => s.(next := 0)
    case Rename(n) => s.(name := n)
  }

  /** A removal before the cursor: the one mutation an undo does not reverse exactly. */
  predicate MovesCursorBack<T>(op: Op<T>, s: Snapshot<T>)
  {
    op.Remove? && op.index < s.next
  }

  /**
   * The state after a run of mutations from `s`, when each one is enabled in
   * the state before it and none moves the cursor back; None otherwise.
   */
  function Replay<T>(ops: seq<Op<T>>, s: Snapshot<T>): (r: Option<Snapshot<T>>)
    ensures r.Some? ==> r.value.lastWatched == s.lastWatched
    decreases |ops|
  {
    if ops == [] then Some(s)
    else if Enabled(ops[0], s) && !MovesCursorBack(ops[0], s) then Replay(ops[1..], Apply(ops[0], s))
    else None
  }

  /**
   * A command's undo (AbstractCommand.unExecute followed by the variant's
   * override): from the current state, the collection always comes back from
   * the previous snapshot, and additionally the cursor for NextReset and the
   * name for SetName. The last-watched marker is never restored.
   */
  function Undone<T>(kind: Kind, current: Snapshot<T>, previous: Snapshot<T>): (r: Snapshot<T>)
    ensures r.list == previous.list
    ensures r.next == (if kind == NextReset then previous.next else current.next)
    ensures r.name == (if kind == SetName then previous.name else current.name)
    ensures r.lastWatched == current.lastWatched
  {
    match kind
    case AddRemove => current.(list := previous.list)
    case NextReset => current.(list := previous.list, next := previous.next)
    case SetName => current.(list := previous.list, name := previous.name)
  }

  /**
   * A command's redo (AbstractCommand.reExecute followed by the variant's
   * override): without a state captured by an earlier undo nothing changes;
   * with one, only the variant's own field comes back from it.
   */
  function Redone<T>(kind: Kind, current: Snapshot<T>, next: Option<Snapshot<T>>): (r: Snapshot<T>)
    ensures next.None? ==> r == current
    ensures r.lastWatched == current.lastWatched
    ensures r.list == (if next.Some? && kind == AddRemove then next.value.list else current.list)
    ensures r.next == (if next.Some? && kind == NextReset then next.value.next else current.next)
    ensures r.name == (if next.Some? && kind == SetName then next.value.name else current.name)
  {
    match next
    case None => current
    case Some(n) =>
      match kind
      case AddRemove => current.(list := n.list)
      case NextReset => current.(next := n.next)
      case SetName => current.(name := n.name)
  }

  /**
   * Removal keeps the cursor on the same logical element: with [A,B,C,D] and
   * the cursor at 2 (C), removing index 0 gives [B,C,D] with the cursor at 1.
   * When the removed element is not the one under the cursor, the cursor
   * still designates the element it designated before.
   */
  lemma RemoveKeepsCursorTarget<T>(s: Snapshot<T>, i: nat)
    requires i < |s.list| && s.next < |s.list| && i != s.next
    ensures var r := Apply(Remove(i), s); r.next < |r.list| && r.list[r.next] == s.list[s.next]
  {
  }

  /**
   * Undoing a mutation right after it restores every captured field, except
   * in one case: a removal before the cursor moved the cursor back, and the
   * add/remove command restores only the collection, so the cursor stays moved.
   */
  lemma UndoAfterApply<T>(op: Op<T>, s: Snapshot<T>)
    requires Enabled(op, s)
    ensures Undone(KindOf(op), Apply(op, s), s) == s <==> !MovesCursorBack(op, s)
  {
    var r := Undone(KindOf(op), Apply(op, s), s);
    if MovesCursorBack(op, s) {
      assert r.next != s.next;
    }
  }

  /**
   * Redo right after undo gives back the state the undo started from exactly
   * when the command restores the collection, or the collection did not
   * differ from the command's previous snapshot (undo restores the collection
   * for every variant, redo only for add/remove).
   */
  lemma RedoAfterUndo<T>(kind: Kind, current: Snapshot<T>, previous: Snapshot<T>)
    ensures Redone(kind, Undone(kind, current, previous), Some(current)) == current
        <==> kind == AddRemove || previous.list == current.list
  {
    var r := Redone(kind, Undone(kind, current, previous), Some(current));
    if kind != AddRemove && previous.list != current.list {
      assert r.list != current.list;
    }
  }

  /** So a mutation, undone and then redone, leaves the state the mutation produced. */
  lemma ApplyUndoRedo<T>(op: Op<T>, s: Snapshot<T>)
    requires Enabled(op, s)
    ensures var t := Apply(op, s); Redone(KindOf(op), Undone(KindOf(op), t, s), Some(t)) == t
  {
    RedoAfterUndo(KindOf(op), Apply(op, s), s);
  }

  /**
   * Undo right after redo is an exact round trip: redo refreshes the previous
   * snapshot to the state it started from, and undo restores the collection
   * and the variant's field from it.
   */
  lemma UndoAfterRedo<T>(kind: Kind, current: Snapshot<T>, next: Option<Snapshot<T>>)
    ensures Undone(kind, Redone(kind, current, next), current) == current
  {
  }
}

/**
 * Watchlists with command-based undo/redo, and the watchable entities they
 * hold. Watchable, WatchList and Command refer to one another (a watchable
 * keeps the watchlists observing it, a watchlist keeps its commands, a
 * command keeps its watchlist), so the three classes share this module.
 */
module WatchLists {
  import opened Wrappers
  import opened Snapshots
  import Tags
  import Lists

  /** Stand-in for the Language enumeration, which is not part of this model. */
  datatype Language = English | French | Spanish | OtherLanguage(name: string)

  /**
   * The state every watchable shares (AbstractWatchable): title, studio,
   * language, a tag map and the watchlists observing it. `valid` is the answer
   * the concrete kind's isValid gives; the model holds it as a flag.
   */
  class Watchable {
    var title: string
    const studio: string
    const language: Language
    var tags: map<string, string>
    var observers: seq<WatchList>
    var valid: bool

    constructor (title: string, studio: string, language: Language, valid: bool)
      ensures this.title == title && this.studio == studio && this.language == language
      ensures this.valid == valid
      ensures tags == map[] && observers == []
    {
      this.title := title;
      this.studio := studio;
      this.language := language;
      this.valid := valid;
      tags := map[];
      observers := [];
    }

    /**
     * The field-by-field copy Object.clone makes: the copy starts with the
     * same tags and the same observers as the original.
     */
    constructor Copy(original: Watchable)
      ensures title == original.title && studio == original.studio && language == original.language
      ensures tags == original.tags && observers == original.observers && valid == original.valid
    {
      title := original.title;
      studio := original.studio;
      language := original.language;
      tags := original.tags;
      observers := original.observers;
      valid := original.valid;
    }

    /** Plays the watchable: every observing watchlist records it as last watched. */
    method Watch()
      modifies observers`lastWatched
      ensures forall i :: 0 <= i < |observers| ==> observers[i].lastWatched == Some(this)
    {
      NotifyObservers();
    }

    /** Calls update(this) on each observer in turn; duplicates are notified twice. */
    method NotifyObservers()
      modifies observers`lastWatched
      ensures forall i :: 0 <= i < |observers| ==> observers[i].lastWatched == Some(this)
    {
      for i := 0 to |observers|
        invariant forall j :: 0 <= j < i ==> observers[j].lastWatched == Some(this)
      {
        observers[i].Update(this);
      }
    }

    /** Appends an observer; an observer already present is added again. */
    method AddObserver(watchList: WatchList)
      modifies `observers
      ensures observers == old(observers) + [watchList]
    {
      observers := observers + [watchList];
    }

    /** Removes the first occurrence of an observer, if any. */
    method RemoveObserver(watchList: WatchList)
      modifies `observers
      ensures watchList in old(observers) ==>
                var k := Lists.IndexOf(old(observers), watchList);
                observers == old(observers)[..k] + old(observers)[k + 1..]
      ensures watchList !in old(observers) ==> observers == old(observers)
    {
      Lists.RemoveFirstCutsFirst(observers, watchList);
      observers := Lists.RemoveFirst(observers, watchList);
    }

    /**
     * Maps a non-blank key to a value, or removes the key when the value is
     * null; returns the previous mapping or null.
     */
    method SetInfo(key: string, value: Option<string>) returns (previous: Option<string>)
      requires !Tags.IsBlank(key)
      modifies `tags
      ensures previous == Tags.Lookup(old(tags), key)
      ensures tags == Tags.Assign(old(tags), key, value).entries
      ensures value.Some? ==> HasInfo(key) && GetInfo(key) == value.value
      ensures value.None? ==> !HasInfo(key)
    {
      var a := Tags.Assign(tags, key, value);
      tags := a.entries;
      previous := a.previous;
    }

    /** Whether a non-blank key is mapped: exactly when Map.get does not return null. */
    predicate HasInfo(key: string): (b: bool)
      requires !Tags.IsBlank(key)
      reads this
      ensures b <==> Tags.Lookup(tags, key).Some?
    {
      key in tags
    }

    /** The value a mapped, non-blank key holds: what Map.get returns. */
    function GetInfo(key: string): (r: string)
      requires !Tags.IsBlank(key) && HasInfo(key)
      reads this
      ensures Tags.Lookup(tags, key) == Some(r)
    {
      tags[key]
    }
  }

  /**
   * Two watchlists have equal copies exactly when their names, entries,
   * cursors and last-watched entries agree: the copy keeps all four and
   * nothing of the command history.
   */
  lemma CaptureCopiesFields(w1: WatchList, w2: WatchList)
    ensures w1.Capture() == w2.Capture() <==>
              w1.name == w2.name && w1.list == w2.list && w1.next == w2.next && w1.lastWatched == w2.lastWatched
  {
  }

  /** The number of valid watchables in a sequence (the counting loop's specification). */
  function ValidCount(items: seq<Watchable>): (n: nat)
    reads items
    ensures n <= |items|
    ensures n == 0 <==> forall i :: 0 <= i < |items| ==> !items[i].valid
    ensures n == |items| <==> forall i :: 0 <= i < |items| ==> items[i].valid
  {
    if items == [] then 0
    else ValidCount(items[..|items| - 1]) + (if items[|items| - 1].valid then 1 else 0)
  }

  /**
   * A sequence of watchables played in order, with a name, a cursor, the last
   * watched marker, and two command stacks indexed by pointers. The stacks are
   * never popped: undo and redo move a pointer and push the command onto the
   * other stack, and a fresh mutation truncates the undo stack after its
   * pointer and clears the redo stack.
   */
  class WatchList {
    var list: seq<Watchable>
    var name: string
    var next: nat
    var lastWatched: Option<Watchable>

    var undoPointer: int
    var redoPointer: int
    var undoStack: seq<Command>
    var redoStack: seq<Command>

    /** The position in the undo stack of the command the latest mutation pushed; -1 before any. */
    ghost var latest: int

    /**
     * Both pointers stay in range and every stacked command is an executed
     * command of this list. The pointers add up to the position of the latest
     * mutation's command (undo moves one pointer down and the other up, redo
     * the reverse), the first command undo stacks for redo is that command,
     * and while nothing is staged for redo, re-executing the command under the
     * undo pointer would change none of the fields.
     */
    ghost predicate Valid()
      reads this, undoStack, redoStack
    {
      && -1 <= undoPointer < |undoStack|
      && -1 <= redoPointer < |redoStack|
      && (forall i :: 0 <= i < |undoStack| ==> Recording(undoStack[i]))
      && (forall i :: 0 <= i < |redoStack| ==> Recording(redoStack[i]))
      && -1 <= latest < |undoStack| && undoPointer + redoPointer + 1 == latest
      && (redoStack != [] ==> 0 <= latest && redoStack[0] == undoStack[latest])
      && (redoPointer == -1 && undoPointer >= 0 ==>
            var c := undoStack[undoPointer]; Redone(c.kind, Capture(), c.nextState) == Capture())
    }

    /**
     * Undoing the command at position i, from the state it is undone from,
     * gives back its previous snapshot. The command under the undo pointer is
     * undone from the current state; one below it from the previous snapshot
     * of the command above it, which is what undoing that one gives back.
     */
    ghost predicate UndoesExactly(i: int)
      reads this, undoStack
    {
      && 0 <= i <= undoPointer < |undoStack|
      && undoStack[i].prevState.Some?
      && (i < undoPointer ==> undoStack[i + 1].prevState.Some?)
      && var c := undoStack[i];
         var from := if i == undoPointer then Capture() else undoStack[i + 1].prevState.value;
         Undone(c.kind, from, c.prevState.value) == c.prevState.value
    }

    /**
     * The redo stack lists the latest mutation's command and those below it,
     * in the order undo stacked them: entry j is the command at position
     * latest - j of the undo stack.
     */
    ghost predicate Aligned()
      reads this
    {
      && -1 <= latest < |undoStack|
      && |redoStack| <= latest + 1
      && forall j :: 0 <= j < |redoStack| ==> redoStack[j] == undoStack[latest - j]
    }

    ghost predicate Recording(c: Command)
      reads c
    {
      c.watchList == this && c.prevState.Some?
    }

    constructor (name: string)
      ensures Valid()
      ensures this.name == name && list == [] && next == 0 && lastWatched == None
      ensures undoStack == [] && redoStack == [] && undoPointer == -1 && redoPointer == -1
    {
      latest := -1;
      this.name := name;
      list := [];
      next := 0;
      lastWatched := None;
      undoPointer := -1;
      redoPointer := -1;
      undoStack := [];
      redoStack := [];
    }

    /** The copy constructor WatchList(WatchList), as the value a command keeps. */
    function Capture(): Snapshot<Watchable>
      reads this
    {
      Snapshot(name, list, next, lastWatched)
    }

    /** Observer callback: records the watchable just played. */
    method Update(watched: Watchable)
      modifies `lastWatched
      ensures lastWatched == Some(watched)
    {
      lastWatched := Some(watched);
    }

    function GetTotalCount(): int
      reads this
    {
      |list|
    }

    /**
     * The entries the cursor has still to pass; never more than the total,
     * and positive exactly when the cursor designates an entry.
     */
    function GetRemainingCount(): (r: int)
      reads this
      ensures r <= GetTotalCount()
      ensures r > 0 <==> next < |list|
    {
      |list| - next
    }

    /**
     * What each mutation does to the history: the undo stack is the old
     * prefix up to the undo pointer plus exactly one new command of the given
     * kind, whose previous state is the state before the call; the pointer
     * designates it and it is the latest; the redo stack is empty. Every
     * command below it undoes exactly if and only if it did before the call.
     */
    twostate predicate Recorded(kind: Kind)
      reads this, undoStack
    {
      && old(-1 <= undoPointer < |undoStack|)
      && |undoStack| == old(undoPointer) + 2
      && undoStack[..|undoStack| - 1] == old(undoStack)[..old(undoPointer) + 1]
      && undoPointer == |undoStack| - 1 && latest == undoPointer
      && redoStack == [] && redoPointer == -1
      && (var c := undoStack[|undoStack| - 1];
          fresh(c) && c.watchList == this && c.kind == kind
          && c.prevState == Some(old(Capture())) && c.nextState == None)
      && forall i :: 0 <= i < undoPointer ==> (UndoesExactly(i) <==> old(UndoesExactly(i)))
    }

    /** The steps every mutation takes before changing the list. */
    method Record(kind: Kind)
      requires Valid()
      modifies this
      ensures Valid() && Recorded(kind)
      ensures Capture() == old(Capture())
    {
      ClearAbovePointer();
      label cleared:
      PushCommand(kind);
      forall i | 0 <= i < undoPointer
        ensures UndoesExactly(i) <==> old(UndoesExactly(i))
      {
        assert UndoesExactly(i) <==> old@cleared(UndoesExactly(i));
        assert undoStack[i] == old(undoStack[i]) && (i < undoPointer - 1 ==> undoStack[i + 1] == old(undoStack[i + 1]));
      }
    }

    /**
     * The remaining steps: a new command of the given kind snapshots the
     * list and is pushed; the undo pointer and the latest position designate it.
     */
    method PushCommand(kind: Kind)
      requires undoPointer == |undoStack| - 1 && redoStack == [] && redoPointer == -1
      requires forall i :: 0 <= i < |undoStack| ==> Recording(undoStack[i])
      modifies `undoStack, `undoPointer, `latest
      ensures Valid() && undoPointer == old(undoPointer) + 1 == |undoStack| - 1 && latest == undoPointer
      ensures undoStack[..undoPointer] == old(undoStack)
      ensures var c := undoStack[undoPointer];
                fresh(c) && c.watchList == this && c.kind == kind && c.prevState == Some(Capture()) && c.nextState == None
      ensures forall i :: 0 <= i < undoPointer ==> (UndoesExactly(i) <==> old(UndoesExactly(i)))
    {
      var command := new Command(kind, this);
      command.Execute();
      assert forall i :: 0 <= i < |undoStack| ==> undoStack[i].prevState == old(undoStack[i].prevState);
      undoStack := undoStack + [command];
      undoPointer := undoPointer + 1;
      latest := undoPointer;
      assert undoStack[..undoPointer] == old(undoStack) && undoStack[undoPointer] == command;
      PushKeepsUndoable();
    }

    /** The first steps of a mutation: the commands above the undo pointer and the redo stack are dropped. */
    method ClearAbovePointer()
      requires -1 <= undoPointer < |undoStack|
      modifies `undoStack, `redoStack, `redoPointer
      ensures undoStack == old(undoStack)[..undoPointer + 1] && redoStack == [] && redoPointer == -1
    {
      DeleteElementsAfterPointer(undoPointer);
      redoStack := [];
      redoPointer := -1;
    }

    /**
     * Pushing a command that holds the state before the push leaves every
     * command below it undoing exactly if and only if it did before.
     */
    twostate lemma PushKeepsUndoable()
      requires old(-1 <= undoPointer < |undoStack|) && undoPointer == old(undoPointer) + 1 < |undoStack|
      requires forall i :: 0 <= i <= old(undoPointer) ==>
                 undoStack[i] == old(undoStack[i]) && undoStack[i].prevState == old(undoStack[i].prevState)
      requires forall i :: 0 <= i <= undoPointer ==> undoStack[i].prevState.Some?
      requires undoStack[undoPointer].prevState == Some(old(Capture()))
      ensures forall i :: 0 <= i < undoPointer ==> (UndoesExactly(i) <==> old(UndoesExactly(i)))
    {
      forall i | 0 <= i < undoPointer
        ensures UndoesExactly(i) <==> old(UndoesExactly(i))
      {
        assert undoStack[i] == old(undoStack[i]);
      }
    }

    /** Appends a watchable and registers this list as one of its observers. */
    method AddWatchable(item: Watchable)
      requires Valid()
      modifies this, item`observers
      ensures Valid() && Recorded(AddRemove) && UndoesExactly(undoPointer)
      ensures Capture() == Apply(Add(item), old(Capture()))
      ensures item.observers == old(item.observers) + [this]
    {
      Record(AddRemove);
      list := list + [item];
      item.AddObserver(this);
    }

    /**
     * Removes and returns the watchable at an index, moving the cursor back
     * when it was after that index, and unregisters this list as its observer.
     */
    method RemoveWatchable(index: int) returns (removed: Watchable)
      requires Valid() && 0 <= index < |list|
      modifies this, (list[index] as Watchable)`observers
      ensures Valid() && Recorded(AddRemove)
      ensures UndoesExactly(undoPointer) <==> old(next) <= index
      ensures removed == old(list[index])
      ensures Capture() == Apply(Remove(index), old(Capture()))
      ensures removed.observers == Lists.RemoveFirst(old(removed.observers), this)
    {
      Record(AddRemove);
      label recorded:
      if next > index {
        next := next - 1;
      }
      removed := list[index];
      list := list[..index] + list[index + 1..];
      Lists.RemoveFirstCutsFirst(removed.observers, this);
      removed.RemoveObserver(this);
      FieldsKeepUndoable@recorded();
    }

    /**
     * Changing the list's own fields, and no command, leaves every command
     * below the undo pointer undoing exactly if and only if it did before:
     * only the command under the pointer is undone from the current state.
     */
    twostate lemma FieldsKeepUndoable()
      requires undoStack == old(undoStack) && undoPointer == old(undoPointer)
      requires forall i :: 0 <= i < |undoStack| ==> undoStack[i].prevState == old(undoStack[i].prevState)
      ensures forall i :: 0 <= i < undoPointer ==> (UndoesExactly(i) <==> old(UndoesExactly(i)))
    {
    }

    /** Counts the valid watchables of the list. */
    method GetValidCount() returns (count: nat)
      ensures count == ValidCount(list)
    {
      count := 0;
      for i := 0 to |list|
        invariant count == ValidCount(list[..i])
      {
        assert list[..i + 1][..i] == list[..i];
        if list[i].valid {
          count := count + 1;
        }
      }
      assert list[..|list|] == list;
    }

    /** Returns the watchable under the cursor and advances the cursor, wrapping to 0 at the end. */
    method Next() returns (item: Watchable)
      requires Valid() && GetRemainingCount() > 0
      modifies this
      ensures Valid() && Recorded(NextReset) && UndoesExactly(undoPointer)
      ensures item == old(list[next])
      ensures Capture() == Apply(Op.Next, old(Capture()))
    {
      Record(NextReset);
      label recorded:
      item := list[next];
      next := next + 1;
      if next >= |list| {
        next := 0;
      }
      FieldsKeepUndoable@recorded();
    }

    /** Moves the cursor back to the start. */
    method Reset()
      requires Valid()
      modifies this
      ensures Valid() && Recorded(NextReset) && UndoesExactly(undoPointer)
      ensures Capture() == Apply(Op.Reset, old(Capture()))
    {
      Record(NextReset);
      next := 0;
    }

    /** Renames the list. */
    method SetName(newName: string)
      requires Valid()
      modifies this
      ensures Valid() && Recorded(Kind.SetName) && UndoesExactly(undoPointer)
      ensures Capture() == Apply(Rename(newName), old(Capture()))
    {
      Record(Kind.SetName);
      name := newName;
    }

    /**
     * Removes the undo-stack entries above index `pointer`, from the top down.
     * An empty stack is left alone.
     */
    method DeleteElementsAfterPointer(pointer: int)
      requires undoStack == [] || pointer >= -1
      modifies `undoStack
      ensures -1 <= pointer && pointer + 1 < |old(undoStack)| ==> undoStack == old(undoStack)[..pointer + 1]
      ensures pointer + 1 >= |old(undoStack)| || old(undoStack) == [] ==> undoStack == old(undoStack)
    {
      if |undoStack| < 1 {
        return;
      }
      var i := |undoStack| - 1;
      while i > pointer
        invariant -1 <= i < |old(undoStack)|
        invariant pointer <= i || i == |old(undoStack)| - 1
        invariant undoStack == old(undoStack)[..i + 1]
      {
        undoStack := undoStack[..i] + undoStack[i + 1..];
        i := i - 1;
      }
    }

    /**
     * Undoes the command under the undo pointer, if any, and stacks it for
     * redo. The undone command is always one of the latest mutation's history,
     * and no previous snapshot changes; when the command undoes exactly, the
     * state is its previous snapshot and the commands below keep undoing
     * exactly. The redo stack stays aligned only when nothing was left on it
     * above the redo pointer, that is, when no redo happened since the latest
     * mutation or the redone commands were all undone again.
     */
    method Undo()
      requires Valid()
      modifies this, if undoPointer >= 0 then {undoStack[undoPointer]} else {}
      ensures Valid() && latest == old(latest)
      ensures old(undoPointer) < 0 ==> unchanged(this)
      ensures old(undoPointer) >= 0 ==>
                var c := old(undoStack[undoPointer]);
                && undoStack == old(undoStack) && undoPointer == old(undoPointer) - 1
                && redoStack == old(redoStack) + [c] && redoPointer == old(redoPointer) + 1
                && c.prevState == old(c.prevState) && c.nextState == Some(old(Capture()))
                && Capture() == Undone(c.kind, old(Capture()), c.prevState.value)
      ensures forall i :: 0 <= i < |undoStack| ==> undoStack[i].prevState == old(undoStack[i].prevState)
      ensures old(UndoesExactly(undoPointer)) ==>
                && Capture() == old(undoStack[undoPointer].prevState.value)
                && forall i :: 0 <= i <= undoPointer ==> (UndoesExactly(i) <==> old(UndoesExactly(i)))
      ensures old(Aligned()) && old(|redoStack|) == old(redoPointer) + 1 ==> Aligned()
    {
      if undoPointer < 0 {
        return;
      }
      var command := undoStack[undoPointer];

      redoStack := redoStack + [command];
      redoPointer := redoPointer + 1;

      command.UnExecute();
      undoPointer := undoPointer - 1;
      PopKeepsUndoable(command);
      if old(Aligned()) && old(|redoStack|) == old(redoPointer) + 1 {
        UndoKeepsAligned();
      }
    }

    /**
     * After undoing command c, which was under the undo pointer: when c undid
     * exactly, the state is its previous snapshot, and every command below it
     * undoes exactly if and only if it did before.
     */
    twostate lemma PopKeepsUndoable(c: Command)
      requires old(0 <= undoPointer < |undoStack|) && c == old(undoStack[undoPointer])
      requires undoStack == old(undoStack) && undoPointer == old(undoPointer) - 1
      requires forall i :: 0 <= i < |undoStack| ==> undoStack[i].prevState == old(undoStack[i].prevState)
      requires c.prevState.Some? && Capture() == Undone(c.kind, old(Capture()), c.prevState.value)
      ensures old(UndoesExactly(undoPointer)) ==>
                && Capture() == old(undoStack[undoPointer].prevState.value)
                && forall i :: 0 <= i <= undoPointer ==> (UndoesExactly(i) <==> old(UndoesExactly(i)))
    {
      if old(UndoesExactly(undoPointer)) {
        forall i | 0 <= i <= undoPointer
          ensures UndoesExactly(i) <==> old(UndoesExactly(i))
        {
          assert undoStack[i] == old(undoStack[i]);
        }
      }
    }

    /** Undo stacks the command under the undo pointer for redo; with nothing above the redo pointer, alignment is kept. */
    twostate lemma UndoKeepsAligned()
      requires old(Aligned()) && old(|redoStack|) == old(redoPointer) + 1
      requires old(0 <= undoPointer < |undoStack|) && old(undoPointer + redoPointer + 1 == latest)
      requires undoStack == old(undoStack) && latest == old(latest)
      requires redoStack == old(redoStack) + [old(undoStack[undoPointer])]
      ensures Aligned()
    {
    }

    /**
     * The command redo re-executes: the one under the redo pointer, or, when
     * no redo entry is staged, the one under the undo pointer.
     */
    function RedoTarget(): Option<Command>
      reads this
      requires -1 <= undoPointer < |undoStack| && -1 <= redoPointer < |redoStack|
    {
      if redoPointer >= 0 then Some(redoStack[redoPointer])
      else if undoPointer >= 0 then Some(undoStack[undoPointer])
      else None
    }

    /**
     * Redoes the command under the redo pointer and pushes it onto the undo
     * stack; with no staged redo entry, re-executes the command under the undo
     * pointer without moving a pointer or touching either stack. That fallback
     * changes none of the fields, but it does refresh the command's previous
     * snapshot to the current state. While the redo stack is aligned, the
     * command redone is the one just above the undo pointer, and the stack
     * stays aligned.
     */
    method Redo()
      requires Valid()
      modifies this, if RedoTarget().Some? then {RedoTarget().value} else {}
      ensures Valid() && latest == old(latest)
      ensures old(redoPointer) < 0 ==> Capture() == old(Capture())
      ensures old(Aligned()) ==> Aligned()
      ensures old(Aligned()) && old(redoPointer) >= 0 ==> old(RedoTarget()) == Some(old(undoStack[undoPointer + 1]))
      ensures old(redoPointer) < 0 ==>
                && undoStack == old(undoStack) && undoPointer == old(undoPointer)
                && redoStack == old(redoStack) && redoPointer == old(redoPointer)
      ensures old(redoPointer) >= 0 ==>
                && undoStack == old(undoStack) + [old(redoStack[redoPointer])]
                && undoPointer == old(undoPointer) + 1
                && redoStack == old(redoStack) && redoPointer == old(redoPointer) - 1
      ensures old(RedoTarget()).None? ==> Capture() == old(Capture())
      ensures old(RedoTarget()).Some? ==>
                var c := old(RedoTarget()).value;
                && c.nextState == old(c.nextState) && c.prevState == Some(old(Capture()))
                && Capture() == Redone(c.kind, old(Capture()), c.nextState)
    {
      if redoPointer < 0 {
        if undoPointer >= 0 {
          var command := undoStack[undoPointer];
          command.ReExecute();
        }
        return;
      }
      var command := redoStack[redoPointer];

      undoStack := undoStack + [command];
      undoPointer := undoPointer + 1;

      command.ReExecute();
      redoPointer := redoPointer - 1;
    }
  }

  /**
   * A reversible mutation of one watchlist (AbstractCommand and its three
   * variants, told apart by `kind`). It is bound to its watchlist for good
   * and keeps two snapshots: the state before it (taken on execute and
   * refreshed on every redo) and the state before its last undo.
   */
  class Command {
    const kind: Kind
    const watchList: WatchList
    var prevState: Option<Snapshot<Watchable>>
    var nextState: Option<Snapshot<Watchable>>

    constructor (kind: Kind, watchList: WatchList)
      ensures this.kind == kind && this.watchList == watchList
      ensures prevState == None && nextState == None
    {
      this.kind := kind;
      this.watchList := watchList;
      prevState := None;
      nextState := None;
    }

    /** Snapshots the watchlist before the mutation. */
    method Execute()
      modifies `prevState
      ensures prevState == Some(watchList.Capture())
    {
      prevState := Some(watchList.Capture());
    }

    /** AbstractCommand.unExecute: snapshot the current state, then restore the collection. */
    method BaseUnExecute()
      requires prevState.Some?
      modifies `nextState, watchList`list
      ensures nextState == Some(old(watchList.Capture()))
      ensures watchList.list == prevState.value.list
    {
      nextState := Some(watchList.Capture());
      watchList.list := prevState.value.list;
    }

    /** The variant's unExecute: the base, then the variant's own field from the previous state. */
    method UnExecute()
      requires prevState.Some?
      modifies `nextState, watchList`list, watchList`next, watchList`name
      ensures nextState == Some(old(watchList.Capture()))
      ensures watchList.Capture() == Undone(kind, old(watchList.Capture()), prevState.value)
    {
      BaseUnExecute();
      match kind
      case AddRemove => watchList.list := prevState.value.list;
      case NextReset => watchList.next := prevState.value.next;
      case SetName => watchList.name := prevState.value.name;
    }

    /** AbstractCommand.reExecute: refresh the previous state and change nothing else. */
    method BaseReExecute()
      modifies `prevState
      ensures prevState == Some(watchList.Capture())
    {
      prevState := Some(watchList.Capture());
    }

    /**
     * The variant's reExecute: the base, then, if an undo captured a state,
     * the variant's own field from it.
     */
    method ReExecute()
      modifies `prevState, watchList`list, watchList`next, watchList`name
      ensures prevState == Some(old(watchList.Capture()))
      ensures watchList.Capture() == Redone(kind, old(watchList.Capture()), nextState)
    {
      BaseReExecute();
      if nextState == None {
        return;
      }
      match kind
      case AddRemove => watchList.list := nextState.value.list;
      case NextReset => watchList.next := nextState.value.next;
      case SetName => watchList.name := nextState.value.name;
    }
  }
}

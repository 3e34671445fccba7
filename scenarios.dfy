/**
 * The console driver's traces, replayed on the model: each method builds the
 * driver's objects, makes the driver's calls and returns what the driver
 * prints; its postcondition is the output the driver's comments expect.
 * Long traces are cut into consecutive pieces, each returning the objects
 * and the history the next piece continues from.
 */
module Scenarios {
  import opened Wrappers
  import opened Snapshots
  import opened WatchLists
  import opened TVShows

  /** The watchlist's fields and history are exactly these. */
  ghost predicate Shows(w: WatchList, list: seq<Watchable>, next: nat, name: string,
                        undo: seq<Command>, undoPointer: int, redo: seq<Command>, redoPointer: int)
    reads w
  {
    && w.list == list && w.next == next && w.name == name
    && w.undoStack == undo && w.undoPointer == undoPointer
    && w.redoStack == redo && w.redoPointer == redoPointer
  }

  /** Every command in the watchlist's stacks was allocated by the method this is stated of. */
  twostate predicate AllFresh(new w: WatchList)
    reads w
  {
    && (forall i :: 0 <= i < |w.undoStack| ==> fresh(w.undoStack[i]))
    && (forall i :: 0 <= i < |w.redoStack| ==> fresh(w.redoStack[i]))
  }

  /**
   * One add on a watchlist with nothing to redo and nothing above the undo
   * pointer: the entry is appended and its command pushed on top.
   */
  method Push(w: WatchList, item: Watchable) returns (command: Command)
    requires w.Valid() && w.undoPointer == |w.undoStack| - 1 && w.redoStack == []
    modifies w, item`observers
    ensures w.Valid() && w.list == old(w.list) + [item]
    ensures w.name == old(w.name) && w.next == old(w.next) && w.lastWatched == old(w.lastWatched)
    ensures w.undoStack == old(w.undoStack) + [command] && w.undoPointer == old(w.undoPointer) + 1
    ensures w.redoStack == [] && w.redoPointer == -1
    ensures fresh(command) && command.kind == AddRemove && command.prevState == Some(old(w.Capture()))
    ensures item.observers == old(item.observers) + [w]
  {
    w.AddWatchable(item);
    command := w.undoStack[w.undoPointer];
    assert old(w.undoStack)[..old(w.undoPointer) + 1] == old(w.undoStack);
  }

  /** A new watchlist with the given name to which a and then b are added. */
  method TwoAdds(name: string, a: Watchable, b: Watchable) returns (w: WatchList, c1: Command, c2: Command)
    modifies a`observers, b`observers
    ensures fresh(w) && fresh(c1) && fresh(c2)
    ensures w.Valid() && w.lastWatched == None
    ensures Shows(w, [a, b], 0, name, [c1, c2], 1, [], -1)
    ensures c1 != c2 && c1.kind == AddRemove && c2.kind == AddRemove
    ensures c1.prevState == Some(Snapshot(name, [], 0, None))
    ensures c2.prevState == Some(Snapshot(name, [a], 0, None))
  {
    w := new WatchList(name);
    c1 := Push(w, a);
    assert w.list == [a];
    c2 := Push(w, b);
  }

  /** Watchlist "one" gets two shows, Friends and Le Mentaliste. */
  method TwoShows() returns (w1: WatchList, friends: Watchable, mentalist: Watchable,
                             add1: Command, add2: Command)
    ensures fresh(w1) && fresh(friends) && fresh(mentalist) && fresh(add1) && fresh(add2)
    ensures w1.Valid() && w1.lastWatched == None
    ensures Shows(w1, [friends, mentalist], 0, "one", [add1, add2], 1, [], -1)
    ensures add1 != add2 && add1.kind == AddRemove && add2.kind == AddRemove
    ensures add1.prevState == Some(Snapshot("one", [], 0, None))
    ensures add2.prevState == Some(Snapshot("one", [friends], 0, None))
  {
    friends := new Watchable("Friends", "WarnerBrothers", English, true);
    mentalist := new Watchable("Le Mentaliste", "WarnerBrothers", French, true);
    w1, add1, add2 := TwoAdds("one", friends, mentalist);
  }

  /** Continued: two undos. The sizes shown are 2, 1, 0. */
  method AddTraceStart() returns (w1: WatchList, friends: Watchable, mentalist: Watchable,
                                  add1: Command, add2: Command, sizes: seq<int>)
    ensures sizes == [2, 1, 0]
    ensures fresh(w1) && fresh(friends) && fresh(mentalist) && fresh(add1) && fresh(add2)
    ensures w1.Valid() && w1.lastWatched == None
    ensures Shows(w1, [], 0, "one", [add1, add2], -1, [add2, add1], 1)
    ensures add1 != add2 && add1.kind == AddRemove && add2.kind == AddRemove
    ensures add1.nextState == Some(Snapshot("one", [friends], 0, None))
    ensures add2.nextState == Some(Snapshot("one", [friends, mentalist], 0, None))
  {
    w1, friends, mentalist, add1, add2 := TwoShows();
    sizes := [|w1.list|];
    w1.Undo();
    assert Shows(w1, [friends], 0, "one", [add1, add2], 0, [add2], 0);
    sizes := sizes + [|w1.list|];
    w1.Undo();
    sizes := sizes + [|w1.list|];
  }

  /** Continued: redo, redo; the sizes shown are 1, 2. */
  method AddTraceRedone() returns (w1: WatchList, friends: Watchable, mentalist: Watchable,
                                   add1: Command, add2: Command, sizes: seq<int>)
    ensures sizes == [2, 1, 0, 1, 2]
    ensures fresh(w1) && fresh(friends) && fresh(mentalist) && fresh(add1) && fresh(add2)
    ensures w1.Valid() && w1.lastWatched == None
    ensures Shows(w1, [friends, mentalist], 0, "one", [add1, add2, add1, add2], 1, [add2, add1], -1)
    ensures add2.kind == AddRemove && add2.prevState == Some(Snapshot("one", [friends], 0, None))
    ensures add2.nextState == Some(Snapshot("one", [friends, mentalist], 0, None))
  {
    w1, friends, mentalist, add1, add2, sizes := AddTraceStart();
    w1.Redo();
    assert Shows(w1, [friends], 0, "one", [add1, add2, add1], 0, [add2, add1], 0);
    sizes := sizes + [|w1.list|];
    w1.Redo();
    sizes := sizes + [|w1.list|];
  }

  /**
   * Continued: undo, redo. With the start, the sizes are 2, 1, 0, 1, 2, 1, 2.
   */
  method AddTrace() returns (w1: WatchList, friends: Watchable, mentalist: Watchable,
                             add2: Command, sizes: seq<int>)
    ensures sizes == [2, 1, 0, 1, 2, 1, 2]
    ensures fresh(w1) && fresh(friends) && fresh(mentalist) && AllFresh(w1)
    ensures w1.Valid() && w1.lastWatched == None
    ensures w1.list == [friends, mentalist] && w1.next == 0 && w1.name == "one"
    ensures w1.undoPointer == 1 && w1.redoPointer == -1 && |w1.undoStack| >= 2
    ensures w1.undoStack[1] == add2 && add2.kind == AddRemove
    ensures add2.prevState == Some(Snapshot("one", [friends], 0, None))
  {
    var add1;
    w1, friends, mentalist, add1, add2, sizes := AddTraceRedone();
    w1.Undo();
    assert Shows(w1, [friends], 0, "one", [add1, add2, add1, add2], 0, [add2, add1, add2], 0);
    sizes := sizes + [|w1.list|];
    w1.Redo();
    sizes := sizes + [|w1.list|];
  }

  /**
   * Continued: removing index 1, then undo, undo, redo gives sizes 1, 2, 1, 2.
   * The second undo reverts the second add, so the list is down to one show.
   */
  method RemoveTrace() returns (w1: WatchList, friends: Watchable, mentalist: Watchable, sizes: seq<int>)
    ensures sizes == [1, 2, 1, 2]
    ensures fresh(w1) && fresh(friends) && fresh(mentalist)
    ensures w1.Valid() && w1.list == [friends, mentalist] && w1.next == 0 && w1.name == "one"
  {
    var add2, addSizes;
    w1, friends, mentalist, add2, addSizes := AddTrace();
    var removed := w1.RemoveWatchable(1);
    assert removed == mentalist && w1.list == [friends];
    assert w1.undoStack[1] == add2 && w1.undoPointer == 2;
    sizes := [|w1.list|];
    w1.Undo();
    assert w1.list == [friends, mentalist] && w1.undoPointer == 1 && w1.undoStack[1] == add2;
    sizes := sizes + [|w1.list|];
    w1.Undo();
    assert w1.list == [friends] && w1.redoPointer == 1 && w1.redoStack[1] == add2;
    assert add2.nextState == Some(Snapshot("one", [friends, mentalist], 0, None));
    sizes := sizes + [|w1.list|];
    w1.Redo();
    sizes := sizes + [|w1.list|];
  }

  /** Continued: rename to "new", then "abc", then undo; the names shown are new, abc, new. */
  method Renamed() returns (w1: WatchList, friends: Watchable, mentalist: Watchable,
                            rename1: Command, rename2: Command, names: seq<string>)
    ensures names == ["new", "abc", "new"]
    ensures fresh(w1) && fresh(friends) && fresh(mentalist) && fresh(rename1) && fresh(rename2)
    ensures w1.Valid() && w1.list == [friends, mentalist] && w1.next == 0 && w1.name == "new"
    ensures 0 <= w1.undoPointer && w1.undoStack[w1.undoPointer] == rename1
    ensures w1.undoPointer + 1 < |w1.undoStack| && w1.undoStack[w1.undoPointer + 1] == rename2
    ensures w1.redoStack == [rename2] && w1.redoPointer == 0
    ensures rename1 != rename2 && rename1.kind == Kind.SetName && rename2.kind == Kind.SetName
    ensures rename1.prevState == Some(Snapshot("one", [friends, mentalist], 0, w1.lastWatched))
    ensures rename2.nextState.Some? && rename2.nextState.value.name == "abc"
  {
    var removeSizes;
    w1, friends, mentalist, removeSizes := RemoveTrace();
    w1.SetName("new");
    rename1 := w1.undoStack[|w1.undoStack| - 1];
    names := [w1.name];
    w1.SetName("abc");
    rename2 := w1.undoStack[|w1.undoStack| - 1];
    assert rename1 == w1.undoStack[w1.undoPointer - 1];
    names := names + [w1.name];
    w1.Undo();
    names := names + [w1.name];
  }

  /**
   * Continued: redo, undo, undo. The names shown over the whole rename test
   * are new, abc, new, abc, one, and the list keeps its two shows.
   */
  method NameTrace() returns (w1: WatchList, friends: Watchable, mentalist: Watchable, names: seq<string>)
    ensures names == ["new", "abc", "new", "abc", "one"]
    ensures fresh(w1) && fresh(friends) && fresh(mentalist)
    ensures w1.Valid() && w1.list == [friends, mentalist] && w1.next == 0 && w1.name == "one"
  {
    var rename1, rename2;
    w1, friends, mentalist, rename1, rename2, names := Renamed();
    w1.Redo();
    assert w1.undoStack[w1.undoPointer - 1] == rename1 && w1.undoStack[w1.undoPointer] == rename2;
    names := names + [w1.name];
    w1.Undo();
    assert w1.name == "new" && w1.list == [friends, mentalist] && w1.undoStack[w1.undoPointer] == rename1;
    w1.Undo();
    names := names + [w1.name];
  }

  /** The state a cursor command records: the list as it is, with the cursor at `next`. */
  ghost function At(w: WatchList, next: nat): Snapshot<Watchable>
    reads w
  {
    Snapshot(w.name, w.list, next, w.lastWatched)
  }

  /** Continued: the second show again and two more make five shows, cursor at 0. */
  method FiveShows() returns (w1: WatchList)
    ensures fresh(w1)
    ensures w1.Valid() && |w1.list| == 5 && w1.next == 0
  {
    var friends, mentalist, names;
    w1, friends, mentalist, names := NameTrace();
    var bigBang := new Watchable("La Teoría del Big Bang", "WarnerBrothers", Spanish, true);
    var daredevil := new Watchable("Daredevil", "MarvelStudio", English, true);
    w1.AddWatchable(mentalist);
    assert |w1.list| == 3 && w1.next == 0;
    w1.AddWatchable(bigBang);
    assert |w1.list| == 4 && w1.next == 0;
    w1.AddWatchable(daredevil);
  }

  /** Continued: two calls to next show the cursor at 0, 1, 2. */
  method NextTraceStart() returns (w1: WatchList, step1: Command, step2: Command, cursors: seq<int>)
    ensures cursors == [0, 1, 2]
    ensures fresh(w1) && fresh(step1) && fresh(step2)
    ensures w1.Valid() && |w1.list| == 5 && w1.next == 2
    ensures w1.redoStack == [] && w1.redoPointer == -1
    ensures 1 <= w1.undoPointer == |w1.undoStack| - 1
    ensures w1.undoStack[w1.undoPointer - 1] == step1 && w1.undoStack[w1.undoPointer] == step2
    ensures step1 != step2 && step1.kind == NextReset && step2.kind == NextReset
    ensures step1.prevState == Some(At(w1, 0)) && step2.prevState == Some(At(w1, 1))
  {
    w1 := FiveShows();
    cursors := [w1.next];
    var first := w1.Next();
    step1 := w1.undoStack[w1.undoPointer];
    assert step1.prevState == Some(At(w1, 0)) && w1.next == 1;
    cursors := cursors + [w1.next];
    var second := w1.Next();
    step2 := w1.undoStack[w1.undoPointer];
    cursors := cursors + [w1.next];
  }

  /** Continued: undo, undo, redo move the cursor to 1, 0, 1. */
  method NextTraceMiddle() returns (w1: WatchList, step1: Command, step2: Command, cursors: seq<int>)
    ensures cursors == [0, 1, 2, 1, 0, 1]
    ensures fresh(w1) && fresh(step1) && fresh(step2)
    ensures w1.Valid() && |w1.list| == 5 && w1.next == 1
    ensures w1.redoStack == [step2, step1] && w1.redoPointer == 0
    ensures 0 <= w1.undoPointer && w1.undoStack[w1.undoPointer] == step1
    ensures step1 != step2 && step1.kind == NextReset && step2.kind == NextReset
    ensures step1.prevState == Some(At(w1, 0)) && step1.nextState == Some(At(w1, 1))
    ensures step2.nextState == Some(At(w1, 2))
  {
    w1, step1, step2, cursors := NextTraceStart();
    w1.Undo();
    assert w1.next == 1 && w1.undoStack[w1.undoPointer] == step1;
    assert w1.redoStack[w1.redoPointer] == step2;
    cursors := cursors + [w1.next];
    w1.Undo();
    assert w1.next == 0 && w1.redoStack[w1.redoPointer] == step1 && w1.redoStack[w1.redoPointer - 1] == step2;
    cursors := cursors + [w1.next];
    w1.Redo();
    cursors := cursors + [w1.next];
  }

  /**
   * Continued: undo, then redo twice; the cursor is shown at 0 and then 2.
   * The whole cursor test shows 0, 1, 2, 1, 0, 1, 0, 2.
   */
  method NextTrace() returns (w1: WatchList, cursors: seq<int>)
    ensures cursors == [0, 1, 2, 1, 0, 1, 0, 2]
    ensures fresh(w1)
    ensures w1.Valid() && |w1.list| == 5 && w1.next == 2
  {
    var step1, step2;
    w1, step1, step2, cursors := NextTraceMiddle();
    w1.Undo();
    assert w1.next == 0 && w1.redoStack[w1.redoPointer] == step1 && w1.redoStack[w1.redoPointer - 1] == step2;
    assert step1.nextState == Some(At(w1, 1));
    cursors := cursors + [w1.next];
    w1.Redo();
    assert w1.next == 1 && w1.redoStack[w1.redoPointer] == step2;
    w1.Redo();
    cursors := cursors + [w1.next];
  }

  /** Continued: reset, undo, redo show the cursor at 0, 2, 0. */
  method ResetTrace() returns (cursors: seq<int>)
    ensures cursors == [0, 2, 0]
  {
    var w1, earlier := NextTrace();
    w1.Reset();
    cursors := [w1.next];
    w1.Undo();
    cursors := cursors + [w1.next];
    w1.Redo();
    cursors := cursors + [w1.next];
  }

  /** A new watchlist holding the given distinct watchables, in order, each observed by it. */
  method Build(name: string, items: seq<Watchable>) returns (w: WatchList)
    requires forall i, j :: 0 <= i < j < |items| ==> items[i] != items[j]
    modifies items`observers
    ensures fresh(w) && w.Valid() && w.list == items && w.next == 0 && w.name == name
    ensures w.lastWatched == None
    ensures forall i :: 0 <= i < |items| ==> items[i].observers == old(items[i].observers) + [w]
  {
    w := new WatchList(name);
    for k := 0 to |items|
      invariant fresh(w) && w.Valid() && w.list == items[..k] && w.next == 0 && w.name == name
      invariant w.lastWatched == None && w.undoPointer == |w.undoStack| - 1 && w.redoStack == []
      invariant forall i :: 0 <= i < k ==> items[i].observers == old(items[i].observers) + [w]
      invariant forall i :: k <= i < |items| ==> items[i].observers == old(items[i].observers)
    {
      var command := Push(w, items[k]);
      assert items[..k + 1] == items[..k] + [items[k]];
    }
    assert items[..|items|] == items;
  }

  /** Four entries A, B, C, D in a new watchlist "w". */
  method FourEntries() returns (w: WatchList, a: Watchable, b: Watchable, c: Watchable, d: Watchable)
    ensures fresh(w) && w.Valid() && w.list == [a, b, c, d] && w.next == 0 && w.name == "w"
    ensures w.lastWatched == None
    ensures a.title == "A" && b.title == "B" && c.title == "C" && d.title == "D"
    ensures fresh(a)
  {
    a := new Watchable("A", "S", English, true);
    b := new Watchable("B", "S", English, true);
    c := new Watchable("C", "S", English, true);
    d := new Watchable("D", "S", English, true);
    w := Build("w", [a, b, c, d]);
  }

  /** Continued: the cursor moved twice, to 2. */
  method CursorOnThird() returns (w: WatchList, a: Watchable, b: Watchable, c: Watchable, d: Watchable)
    ensures fresh(w) && w.Valid() && w.list == [a, b, c, d] && w.next == 2 && w.name == "w"
    ensures w.lastWatched == None
    ensures a.title == "A" && b.title == "B" && c.title == "C" && d.title == "D"
    ensures fresh(a)
  {
    w, a, b, c, d := FourEntries();
    var first := w.Next();
    assert w.list == [a, b, c, d] && w.next == 1;
    var second := w.Next();
  }

  /** Continued: removing A, before the cursor, moves the cursor to 1, still on C. */
  method RemoveFirstEntry() returns (w: WatchList, a: Watchable, b: Watchable, c: Watchable, d: Watchable)
    ensures fresh(w) && w.Valid() && w.list == [b, c, d] && w.next == 1
    ensures a.title == "A" && b.title == "B" && c.title == "C" && d.title == "D"
    ensures w.undoPointer >= 0 && w.undoStack[w.undoPointer].kind == AddRemove
    ensures w.undoStack[w.undoPointer].prevState == Some(Snapshot("w", [a, b, c, d], 2, None))
    ensures fresh(w.undoStack[w.undoPointer])
  {
    w, a, b, c, d := CursorOnThird();
    var removed := w.RemoveWatchable(0);
  }

  /**
   * Removing an entry before the cursor moves the cursor back so it still
   * designates the same entry; undoing the removal restores the entry but
   * leaves the cursor where the removal put it. With entries A, B, C, D and
   * the cursor at 2 (on C), removing A gives cursor 1 (still on C), and undo
   * gives A, B, C, D with cursor 1 (now on B).
   */
  method RemoveBeforeCursor() returns (cursors: seq<int>, current: seq<string>)
    ensures cursors == [1, 1]
    ensures current == ["C", "B"]
  {
    var w, a, b, c, d := RemoveFirstEntry();
    cursors := [w.next];
    current := [w.list[w.next].title];
    w.Undo();
    assert w.list == [a, b, c, d];
    cursors := cursors + [w.next];
    current := current + [w.list[w.next].title];
  }

  /** A new watchlist "s" to which A, B and C are added, one command each. */
  method ThreeAdds() returns (w: WatchList, a: Watchable, b: Watchable, c: Watchable,
                              c1: Command, c2: Command, c3: Command)
    ensures fresh(w) && fresh(c1) && fresh(c2) && fresh(c3)
    ensures w.Valid() && w.lastWatched == None
    ensures Shows(w, [a, b, c], 0, "s", [c1, c2, c3], 2, [], -1)
    ensures c1.kind == AddRemove && c2.kind == AddRemove && c3.kind == AddRemove
    ensures c1 != c2 && c1 != c3 && c2 != c3
    ensures c1.prevState == Some(Snapshot("s", [], 0, None))
    ensures c2.prevState == Some(Snapshot("s", [a], 0, None))
    ensures c3.prevState == Some(Snapshot("s", [a, b], 0, None))
  {
    a := new Watchable("A", "S", English, true);
    b := new Watchable("B", "S", English, true);
    c := new Watchable("C", "S", English, true);
    w, c1, c2 := TwoAdds("s", a, b);
    c3 := Push(w, c);
  }

  /** Continued: undo, undo. The list goes [A, B], then [A]. */
  method StaleRedoBack() returns (w: WatchList, a: Watchable, b: Watchable, c: Watchable,
                                  c1: Command, c2: Command, c3: Command)
    ensures fresh(w) && fresh(c1) && fresh(c2) && fresh(c3)
    ensures w.Valid() && w.lastWatched == None
    ensures Shows(w, [a], 0, "s", [c1, c2, c3], 0, [c3, c2], 1)
    ensures c1.kind == AddRemove && c2.kind == AddRemove && c3.kind == AddRemove
    ensures c1 != c2 && c1 != c3 && c2 != c3
    ensures c1.prevState == Some(Snapshot("s", [], 0, None))
    ensures c2.prevState == Some(Snapshot("s", [a], 0, None))
    ensures c2.nextState == Some(Snapshot("s", [a, b], 0, None))
    ensures c3.nextState == Some(Snapshot("s", [a, b, c], 0, None))
  {
    w, a, b, c, c1, c2, c3 := ThreeAdds();
    w.Undo();
    assert Shows(w, [a, b], 0, "s", [c1, c2, c3], 1, [c3], 0);
    w.Undo();
  }

  /**
   * Continued: redo, redo. The list goes [A, B], then [A, B, C]; each redo
   * pushes the redone command again, so the undo stack holds the second and
   * third adds twice, and the redo stack still holds them below its pointer.
   */
  method StaleRedoStart() returns (w: WatchList, a: Watchable, b: Watchable, c: Watchable,
                                   c1: Command, c2: Command, c3: Command)
    ensures fresh(w) && fresh(c1) && fresh(c2) && fresh(c3)
    ensures w.Valid() && w.lastWatched == None
    ensures Shows(w, [a, b, c], 0, "s", [c1, c2, c3, c2, c3], 2, [c3, c2], -1)
    ensures c1.kind == AddRemove && c2.kind == AddRemove && c3.kind == AddRemove
    ensures c1 != c2 && c1 != c3 && c2 != c3
    ensures c1.prevState == Some(Snapshot("s", [], 0, None))
    ensures c2.prevState == Some(Snapshot("s", [a], 0, None))
    ensures c3.prevState == Some(Snapshot("s", [a, b], 0, None))
  {
    w, a, b, c, c1, c2, c3 := StaleRedoBack();
    w.Redo();
    assert Shows(w, [a, b], 0, "s", [c1, c2, c3, c2], 1, [c3, c2], 0);
    w.Redo();
  }

  /**
   * Continued: three undos empty the list, all three adds having been
   * undone; the undo stack's pointer is below its first entry and the redo
   * pointer rests on the third add's second redo-stack entry.
   */
  method StaleRedoUndone() returns (w: WatchList, a: Watchable, b: Watchable, c: Watchable,
                                    c1: Command, c3: Command)
    ensures fresh(w) && fresh(c1) && fresh(c3)
    ensures w.Valid() && w.list == [] && w.undoPointer == -1
    ensures w.redoPointer == 2 && |w.redoStack| == 5 && w.redoStack[2] == c3 && w.redoStack[4] == c1
    ensures c3.kind == AddRemove && c3.nextState == Some(Snapshot("s", [a, b, c], 0, None))
  {
    var c2;
    w, a, b, c, c1, c2, c3 := StaleRedoStart();
    w.Undo();
    assert Shows(w, [a, b], 0, "s", [c1, c2, c3, c2, c3], 1, [c3, c2, c3], 0);
    w.Undo();
    assert Shows(w, [a], 0, "s", [c1, c2, c3, c2, c3], 0, [c3, c2, c3, c2], 1);
    w.Undo();
  }

  /**
   * Adding A, B and C, then undo, undo, redo, redo, undo, undo, undo empties
   * the list, and a redo now brings back all three entries instead of A
   * alone: the redo pointer selects the third add, pushed on the redo stack
   * by the earlier undo, and redo restores the list that add's last undo
   * saw.
   */
  method StaleRedo() returns (sizes: seq<int>)
    ensures sizes == [0, 3]
  {
    var w, a, b, c, c1, c3 := StaleRedoUndone();
    sizes := [|w.list|];
    w.Redo();
    sizes := sizes + [|w.list|];
  }

  /** A new watchlist "w" holding A and B, then renamed to "x": three commands. */
  method AddsThenRename() returns (w: WatchList, a: Watchable, b: Watchable,
                                   c1: Command, c2: Command, c3: Command)
    ensures fresh(w) && fresh(c1) && fresh(c2) && fresh(c3)
    ensures w.Valid() && w.lastWatched == None
    ensures Shows(w, [a, b], 0, "x", [c1, c2, c3], 2, [], -1)
    ensures c1.kind == AddRemove && c2.kind == AddRemove && c3.kind == Kind.SetName
    ensures c1 != c2 && c1 != c3 && c2 != c3
    ensures c1.prevState == Some(Snapshot("w", [], 0, None))
    ensures c2.prevState == Some(Snapshot("w", [a], 0, None))
    ensures c3.prevState == Some(Snapshot("w", [a, b], 0, None))
  {
    a := new Watchable("A", "S", English, true);
    b := new Watchable("B", "S", English, true);
    w, c1, c2 := TwoAdds("w", a, b);
    w.SetName("x");
    c3 := w.undoStack[2];
  }

  /** Continued: undo, undo; the name is back to "w" and the list to [A]. */
  method StaleRenameBack() returns (w: WatchList, a: Watchable, b: Watchable,
                                    c1: Command, c2: Command, c3: Command)
    ensures fresh(w) && fresh(c1) && fresh(c2) && fresh(c3)
    ensures w.Valid() && w.lastWatched == None
    ensures Shows(w, [a], 0, "w", [c1, c2, c3], 0, [c3, c2], 1)
    ensures c1.kind == AddRemove && c2.kind == AddRemove && c3.kind == Kind.SetName
    ensures c1 != c2 && c1 != c3 && c2 != c3
    ensures c1.prevState == Some(Snapshot("w", [], 0, None))
    ensures c2.prevState == Some(Snapshot("w", [a], 0, None))
    ensures c2.nextState == Some(Snapshot("w", [a, b], 0, None))
    ensures c3.nextState == Some(Snapshot("x", [a, b], 0, None))
  {
    w, a, b, c1, c2, c3 := AddsThenRename();
    w.Undo();
    assert Shows(w, [a, b], 0, "w", [c1, c2, c3], 1, [c3], 0);
    w.Undo();
  }

  /** Continued: redo, redo, as in the stale redo trace; the name is back to "x". */
  method StaleRenameStart() returns (w: WatchList, a: Watchable, b: Watchable,
                                     c1: Command, c2: Command, c3: Command)
    ensures fresh(w) && fresh(c1) && fresh(c2) && fresh(c3)
    ensures w.Valid() && w.lastWatched == None
    ensures Shows(w, [a, b], 0, "x", [c1, c2, c3, c2, c3], 2, [c3, c2], -1)
    ensures c1.kind == AddRemove && c2.kind == AddRemove && c3.kind == Kind.SetName
    ensures c1 != c2 && c1 != c3 && c2 != c3
    ensures c1.prevState == Some(Snapshot("w", [], 0, None))
    ensures c2.prevState == Some(Snapshot("w", [a], 0, None))
    ensures c3.prevState == Some(Snapshot("w", [a, b], 0, None))
  {
    w, a, b, c1, c2, c3 := StaleRenameBack();
    w.Redo();
    assert Shows(w, [a, b], 0, "w", [c1, c2, c3, c2], 1, [c3, c2], 0);
    w.Redo();
  }

  /** Continued: three undos give back the name "w" and the empty list. */
  method StaleRenameUndone() returns (w: WatchList, c1: Command, c3: Command)
    ensures fresh(w) && fresh(c1) && fresh(c3)
    ensures w.Valid() && w.list == [] && w.name == "w" && w.undoPointer == -1
    ensures |w.undoStack| == 5 && w.undoStack[0] == c1
    ensures w.redoPointer == 2 && |w.redoStack| == 5 && w.redoStack[2] == c3 && w.redoStack[4] == c1
    ensures c3.kind == Kind.SetName && c3.nextState.Some? && c3.nextState.value.name == "x"
    ensures c1.kind == AddRemove && c1.prevState == Some(Snapshot("w", [], 0, None))
  {
    var a, b, c2;
    w, a, b, c1, c2, c3 := StaleRenameStart();
    w.Undo();
    assert Shows(w, [a, b], 0, "w", [c1, c2, c3, c2, c3], 1, [c3, c2, c3], 0);
    w.Undo();
    assert Shows(w, [a], 0, "w", [c1, c2, c3, c2, c3], 0, [c3, c2, c3, c2], 1);
    w.Undo();
  }

  /**
   * The same trace with a rename as the third mutation: the last redo
   * re-applies the rename to the empty list, and the undo after it takes
   * back the first add, which restores no name, so the list ends empty and
   * named "x".
   */
  method StaleRename() returns (names: seq<string>, sizes: seq<int>)
    ensures names == ["w", "x", "x"] && sizes == [0, 0, 0]
  {
    var w, c1, c3 := StaleRenameUndone();
    names, sizes := [w.name], [|w.list|];
    w.Redo();
    assert w.undoPointer == 0 && w.undoStack[0] == c1 && w.redoPointer == 1;
    names, sizes := names + [w.name], sizes + [|w.list|];
    w.Undo();
    names, sizes := names + [w.name], sizes + [|w.list|];
  }

  /**
   * A redo with nothing staged re-executes the latest command, which changes
   * no field but refreshes that command's previous snapshot: after adding A,
   * redo and then undo leave the list [A] instead of emptying it.
   */
  method RedoWithNothingStaged() returns (sizes: seq<int>)
    ensures sizes == [1, 1, 1]
  {
    var a := new Watchable("A", "S", English, true);
    var w := new WatchList("s");
    w.AddWatchable(a);
    sizes := [|w.list|];
    w.Redo();
    sizes := sizes + [|w.list|];
    w.Undo();
    sizes := sizes + [|w.list|];
  }

  /** The four shows the driver builds; Le Mentaliste's first episode is "Pilot". */
  method DriverShows() returns (friends: TVShow, mentalist: TVShow, bigBang: TVShow, daredevil: TVShow,
                                pilot: Episode)
    ensures fresh(friends.base) && fresh(mentalist.base) && fresh(bigBang.base) && fresh(daredevil.base)
    ensures fresh(pilot.base)
    ensures friends.base != mentalist.base && bigBang.base != daredevil.base
    ensures pilot.base !in {friends.base, mentalist.base, bigBang.base, daredevil.base}
    ensures mentalist.base !in {bigBang.base, daredevil.base}
    ensures mentalist.base.title == "Le Mentaliste" && pilot.base.title == "Pilot"
    ensures friends.base.observers == [] && mentalist.base.observers == []
    ensures bigBang.base.observers == [] && daredevil.base.observers == [] && pilot.base.observers == []
  {
    friends := new TVShow("Friends", English, "WarnerBrothers");
    mentalist := new TVShow("Le Mentaliste", French, "WarnerBrothers");
    bigBang := new TVShow("La Teoría del Big Bang", Spanish, "WarnerBrothers");
    daredevil := new TVShow("Daredevil", English, "MarvelStudio");
    pilot := mentalist.CreateAndAddEpisode("pinkie.mov", "Pilot", true);
  }

  /**
   * Playing a show notifies the watchlists holding it; playing one of its
   * episodes notifies only the watchlists holding that episode. Watchlist
   * "one" holds Friends and Le Mentaliste, "two" holds the Big Bang Theory,
   * Daredevil and then the first episode of Le Mentaliste. After the show and
   * then its first episode are played, "one" last watched Le Mentaliste and
   * "two" the episode "Pilot". (No episode has observers when the show is
   * played, so the show's cascade to its episodes notifies nobody.)
   */
  method ObserverTrace() returns (lastOne: Option<string>, lastTwo: Option<string>)
    ensures lastOne == Some("Le Mentaliste") && lastTwo == Some("Pilot")
  {
    var w1, w2, mentalist, pilot := DriverWatchLists();
    assert mentalist.observers[0] == w1;
    mentalist.Watch();
    assert w1.lastWatched == Some(mentalist) && w2.lastWatched == None;
    w2.AddWatchable(pilot);
    assert pilot.observers == [w2] && pilot.observers[0] == w2 && w1.lastWatched == Some(mentalist);
    pilot.Watch();
    lastOne := if w1.lastWatched.Some? then Some(w1.lastWatched.value.title) else None;
    lastTwo := if w2.lastWatched.Some? then Some(w2.lastWatched.value.title) else None;
  }

  /**
   * Watchlist "one" holds Friends and Le Mentaliste, "two" the Big Bang
   * Theory and Daredevil; returned are the two lists and the watchable parts
   * of Le Mentaliste and of its first episode.
   */
  method DriverWatchLists() returns (w1: WatchList, w2: WatchList, mentalist: Watchable, pilot: Watchable)
    ensures fresh(w1) && fresh(w2) && fresh(pilot) && w1 != w2 && w2.Valid()
    ensures w1.lastWatched == None && w2.lastWatched == None
    ensures mentalist.observers == [w1] && pilot.observers == [] && pilot != mentalist
    ensures mentalist.title == "Le Mentaliste" && pilot.title == "Pilot"
  {
    var friends, mentalistShow, bigBang, daredevil, pilotEpisode := DriverShows();
    mentalist := mentalistShow.base;
    pilot := pilotEpisode.base;
    assert pilot !in [friends.base, mentalist] && pilot !in [bigBang.base, daredevil.base];
    assert mentalist !in [bigBang.base, daredevil.base];
    w1 := Build("one", [friends.base, mentalist]);
    assert [friends.base, mentalist][1] == mentalist;
    w2 := Build("two", [bigBang.base, daredevil.base]);
  }

  /** A show with two episodes; Jane is played by Robin in the first, which becomes the prototype. */
  method PrototypeStart() returns (show: TVShow, first: Episode, second: Episode)
    ensures fresh(show) && fresh(first) && fresh(second) && fresh(show.base)
    ensures show.Valid() && show.episodes == [first, second] && show.prototype.Some?
    ensures fresh(show.prototype.value)
    ensures first.number == 1 && second.number == 2
    ensures first.GetCast("Jane") == Some("Robin") && show.prototype.value.GetCast("Jane") == Some("Robin")
  {
    show := new TVShow("Friends", English, "WarnerBrothers");
    first := show.CreateAndAddEpisode("e1.mov", "Pilot", true);
    second := show.CreateAndAddEpisode("e2.mov", "Second", false);
    var previous := first.SetCast("Jane", Some("Robin"));
    assert show.Valid();
    show.SetEpisodePrototype(1);
  }

  /**
   * The prototype is a copy: recasting the episode it was taken from, or an
   * episode made from it, leaves the prototype's cast as it was, and a new
   * episode from the prototype starts with the prototype's cast.
   */
  method PrototypeTrace() returns (numbers: seq<int>, actors: seq<Option<string>>)
    ensures numbers == [1, 2, 3]
    ensures actors == [Some("Robin"), None, Some("Robin"), Some("Robin"), Some("Kim"), Some("Robin")]
  {
    var show, first, second := PrototypeStart();
    var prototype := show.prototype.value;
    actors := [prototype.GetCast("Jane")];
    var previous := first.SetCast("Jane", None);
    actors := actors + [first.GetCast("Jane"), prototype.GetCast("Jane")];
    var third := show.CreateAndAddEpisodeFromPrototype("e3.mov", "Third", true);
    actors := actors + [third.GetCast("Jane")];
    previous := third.SetCast("Jane", Some("Kim"));
    actors := actors + [third.GetCast("Jane"), prototype.GetCast("Jane")];
    numbers := [first.number, second.number, third.number];
  }
}

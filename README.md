# WatchList undo/redo, watchables and TV shows in Dafny

This project models the core of a small Java media library.

- **Watchlists** keep the watchables to play in FIFO order. Each has a name, a playback cursor and the last watched item.
- **Watchables** keep a title, studio, language, a tag map and the watchlists observing them.
- **TV shows** keep numbered episodes and a prototype episode to clone new ones from.

Every mutating call of a watchlist goes through the same undo/redo machinery. The five calls are `addWatchable`, `removeWatchable`, `next`, `reset` and `setName`. Each one:

1. truncates the undo stack above the undo pointer;
2. clears the redo stack;
3. creates a command that snapshots the list;
4. pushes the command;
5. then mutates the list.

`undo` and `redo` move commands between two stacks. The stacks are indexed by integer pointers and never popped.

How each part of the model is built:

- **Pure definitions** (module `Snapshots`):
  - `Snapshot` is what the copy constructor copies.
  - `Apply` is the effect of each mutation.
  - `Undone` and `Redone` are what each command variant restores.
- **Classes** `WatchLists.WatchList`, `WatchLists.Command` and `WatchLists.Watchable` carry the same fields as the Java classes. Their methods update them in place.
  - Each method's postcondition ties the new state to the pure definitions.
  - The history change is spelled out by `WatchList.Recorded`.
- **TV shows**: `TVShows.TVShow` and `TVShows.Episode` keep their watchable part in a `base` object. A watchlist holds that object.
- **Scenarios**: module `Scenarios` replays the console driver's calls and proves the outputs its comments expect.

Two behaviours of the code are worth knowing, and the model follows the code in both:

- **Undo does not always reverse a mutation exactly.** Removing an entry before the cursor moves the cursor back. The add/remove command restores only the collection on undo, so the cursor stays moved.
  - `Snapshots.UndoAfterApply` states exactly when undo reverses a mutation.
  - `Scenarios.RemoveBeforeCursor` shows the case: entries A, B, C, D with the cursor on C; removing A and undoing leaves the cursor on B.
- **Undo restores the collection for every command kind; redo restores it only for add/remove.** Undo-then-redo of a rename or of a cursor move therefore keeps the collection from the command's snapshot. `Snapshots.RedoAfterUndo` states when the round trip is exact.

- **A redo after a second round of undos can re-apply the wrong command.** Undo pushes the command at the END of the redo stack but only increments the redo pointer, and redo pushes the redone command again onto the undo stack without popping anything. Once a redo has happened and the same commands are undone again, the redo pointer rests on an older entry, and the command there is not the one just undone.
  - `Scenarios.StaleRedo`: add A, B and C; undo, undo, redo, redo, undo, undo, undo empties the list; the next redo brings back all three entries instead of A alone.
  - `Scenarios.StaleRename`: the same with a rename to "x" as the third call. The last redo re-applies the rename to the empty list, and the undo after it takes back the first add, so the list ends empty and named "x".
  - `WatchList.Undo` keeps the redo stack `Aligned` (each entry is the command at the mirrored position of the undo stack) only while nothing is left above the redo pointer. `WatchList.Redo` keeps it aligned, and while it is aligned redo re-applies the command just above the undo pointer.
- **A redo with nothing staged is not a no-op.** It re-executes the command under the undo pointer. That changes no field (`WatchList.Valid` keeps this true), but it refreshes the command's previous snapshot to the current state. So `Scenarios.RedoWithNothingStaged` shows that adding A, then redo, then undo, leaves the list `[A]`.

What the history does guarantee is stated on the ghost field `WatchList.latest`, the position of the latest mutation's command:

- `WatchList.Valid` keeps `undoPointer + redoPointer + 1 == latest`, and keeps the first redo entry equal to that command.
- Undo changes no command's previous snapshot. Redo changes only that of the command it re-applies. Neither removes or replaces an entry of the undo stack.
- Module `History` composes the single-call contracts. Any n mutations, none of them a removal before the cursor, followed by n undos give back the name, the entries, the cursor and the last watched entry (`History.RoundTrip`).

A further point concerns the driver's comments. The comments on the remove test's last two lines expect sizes 2 and 1. The code gives 1 and 2, and the next line's comment (size 2) agrees with the code. `Scenarios.RemoveTrace` proves 1, 2, 1, 2.

## Model

| member | source | states |
|---|---|---|
| Cursor.Advance | src/WatchList.java:146-149 | one step of the cursor stays below the size and equals (cursor + 1) mod size |
| Cursor.VisitsInOrder | src/TVShow.java:135-143 | from a reset cursor, k <= size calls of next read positions 0..k-1 in order; after size calls the cursor is back at 0 |
| Cursor.AdvancedFrom | src/WatchList.java:145-149 | k steps from `start` that do not pass the end land on start + k, or on 0 at the end |
| Cursor.VisitedFrom | src/WatchList.java:145-149 | k steps from `start` read start, start + 1, ..., start + k - 1 |
| Tags.Assign | src/AbstractWatchable.java:62-66 | put or remove: the previous mapping is returned, the key is present exactly when a value was given, every other key is unchanged |
| Tags.AssignPreviousRestores | src/AbstractWatchable.java:62-66 | assigning back the returned previous value restores the original map |
| Lists.RemoveFirst | src/AbstractWatchable.java:39-41 | List.remove(Object) shortens the list by one exactly when the element is present, and adds no element |
| Tags.Lookup | src/AbstractWatchable.java:69-72 | Map.get: a value exactly for a mapped key, and it is the mapped value |
| Tags.LookupAfterAssign | src/TVShow.java:200-211 | get after put or remove: the assigned key yields the given value or null, every other key what it yielded before |
| Tags.BlankKeys | src/AbstractWatchable.java:62-63 | isBlank holds for the empty key, holds for a concatenation iff for both parts, and fails for a letter and the three no-break spaces |
| Lists.IndexOf | src/AbstractWatchable.java:39-41 | the first position holding the element |
| Lists.RemoveFirstCutsFirst | src/AbstractWatchable.java:39-41 | List.remove(Object) leaves a list without the element unchanged and otherwise cuts out exactly its first occurrence |
| Lists.RemoveFirstMultiset | src/AbstractWatchable.java:39-41 | removal takes out one copy of the element, if present, and nothing else |
| Snapshots.Apply | src/WatchList.java:76-184 | per mutation: add appends, remove deletes the index and moves the cursor back iff it was after it, next advances with wrap-around, reset zeroes the cursor, setName renames; nothing else changes |
| Snapshots.Undone | src/AbstractCommand.java:17-20 | undo restores the collection for every kind, plus the cursor for next/reset and the name for setName; last watched is never restored |
| Snapshots.Redone | src/AbstractCommand.java:22-25 | redo without a state captured by undo changes nothing; with one, only the variant's own field comes back from it |
| Snapshots.UndoAfterApply | src/AddRemoveWatchable.java:8-11 | undo right after a mutation restores the state exactly iff the mutation is not a removal before the cursor |
| Snapshots.RedoAfterUndo | src/SetNameCommand.java:8-18 | redoing the same command right after undoing it restores the state exactly iff the command is add/remove or the collection equals the snapshot's |
| Snapshots.ApplyUndoRedo | src/NextResetCommand.java:8-18 | a mutation, undone then redone by the same command, leaves the state the mutation produced |
| Snapshots.UndoAfterRedo | src/AbstractCommand.java:22-25 | undoing the same command right after redoing it restores the state redo started from |
| Snapshots.Replay | src/WatchList.java:64-185 | a run of mutations, each enabled and none a removal before the cursor, leaves the last watched entry alone |
| Snapshots.RemoveKeepsCursorTarget | src/WatchList.java:100-103 | removing an entry other than the one under the cursor keeps the cursor on the same entry |
| WatchLists.Watchable.constructor | src/AbstractWatchable.java:14-19 | title, studio and language are stored unchanged; no tags, no observers |
| WatchLists.Watchable.Copy | src/TVShow.java:243-245 | the copy has the original's fields and maps equal to the original's |
| WatchLists.Watchable.Watch | src/AbstractWatchable.java:22-25 | playing notifies exactly as notifyObservers does: every observer's last watched is this watchable |
| WatchLists.Watchable.NotifyObservers | src/AbstractWatchable.java:28-31 | every observer's last watched becomes this watchable; only observers' last-watched fields change |
| WatchLists.Watchable.AddObserver | src/AbstractWatchable.java:34-36 | the observer is appended, duplicates kept |
| WatchLists.Watchable.RemoveObserver | src/AbstractWatchable.java:39-41 | the first occurrence of the observer is removed, all other entries keep their order |
| WatchLists.Watchable.SetInfo | src/AbstractWatchable.java:62-66 | for a non-blank key: returns the previous tag, maps or removes the key, and hasInfo/getInfo then agree |
| WatchLists.Watchable.HasInfo | src/AbstractWatchable.java:74-78 | for a non-blank key: true exactly when Map.get does not return null |
| WatchLists.Watchable.GetInfo | src/AbstractWatchable.java:68-72 | for a mapped non-blank key: the value Map.get returns |
| WatchLists.CaptureCopiesFields | src/WatchList.java:32-37 | the copy constructor keeps the name, the entries, the cursor and the last watched entry, and nothing else: two copies are equal iff those four fields are |
| WatchLists.WatchList.GetRemainingCount | src/WatchList.java:122-130 | the remaining count never exceeds the total count and is positive exactly when the cursor designates an entry |
| WatchLists.ValidCount | src/WatchList.java:112-120 | the number of valid entries is at most the length, 0 iff none is valid, the length iff all are |
| WatchLists.WatchList.constructor | src/WatchList.java:25-29 | the named list starts empty with cursor 0, nothing watched and empty stacks |
| WatchLists.WatchList.Update | src/WatchList.java:43-45 | last watched becomes the given watchable |
| WatchLists.WatchList.ClearAbovePointer | src/WatchList.java:67-69 | the undo stack keeps the entries up to the pointer; the redo stack is emptied and its pointer is -1 |
| WatchLists.WatchList.PushKeepsUndoable | src/WatchList.java:71-74 | pushing a command holding the state before the push keeps every command below it undoing exactly iff it did before |
| WatchLists.WatchList.PopKeepsUndoable | src/WatchList.java:195-204 | after undoing a command that undid exactly, the state is its previous snapshot and the commands below keep undoing exactly |
| WatchLists.WatchList.UndoKeepsAligned | src/WatchList.java:195-201 | with nothing above the redo pointer, stacking the undone command keeps the redo stack aligned with the undo stack |
| WatchLists.WatchList.PushCommand | src/WatchList.java:71-74 | on a cleared history, one fresh command of the given kind holding the current state is pushed and designated by the undo pointer; the commands below keep undoing exactly iff they did |
| WatchLists.WatchList.FieldsKeepUndoable | src/WatchList.java:101-105 | changing the list's fields after the command is pushed leaves every command below the pointer undoing exactly iff it did |
| WatchLists.WatchList.Record | src/WatchList.java:67-74 | the shared prelude: history recorded per `Recorded` (old prefix up to the pointer plus one fresh command holding the state before the call, redo stack cleared), list state unchanged |
| WatchLists.WatchList.AddWatchable | src/WatchList.java:64-79 | history recorded; the state is Apply(Add); the list registers as the item's observer |
| WatchLists.WatchList.RemoveWatchable | src/WatchList.java:89-107 | for an index in range: history recorded; returns the old entry at the index; the state is Apply(Remove); the list unregisters as the item's observer |
| WatchLists.WatchList.GetValidCount | src/WatchList.java:112-120 | the counting loop returns ValidCount of the list |
| WatchLists.WatchList.Next | src/WatchList.java:133-151 | when entries remain: history recorded; returns the entry at the cursor; the cursor advances with wrap-around |
| WatchLists.WatchList.Reset | src/WatchList.java:154-165 | history recorded; the cursor is 0 |
| WatchLists.WatchList.SetName | src/WatchList.java:174-185 | history recorded; the name is replaced |
| WatchLists.WatchList.DeleteElementsAfterPointer | src/WatchList.java:187-193 | the undo stack is cut to the entries up to the pointer; an empty stack or a pointer at or above the top leaves it alone |
| WatchLists.WatchList.Undo | src/WatchList.java:195-204 | no-op below 0; otherwise the command under the pointer is stacked for redo, both pointers move, and the state becomes Undone from the command's previous snapshot; Valid (pointers summing to the latest command's position) holds; no previous snapshot changes; a command that undid exactly restores its snapshot and keeps those below undoing exactly; alignment is kept when nothing was above the redo pointer |
| WatchLists.WatchList.Redo | src/WatchList.java:206-222 | with a staged redo entry it is pushed on the undo stack and both pointers move; otherwise only the command under the undo pointer is re-executed, which changes no field but refreshes that command's previous snapshot; the state becomes Redone; Valid holds; alignment is kept, and while aligned the command redone is the one just above the undo pointer |
| WatchLists.Command.constructor | src/AbstractCommand.java:7-9 | a command is bound to its watchlist for good and holds no snapshot yet |
| WatchLists.Command.Execute | src/AbstractCommand.java:12-14 | the previous state is a snapshot of the watchlist |
| WatchLists.Command.BaseUnExecute | src/AbstractCommand.java:17-20 | the current state is captured as the next state, and the collection comes back from the previous state; name and cursor untouched |
| WatchLists.Command.UnExecute | src/AddRemoveWatchable.java:8-11 | the variant's undo leaves the watchlist in the Undone state for its kind |
| WatchLists.Command.BaseReExecute | src/AbstractCommand.java:22-25 | only the previous state is refreshed; no watchlist field changes |
| WatchLists.Command.ReExecute | src/NextResetCommand.java:14-18 | the variant's redo refreshes the previous state and leaves the watchlist in the Redone state for its kind |
| TVShows.Episode.GetCast | src/TVShow.java:209-211 | the actor cast as the character, or null exactly when the character has none |
| TVShows.EpisodeNumbers | src/TVShow.java:119-127 | the episodes are numbered from 1 to the total count, each number naming exactly one episode, the one getEpisode returns |
| TVShows.TVShow.Append | src/TVShow.java:69-73 | the episode goes at the end, and the show is valid iff it was or the new episode is |
| TVShows.TVShow.constructor | src/TVShow.java:33-36 | title, language and studio stored; no episodes; cursor 0; no prototype |
| TVShows.TVShow.GetRemainingCount | src/TVShow.java:130-132 | between 0 and the number of episodes, and 0 only for a show without episodes |
| TVShows.TVShow.GetEpisode | src/TVShow.java:119-122 | for 1 <= n <= size, the episode of this show numbered n |
| TVShows.TVShow.CreateAndAddEpisode | src/TVShow.java:69-73 | a new episode numbered size + 1, with the show's studio and language and the given title and path, is appended |
| TVShows.TVShow.SetEpisodePrototype | src/TVShow.java:82-85 | the prototype is a fresh copy of episode n |
| TVShows.TVShow.CreateAndAddEpisodeFromPrototype | src/TVShow.java:98-109 | for a non-empty show: episode 1 becomes the prototype if none was set; a copy of the prototype with number size + 1 and the given path and title is appended |
| TVShows.TVShow.Next | src/TVShow.java:135-143 | when episodes remain: returns the episode at the cursor (numbered cursor + 1) and advances with wrap-around |
| TVShows.TVShow.Reset | src/TVShow.java:146-148 | the cursor is 0 |
| TVShows.TVShow.IsValid | src/TVShow.java:54-58 | the search returns true iff some episode is valid |
| TVShows.Episode.constructor | src/TVShow.java:172-176 | number, title, path, studio and language stored; no cast |
| TVShows.Episode.Clone | src/TVShow.java:241-252 | the copy equals the original, with its own watchable part and its own cast and tag maps |
| TVShows.Episode.Relabel | src/TVShow.java:104-106 | the copy takes the new number, path and title |
| TVShows.Episode.SetCast | src/TVShow.java:200-207 | put or remove of the character, returning the previous actor; afterwards getCast gives the new actor or null for that character and the old answer for every other |
| TVShows.Episode.GetPrevious | src/TVShow.java:231-233 | the episode numbered one less |
| TVShows.Episode.GetNext | src/TVShow.java:236-238 | the episode numbered one more |
| TVShows.Navigation | src/TVShow.java:220-238 | hasPrevious iff not the first episode, hasNext iff not the last, and next then previous returns to the episode |
| Scenarios.TwoShows | src/Driver.java:30-32 | watchlist "one" holds two shows, with two add commands recorded |
| Scenarios.Push | src/WatchList.java:64-79 | on a clean history, an add appends the entry and pushes one command holding the state before it |
| Scenarios.AddTraceStart | src/Driver.java:57-59 | sizes 2, 1, 0 |
| Scenarios.AddTraceRedone | src/Driver.java:59-60 | sizes 1, 2 after redo, redo |
| Scenarios.AddTrace | src/Driver.java:61-62 | the add test shows sizes 2, 1, 0, 1, 2, 1, 2 |
| Scenarios.RemoveTrace | src/Driver.java:66-70 | the remove test shows sizes 1, 2, 1, 2 |
| Scenarios.Renamed | src/Driver.java:74-76 | names new, abc, new |
| Scenarios.NameTrace | src/Driver.java:74-79 | the rename test shows names new, abc, new, abc, one |
| Scenarios.FiveShows | src/Driver.java:82-85 | three more adds give five entries with the cursor at 0 |
| Scenarios.NextTraceStart | src/Driver.java:85-87 | cursor 0, 1, 2 |
| Scenarios.NextTraceMiddle | src/Driver.java:88-90 | cursor 1, 0, 1 after undo, undo, redo |
| Scenarios.NextTrace | src/Driver.java:85-92 | the cursor test shows 0, 1, 2, 1, 0, 1, 0, 2 |
| Scenarios.ResetTrace | src/Driver.java:95-97 | the reset test shows cursor 0, 2, 0 |
| Scenarios.FourEntries | src/WatchList.java:64-79 | four adds give entries A, B, C, D with the cursor at 0 |
| Scenarios.CursorOnThird | src/WatchList.java:133-151 | four entries, two calls of next: cursor at 2 |
| Scenarios.RemoveFirstEntry | src/WatchList.java:100-104 | removing entry 0 moves the cursor from 2 to 1 |
| Scenarios.RemoveBeforeCursor | src/AddRemoveWatchable.java:8-11 | after undoing that removal the cursor stays at 1, now on B instead of C |
| Scenarios.TwoAdds | src/WatchList.java:64-79 | two adds on a new list give [A, B] and push two commands holding [] and [A] |
| Scenarios.ThreeAdds | src/WatchList.java:64-79 | three adds push three commands holding [], [A], [A, B] |
| Scenarios.StaleRedoBack | src/WatchList.java:195-204 | two undos leave [A] with the third and second adds stacked for redo |
| Scenarios.StaleRedoStart | src/WatchList.java:195-222 | undo, undo, redo, redo give back [A, B, C] with the second and third adds stacked twice |
| Scenarios.StaleRedoUndone | src/WatchList.java:195-204 | three more undos empty the list and leave the redo pointer on an entry holding the third add |
| Scenarios.StaleRedo | src/WatchList.java:206-222 | the redo after that brings back three entries, not one |
| Scenarios.AddsThenRename | src/WatchList.java:174-185 | two adds and a rename to "x" push three commands |
| Scenarios.StaleRenameBack | src/WatchList.java:195-204 | two undos leave [A] named "w" with the rename and the second add stacked for redo |
| Scenarios.StaleRenameStart | src/WatchList.java:195-222 | undo, undo, redo, redo give back [A, B] named "x" |
| Scenarios.StaleRenameUndone | src/WatchList.java:195-204 | three more undos empty the list and restore the name "w" |
| Scenarios.StaleRename | src/WatchList.java:195-222 | redo then undo leave the list empty and named "x" |
| Scenarios.RedoWithNothingStaged | src/WatchList.java:206-213 | after one add, redo then undo leave one entry |
| History.Perform | src/WatchList.java:64-185 | each mutation makes the Apply state, pushes one fresh command holding the state before it, keeps the commands below, and that command undoes exactly iff the mutation is not a removal before the cursor |
| History.PerformAll | src/WatchList.java:64-185 | a run of mutations reaches the Replay state, pushes one command per mutation, the lowest holding the state before the run, each undoing exactly |
| History.UndoTimes | src/WatchList.java:195-204 | n undos over n commands that undo exactly give the previous snapshot of the lowest |
| History.RoundTrip | src/WatchList.java:64-204 | n mutations, none a removal before the cursor, then n undos restore name, entries, cursor and last watched, and the undo pointer |
| Scenarios.DriverShows | src/Driver.java:9-18 | the four shows, and Le Mentaliste's first episode "Pilot" |
| Scenarios.DriverWatchLists | src/Driver.java:30-35 | the two watchlists, each observing its two shows |
| Scenarios.ObserverTrace | src/Driver.java:37-45 | after the show and then its episode are played, "one" last watched Le Mentaliste and "two" last watched Pilot |
| Scenarios.PrototypeStart | src/TVShow.java:82-85 | the prototype taken from episode 1 has episode 1's cast |
| Scenarios.PrototypeTrace | src/TVShow.java:75-109 | recasting the source episode or an episode made from the prototype leaves the prototype's cast unchanged; the new episode is numbered 3 and starts with the prototype's cast |

## Left out

- Console output: the printing in `watch` and in the episode's `watch`, and the driver's printing. The scenarios return the values the driver prints.
- File system: `Episode.isValid` checks that the episode's file exists and is readable. The model holds the answer as the flag `valid`, which the caller supplies as `readable` when the episode is created.
- A show's `watch` override, which notifies the show's observers and then plays every valid episode: not modelled. `Scenarios.ObserverTrace` plays the show through its watchable part. At that point no episode has observers, so the cascade would notify nobody.
- List aliasing: after an undo or redo the Java watchlist shares its list object with the command's snapshot, so later in-place edits also change that snapshot. The model holds lists as values, so snapshots never change after they are taken.
- WatchLists.Watchable.Copy: the copy gets a copy of the observer list. In Java, `Object.clone` makes the copy share the observer list object with the original.
- Observer membership: undo and redo restore the collection but never re-register or unregister observers, so no invariant ties "observes this list" to "is in this list". None is claimed.
- The cursor is a `nat` and no bound relative to the list size is claimed. It can equal the size: removing the last entry while the cursor is on it leaves the cursor one past the end (entries A, B, cursor 1, remove 1 gives A with cursor 1). After a stale redo (see `Scenarios.StaleRedo`) the list and the cursor can come from different snapshots, so the cursor can pass the size too.
- `Bingeable`, `Sequenceable`, the `Command` interface and `Language` are not part of this model. `Language` is a stand-in datatype.
- `iterator()`, `getAllCharacters()` and the plain getters: the model reads the fields directly.
- Null arguments: strings and watchables cannot be null in the model, so the asserts against null disappear. A null tag value or actor is `None`.
- Integer width: the Java `int` sizes, pointers and episode numbers are unbounded integers. No list in the program comes near 2^31 entries.


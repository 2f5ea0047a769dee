# tox4j, verified

A Dafny model of the parts of tox4j that hold real state or algorithms, and proofs of
what they promise.

* **The instance manager.** `InstanceSlots` says what `add`, `kill`, `finalize` and
  `with_instance` do to the slot lists when they run alone, and refines them to a map
  from numbers to Unknown, Live, Killed or Free. `InstanceManager` is the object that
  updates the lists in place. `ManagerThreads` is a step relation over any number of
  threads in which every lock, unlock and list access is a step. `Linearizability`
  relates its runs to sequential histories and proves that no object is used after it
  is destroyed, lost or destroyed twice. `TwoManagers` puts the core manager, the av
  manager and the log mutex together, and `Deadlocks` settles when the process can deadlock.
* **The call log.** `JniLog` is the bounded log with nested calls, filters and
  deletion from the middle, proved against a recursive specification over call trees.
  `LogEntries` is the entries and the search for one. `LogThreads` runs the log under any
  number of threads, as a machine with a stack of open calls per thread; `LogStack` proves
  that machine equal to the same specification.
  `FuncNames` is the registry of names and the late resolution of addresses.
* **The pretty printer.** `PrettyDoc` gives documents their meaning as a set of
  layouts and proves the renderer greedy-optimal; `PrettyFlatten` covers `flatten` and
  `group`, `PrettyIndent` the printed page, `nest` and `align`, and `PrettyTruncate` the
  truncating and the compact renderers.
* **The task scheduler** (`Scheduler`), **the callback multiplexer**
  (`EventCallbacks`), and **the media arithmetic** (`Pcm`, `Video`).

`dafny verify dfyconfig.toml` checks everything.

## Where code and documentation differ

The model follows the code.

* The manager's documentation calls `finalize` on a live instance undefined behaviour;
  the code throws and changes nothing (`InstanceSlots.FinalizeRefinesMap`).
* With logging enabled the lock order log, manager, slot is a cycle
  (`Deadlocks.LoggingDeadlocks`); without logging there is none, and the condition is exact.
  What closes the cycle is always a thread that calls `add` inside an open log entry
  (`Deadlocks.DeadlocksAreBlockedInAdd`, `Deadlocks.NoDeadlockWithoutAddInsideEntry`).
* `Event.remove` is documented as dangerous when called twice with an add in between.
  The identifier is reset on the first call, so the second does nothing
  (`EventCallbacks.SecondRemoveIsHarmless`).
* The truncating renderer is documented to count non-space characters. It compares
  with the non-space length of a text but subtracts the whole length, so spaces take up
  room; and a line end is kept only if there is room for more after it
  (`PrettyTruncate.SpacesAndLineEndsTakeRoom`). `PrettyTruncate.CutsOnlyOverCountExactly`
  says for which documents the promise holds.
* The compact renderer stops at the first empty document, so a `linebreak` ends the
  output (`PrettyTruncate.CompactPrintsFlatTextExactly`,
  `PrettyTruncate.CompactLosesTextAfterLinebreak`).
* `flatten` puts a line's replacement in as it is. It is idempotent exactly when the
  replacements are flat already; line-free is not enough
  (`PrettyFlatten.FlattenIdempotentExactly`, `PrettyFlatten.LineFreeReplacementsAreNotEnough`).
* The log's destructor asserts that its entry is still there. The recursive mutex would
  let a thread clear the log inside its own logged call and break this
  (`LogThreads.MutexAllowsClearInsideCall`); that is the only way to
  (`LogThreads.ClearKeepsInvExactly`, `LogThreads.ApplyKeepsInv`). No native method does it:
  `tox4jLastLog` (`src/main/cpp/ToxCore/debug.cpp:75-82`) is the only caller of `clear`, and it
  logs no call of its own.
* Video frames of odd size do not survive the way to planar form and back: for some sizes the
  chroma planes are too small for the converter, for the others the last column takes its
  chroma from another block or from entries never written (`Video.FramesSurviveExactly`).

## How the model reads the source

* An object and its events, two pointers that always travel together, are one pair with
  an identity; each pair is handed to `add` once, as a `unique_ptr` is. `func`,
  destructors and serialisation are abstract steps.
* The manager's mutexes are not recursive, and code run by `with_instance` uses the
  managers only as `toxavNew` does: it may add to the av manager from inside a core slot.
* In the process with logging, an entry is opened before a new core instance is added
  (`src/main/cpp/tox4j/ToxInstances.h:303-315`) or inside a function run on an instance
  (`src/main/cpp/tox4j/ToxInstances.h:321-340`), and it is closed at the level where it was opened.
  Reading, clearing or filtering the log takes its mutex with nothing else held, with logging on
  or off (`src/main/cpp/util/debug_log.cpp:112`, `:155`, `:162`).
* The destructor of a log entry looks at the name first and then searches; the model
  searches first, because an entry is its position and identity rather than a pointer.
* A callback is its registration number and the action it performs. A task is what it
  adds to the task list, as an arbitrary function of everything that happened before.
* A video frame is an arbitrary function from coordinates to packed colours. On the way back
  the planes have the strides they were generated with. An arithmetic
  right shift is division rounding down.

## Model

| member | source | states |
|---|---|---|
| `Linearizability.CallTakesEffectOnce` | src/main/cpp/util/instance_manager.h:127-331 | for every interleaving of any number of threads: between a call and its return exactly one linearisation point belongs to it, carrying the operation called and the outcome returned, and that outcome is the one the sequential manager and the reference map give at that point |
| `Linearizability.RunIsSequential` | src/main/cpp/util/instance_manager.h:187-331 | the points of any run, in order, form a sequential history in which every outcome is explained, and the lists in memory are what that history leaves |
| `Linearizability.HistoryKeepsRealTimeOrder` | src/main/cpp/util/instance_manager.h:187-331 | a call that returned before another was made comes before it in the sequential history |
| `Linearizability.OnePointPerCall` | src/main/cpp/util/instance_manager.h:187-331 | at every moment a thread has taken exactly the point its program counter says it has: none before the access, one after |
| `Linearizability.PointDoesTheOperation` | src/main/cpp/util/instance_manager.h:187-331 | a step that is not a linearisation point leaves the lists alone; the step that is one does the whole sequential operation |
| `Linearizability.RunKeepsInv` | src/main/cpp/util/instance_manager.h:93-104 | mutex owners, slot locks, frames, lists and ownership stay consistent in every reachable state |
| `Linearizability.RunningIsSafe` | src/main/cpp/util/instance_manager.h:298-331 | in every reachable state a thread running func holds the slot's lock alone, the slot still owns exactly the pair func was given, the pair has not been destroyed, and the thread does not keep the manager locked |
| `Linearizability.DestructorRunsLocked` | src/main/cpp/util/instance_manager.h:236-251 | a destructor runs only in `kill`, with manager and slot locked, on a pair that is in no slot and that no thread runs a function on |
| `Linearizability.OwnershipConserved` | src/main/cpp/util/instance_manager.h:187-285 | an object is somewhere iff it was handed to `add`, it is in exactly one place, no destructor runs twice, and when no call is open it is in a slot or destroyed |
| `Linearizability.GivenAreOwned` | src/main/cpp/util/instance_manager.h:187-227 | the objects accounted for are exactly those handed to `add` during the run |
| `Linearizability.ListsAreTight` | src/main/cpp/util/instance_manager.h:93-104 | in every reachable state of every interleaving, locks and instances have equal length, namely the high-water mark of un-finalised handles, and the unfinalised slots are exactly the handles held |
| `Linearizability.StepsCycle` | src/main/cpp/util/instance_manager.h:187-285 | no step of any run moves a slot other than along Live, Killed, Free, Live |
| `ManagerThreads.ApplyKeepsInv` | src/main/cpp/util/instance_manager.h:187-331 | every lock, unlock and list access of every thread keeps the invariant |
| `ManagerThreads.AddKeepsInv` | src/main/cpp/util/instance_manager.h:187-227 | `add` fills or grows the lists under the manager mutex alone without disturbing any thread that is running func |
| `ManagerThreads.KillKeepsFrames` | src/main/cpp/util/instance_manager.h:236-251 | moving the pointers out under both mutexes invalidates nothing another thread relies on |
| `ManagerThreads.DestroyKeepsInv` | src/main/cpp/util/instance_manager.h:245-251 | the destructor runs once, on a pair that no slot and no thread can reach any more |
| `ManagerThreads.FinalizeKeepsInv` | src/main/cpp/util/instance_manager.h:263-285 | `finalize` recycles a number under the manager mutex alone, though other threads may still hold that slot's lock |
| `InstanceSlots.ExecRefinesMap` | src/main/cpp/util/instance_manager.h:127-331 | each operation keeps the freelist valid and has the effect and outcome that the map number -> Unknown/Live/Killed/Free allows, error messages included |
| `InstanceSlots.AddRefinesMap` | src/main/cpp/util/instance_manager.h:187-227 | `add` turns a Free number Live, and grows the map only when no number is Free |
| `InstanceSlots.KillRefinesMap` | src/main/cpp/util/instance_manager.h:236-251 | `kill` turns Live to Killed, is idempotent on Killed, ignores 0 and rejects the rest with the right reason |
| `InstanceSlots.FinalizeRefinesMap` | src/main/cpp/util/instance_manager.h:263-285 | `finalize` turns Killed to Free, reports a leak on Live, ignores 0 and rejects a second finalize |
| `InstanceSlots.WithRefinesMap` | src/main/cpp/util/instance_manager.h:298-331 | func runs iff the number is Live, on that number's pair; Killed and invalid numbers get their own errors |
| `InstanceSlots.SlotsCycle` | src/main/cpp/util/instance_manager.h:187-285 | one operation moves any slot at most one place along Live, Killed, Free, Live |
| `InstanceSlots.HandlesAreUnfinalised` | src/main/cpp/util/instance_manager.h:93-102 | over any sequence of operations the handles held are exactly the slots not on the freelist, and handles plus free slots make up the list |
| `InstanceSlots.AddReturnsFreshHandle` | src/main/cpp/util/instance_manager.h:204-226 | `add` never returns a number that is still un-finalised |
| `InstanceSlots.SlotCountIsHighWater` | src/main/cpp/util/instance_manager.h:204-226 | the number of slots always equals the highest count of un-finalised handles reached |
| `InstanceSlots.AddsReuseLatestFinalised` | src/main/cpp/util/instance_manager.h:204-226 | after finalising any distinct killed numbers, as many adds return those numbers in reverse order |
| `InstanceManager.Manager.constructor` | src/main/cpp/util/instance_manager.h:93-104 | a new manager is empty and valid |
| `InstanceManager.Manager.CheckInstanceNumber` | src/main/cpp/util/instance_manager.h:127-171 | proceeds iff the number is in range and not on the freelist, and otherwise gives the source's reason |
| `InstanceManager.Manager.Add` | src/main/cpp/util/instance_manager.h:187-227 | in place: keeps the class invariant, destroys nothing and does what the refined `add` does |
| `InstanceManager.Manager.Kill` | src/main/cpp/util/instance_manager.h:236-251 | in place: destroys the pair exactly if the number was Live and does what the refined `kill` does |
| `InstanceManager.Manager.Finalize` | src/main/cpp/util/instance_manager.h:263-285 | in place: touches the freelist only and does what the refined `finalize` does |
| `InstanceManager.Manager.WithInstance` | src/main/cpp/util/instance_manager.h:298-331 | hands out a pair iff the map says that number is Live with that pair |
| `Deadlocks.DeadlockFreeExactlyWithoutLogging` | src/main/cpp/ToxAv/lifecycle.cpp:136-166 | the two-manager process is free of deadlock in all reachable states iff logging is disabled |
| `Deadlocks.NoDeadlockWithoutLogging` | src/main/cpp/ToxAv/lifecycle.cpp:136-166 | with logging off, no run of any number of threads ends in a deadlock |
| `Deadlocks.NoDeadlockWithoutAddInsideEntry` | src/main/cpp/tox4j/ToxInstances.h:303-315 | with logging on or off, a run in which nobody calls `add` while holding the log mutex for an open entry does not end in a deadlock |
| `Deadlocks.DeadlocksAreBlockedInAdd` | src/main/cpp/ToxAv/lifecycle.cpp:142-156 | in every deadlock that any run can reach, the owner of the log mutex has an entry open and is blocked inside `add`, of the core or of the av manager |
| `Deadlocks.LoggingDeadlocks` | src/main/cpp/tox4j/ToxInstances.h:303-315 | with logging on, a concrete run of three threads reaches a cycle log, manager, slot |
| `Deadlocks.SomeThreadMoves` | src/main/cpp/ToxAv/lifecycle.cpp:136-166 | if the owner of the log mutex is not in a manager, following the locks upwards from any thread in the middle of something ends at a thread that can step |
| `Deadlocks.LocksAreTakenInOrder` | src/main/cpp/ToxAv/lifecycle.cpp:136-166 | a thread waits only for a lock ranked above all it holds, in the order core manager, core slot, av manager, av slot |
| `TwoManagers.SysRunKeepsInv` | src/main/cpp/ToxAv/lifecycle.cpp:136-188 | in every reachable state of the process, both managers' invariants hold, threads are nested as the code nests them, and the log mutex is held by exactly the thread with something open on it, at one level at a time |
| `TwoManagers.SysApplyKeepsInv` | src/main/cpp/ToxAv/lifecycle.cpp:136-188 | every step of the process keeps both managers' invariants, the nesting and the discipline of the log mutex |
| `TwoManagers.CoreRunsAlone` | src/main/cpp/ToxAv/lifecycle.cpp:136-166 | what the core manager does inside the process is one of its own runs, so all its theorems apply |
| `TwoManagers.AvRunsAlone` | src/main/cpp/ToxAv/lifecycle.cpp:136-188 | the same for the av manager |
| `TwoManagers.RunningIsSafeInProcess` | src/main/cpp/tox4j/ToxInstances.h:321-340 | functions run on core and av instances are safe in the whole process, logging or not |
| `JniLog.Log.Run` | src/main/cpp/util/debug_log.cpp:59-107 | for any forest of nested calls, capacity, filters and starting contents, the in-place log grows by exactly the recursive specification |
| `JniLog.Log.RunCall` | src/main/cpp/tox/common.h:25-32 | one call with its nested calls: opened, nested, closed, possibly deleted from the middle; the growth is exactly what should be kept |
| `JniLog.Log.NewEntry` | src/main/cpp/util/debug_log.cpp:94-107 | an entry is added iff there is room (a capacity of zero or less never has), and nothing else changes |
| `JniLog.Log.Begin` | src/main/cpp/util/debug_log.h:344-357 | an accepted call is recorded under its registered name, or its address if it has none |
| `JniLog.Log.Search` | src/main/cpp/util/debug_log.cpp:66-70 | the loop from the back of the log finds what the search function says |
| `JniLog.Log.End` | src/main/cpp/util/debug_log.cpp:59-81 | deletes exactly this call's entry, wherever it stands, iff its name is filtered |
| `JniLog.Log.Clear` | src/main/cpp/util/debug_log.cpp:109-132 | every entry is serialised under its resolved name and the log is emptied |
| `JniLog.Log.SetMaxSize` | src/main/cpp/util/debug_log.cpp:140-144 | the capacity changes and the entries stay |
| `JniLog.Log.Filter` | src/main/cpp/util/debug_log.cpp:159-164 | the filters change and the entries stay |
| `JniLog.Log.constructor` | src/main/cpp/util/debug_log.cpp:32-38 | empty log, no filters, capacity 100 |
| `JniLog.KeptWithRoom` | src/main/cpp/util/debug_log.cpp:59-107 | with room for every call the log keeps exactly the unfiltered calls in preorder |
| `JniLog.KeptInOrder` | src/main/cpp/util/debug_log.cpp:59-107 | however full the log is, what it keeps is a subsequence of the unfiltered calls in preorder |
| `JniLog.KeptIsUnfiltered` | src/main/cpp/util/debug_log.cpp:59-81 | nothing whose name is among the filters is kept, however full the log is |
| `JniLog.KeptWithoutFilters` | src/main/cpp/util/debug_log.cpp:59-107 | with room and no call filtered, the log keeps all calls in preorder |
| `JniLog.KeptFits` | src/main/cpp/util/debug_log.cpp:94-107 | a forest of calls never takes the log past its capacity |
| `JniLog.ClearedLogHasFinalNames` | src/main/cpp/util/debug_log.cpp:114-125 | what `clear` writes for the entries left by any forest of calls, wherever in the log they stand, is the names their functions have in the registry at clear time, which may have grown before, between and after the forests |
| `LogThreads.ClearWritesCurrentNames` | src/main/cpp/util/debug_log.cpp:114-125 | in every reachable state, with functions registered by anyone at any time between log entries, resolving any entry gives the name its function has by then |
| `LogThreads.FirstNameIsWritten` | src/main/cpp/util/debug_log.cpp:187-206 | once a function has been given its first name, that is the name `clear` writes for all its entries in every later state of the run, whenever they were logged |
| `FuncNames.LateNamesResolve` | src/main/cpp/util/debug_log.cpp:114-125 | resolving the name written under an earlier registry gives the later registry's name |
| `FuncNames.ReadPrinted` | src/main/cpp/util/debug_log.cpp:118-123 | reading a printed address gives back the address, for every 64-bit address |
| `FuncNames.DecimalDigits` | src/main/cpp/util/debug_log.cpp:197-206 | the text of an address is its decimal digits, most significant first, without leading zeros |
| `FuncNames.RegisterExtends` | src/main/cpp/util/debug_log.cpp:187-194 | registering a new function gives it exactly the name given, and changes the name of no other function and of none that has one |
| `LogStack.ForestIsLogged` | src/main/cpp/util/debug_log.cpp:59-107 | from any reachable state and with any calls open, a thread that can take the log mutex can make the flat sequence of starts and finishes of any forest; it puts stacks, mutex and settings back and grows the log by exactly the recursive specification |
| `LogStack.CallIsLogged` | src/main/cpp/util/debug_log.cpp:59-107 | the same for one call with everything nested in it |
| `LogStack.SettingsGovernLaterCalls` | src/main/cpp/util/debug_log.cpp:140-164 | after setting a capacity and filters, any forest of calls is logged by exactly those |
| `LogStack.DisabledLogIsOutOfTheWay` | src/main/cpp/util/debug_log.cpp:97-99 | with a capacity of zero a call starts and ends without waiting, whoever holds the mutex, and leaves everything as it was |
| `LogEntries.AcceptedIsFound` | src/main/cpp/util/debug_log.cpp:66-80 | after any entries added behind it, the search from the back finds an entry at the position where it was opened |
| `LogEntries.Find` | src/main/cpp/util/debug_log.cpp:66-70 | finds an entry with this identity if there is one, and reports none only if there is none |
| `LogThreads.ApplyKeepsInv` | src/main/cpp/util/debug_log.cpp:59-164 | a step of any thread keeps the log invariant iff it is not a thread clearing the log inside its own logged call |
| `LogThreads.ClearKeepsInvExactly` | src/main/cpp/util/debug_log.cpp:109-132 | clearing is harmless iff the clearing thread has no entry open; otherwise none of its open entries can be found again |
| `LogThreads.RunKeepsInv` | src/main/cpp/util/debug_log.cpp:59-164 | the log invariant holds in every reachable state, with capacity and filters changing at any time |
| `LogThreads.OneThreadHasOpenEntries` | src/main/cpp/util/debug_log.cpp:94-107 | open entries belong to the one thread holding the recursive mutex, whose depth counts them, and stand in the log in stack order |
| `LogThreads.EntryIsFoundAtHeadOfItsBlock` | src/main/cpp/util/debug_log.cpp:66-80 | while a call is open the destructor's search succeeds, and the entry with everything logged since is one contiguous block of its own thread |
| `LogThreads.EndedCallStaysOneBlock` | src/main/cpp/util/debug_log.cpp:59-107 | everything opened from an accepted call's start to its end was opened by its thread, and what is left of it at the end stays one unchanged contiguous block in every later state of every interleaving, until the log is cleared |
| `LogThreads.MutexAllowsClearInsideCall` | src/main/cpp/util/debug_log.cpp:109-112 | a concrete run after which the recursive mutex lets a thread clear the log inside its own call, so that its entry cannot be found |
| `LogThreads.SizeIsBounded` | src/main/cpp/util/debug_log.cpp:140-144 | the size never exceeds the largest capacity ever set |
| `PrettyDoc.BestIsALayout` | src/test/java/gnieh/pp/Renderer.scala:32-64 | the renderer returns one of the layouts the document denotes, for every width, column and work list |
| `PrettyDoc.FirstLineIsOptimal` | src/test/java/gnieh/pp/Renderer.scala:57-64 | if any choice of union branches makes the first line fit, the rendered first line fits |
| `PrettyDoc.EveryLineIsOptimal` | src/test/java/gnieh/pp/Renderer.scala:32-64 | the same for every later line, given the choices made on the lines before |
| `PrettyDoc.GreedyIsLongEnough` | src/test/java/gnieh/pp/Renderer.scala:32-64 | the renderer has made every choice that the line-by-line comparison refers to |
| `PrettyIndent.LineEndsArePrinted` | src/test/java/gnieh/pp/SimpleDoc.scala:64-74 | whatever is printed after the first line of a layout comes after a line end and exactly as many spaces as the line is indented; if nothing is printed there, neither are they |
| `PrettyIndent.DocumentsFollowEachOther` | src/test/java/gnieh/pp/Renderer.scala:32-55 | for all documents, the work list means laying them out one after the other, each from the column where the one before ends, with the choices left over |
| `PrettyIndent.NestIndents` | src/test/java/gnieh/pp/Renderer.scala:40-41 | in every layout, `nest` indents every line of a document without alignment by its amount, and nothing after it |
| `PrettyIndent.AlignIsNest` | src/test/java/gnieh/pp/Renderer.scala:50-51 | for all documents, `align` is `nest` by the distance from the base to the current column |
| `PrettyIndent.AlignIndents` | src/test/java/gnieh/pp/Renderer.scala:50-51 | in every layout, `align` indents every line of a document without further alignment to the column where it starts, and nothing after it |
| `PrettyIndent.LinesStartAtBase` | src/test/java/gnieh/pp/Renderer.scala:44-45 | without `nest` and `align` every line starts at the base indentation |
| `PrettyIndent.RenderedNest` | src/test/java/gnieh/pp/Renderer.scala:32-55 | what is rendered at any width for a nested document without alignment is a layout of the document, indented |
| `PrettyFlatten.FlattenRemovesLinesExactly` | src/test/java/gnieh/pp/Doc.scala:78-130 | `flatten` leaves no line iff the replacements it puts in contain none |
| `PrettyFlatten.FlattenIdempotentExactly` | src/test/java/gnieh/pp/Doc.scala:78-130 | `flatten` is idempotent iff the replacements contain neither lines nor unions |
| `PrettyFlatten.FlattenFixed` | src/test/java/gnieh/pp/Doc.scala:78-130 | the documents that `flatten` leaves unchanged are exactly those without lines and unions |
| `PrettyFlatten.LineFreeReplacementsAreNotEnough` | src/test/java/gnieh/pp/Doc.scala:111-113 | a grouped word as line replacement needs two passes of `flatten` |
| `PrettyFlatten.LayoutsHaveSameInk` | src/test/java/gnieh/pp/SimpleDoc.scala:39-74 | every layout of documents whose branches agree has the non-whitespace characters of the document, in order |
| `PrettyFlatten.WidthNeverChangesInk` | src/test/java/gnieh/pp/package.scala:109 | for documents whose unions come from `group` and whose lines are replaced by white space, all widths print the same non-whitespace characters |
| `PrettyFlatten.FlattenedIsLongest` | src/test/java/gnieh/pp/Doc.scala:82-89 | no layout of a group-built document has a longer first line than the flattened document |
| `PrettyFlatten.GroupPrintsFlatIfItFits` | src/test/java/gnieh/pp/package.scala:108-109 | a group at any column, before anything, prints exactly its flat text if that and what follows it up to the next line end fit in the rest of the line, and otherwise exactly as without the group |
| `PrettyFlatten.GroupAlonePrintsFlatIfItFits` | src/test/java/gnieh/pp/package.scala:108-109 | a group that is the whole document prints exactly its flat text if that is no longer than the width, and otherwise exactly as without the group |
| `PrettyTruncate.TruncateComposes` | src/test/java/gnieh/pp/Renderer.scala:125-159 | truncating twice, by lines, characters or words, is truncating once by the smaller limit |
| `PrettyTruncate.TruncateStaysWithin` | src/test/java/gnieh/pp/Renderer.scala:125-159 | a truncated document is a beginning of the original and its count is within the limit |
| `PrettyTruncate.TruncateIsLongest` | src/test/java/gnieh/pp/Renderer.scala:125-159 | what is left is the longest beginning of the document that the limit leaves whole |
| `PrettyTruncate.SomethingIsLeftExactly` | src/test/java/gnieh/pp/Renderer.scala:133-159 | for which limits anything is left at all of a document that begins with a text or a line end |
| `PrettyTruncate.NeedsIsNearCount` | src/test/java/gnieh/pp/Renderer.scala:142-159 | a document never needs less than it counts; in words at most one more, in characters at most its spaces and one more |
| `PrettyTruncate.WordsAreCounted` | src/test/java/gnieh/pp/Renderer.scala:154-155 | a text with a letter in it counts as a word, one of spaces does not |
| `PrettyTruncate.SolidCounts` | src/test/java/gnieh/pp/Renderer.scala:145 | every character but the space counts |
| `PrettyTruncate.TruncateKeepsExactly` | src/test/java/gnieh/pp/Renderer.scala:125-159 | by lines, characters or words, a document is left whole iff the limit is at least what it needs, the least limit given by recursion over its elements |
| `PrettyTruncate.CutsOnlyOverCountExactly` | src/test/java/gnieh/pp/Renderer.scala:98-104 | the documented promise, that a document whose count is within the limit is not cut, holds of a document iff it needs no more than it counts |
| `PrettyTruncate.LinesNeedTheirCount` | src/test/java/gnieh/pp/Renderer.scala:133-140 | by lines the promise holds of every document |
| `PrettyTruncate.SpacesAndLineEndsTakeRoom` | src/test/java/gnieh/pp/Renderer.scala:142-159 | by characters it fails for a letter behind a space, by words for a word before a line end |
| `PrettyTruncate.CompactPrintsFlatTextExactly` | src/test/java/gnieh/pp/Renderer.scala:74-96 | for every document, the compact renderer prints the text with all lines replaced, less what follows the first empty document, hence all of it iff no text follows one; with line-free replacements that text is the flat text |
| `PrettyTruncate.FlattenKeepsFullText` | src/test/java/gnieh/pp/Doc.scala:78-130 | the text with all lines replaced is kept by `flatten`, and is the flat text if the replacements contain no lines |
| `PrettyTruncate.CompactLosesTextAfterLinebreak` | src/test/java/gnieh/pp/Renderer.scala:85 | two words joined by a linebreak lose the second |
| `Scheduler.TasksRunExactlyOnce` | src/test/java/im/tox/tox4j/testing/autotest/AutoTest.scala:92-104 | over any rounds, with tasks and handlers adding tasks, every task ever added is waiting or has run, never both and never twice |
| `Scheduler.RunsFromFresh` | src/test/java/im/tox/tox4j/testing/autotest/AutoTest.scala:92-104 | started with an empty list, over any rounds, no task is lost, repeated or run out of order |
| `Scheduler.TasksRunInOrder` | src/test/java/im/tox/tox4j/testing/autotest/AutoTest.scala:100-103 | tasks run in order of rounds and, within a round, in the order they were added |
| `Scheduler.PerformTasksFate` | src/test/java/im/tox/tox4j/testing/autotest/AutoTest.scala:92-104 | one round runs a task whose delay is negative, and shortens any other delay by exactly the interval if that is at least 1 and by 1 otherwise |
| `Scheduler.TaskRunsWhenDue` | src/test/java/im/tox/tox4j/testing/autotest/AutoTest.scala:44-56 | a task runs in the first round by whose start the elapsed intervals exceed its delay, and until then waits with the rest of it |
| `Scheduler.ElapsedCountsIntervals` | src/test/java/im/tox/tox4j/testing/autotest/AutoTest.scala:100 | the time elapsed grows by exactly the interval of each round, or by 1 if that is more |
| `Scheduler.ElapsedIsSum` | src/test/java/im/tox/tox4j/testing/autotest/AutoTest.scala:44-48 | over rounds with intervals of at least 1 the time elapsed is the sum of the intervals |
| `Scheduler.AddTasksAdds` | src/test/java/im/tox/tox4j/testing/autotest/AutoTest.scala:50-56 | adding puts each task on the list with the delay it was given |
| `Scheduler.RunTasksAdd` | src/test/java/im/tox/tox4j/testing/autotest/AutoTest.scala:100-103 | the tasks that a running task adds are on the list after the round, with the delays given to them |
| `Scheduler.AddedTaskRunsWhenDue` | src/test/java/im/tox/tox4j/testing/autotest/AutoTest.scala:50-56 | a task that an event handler adds with delay d runs in the first round by whose start the elapsed intervals exceed d |
| `Scheduler.TaskRunsSoon` | src/test/java/im/tox/tox4j/testing/autotest/AutoTest.scala:92-104 | a task of delay d >= 0 runs within d + 2 rounds |
| `EventCallbacks.EventIsAnOrderedList` | src/main/java/im/tox/tox4j/impl/jni/internal/Event.kt:23-53 | after any run of add and remove the live entries are exactly the ordered list of registrations, ids and entries name each other, and the list is empty or ends in a live callback |
| `EventCallbacks.LiveIdsAreDistinct` | src/main/java/im/tox/tox4j/impl/jni/internal/Event.kt:23-44 | identifiers not yet reset have distinct indices, each naming its own callback |
| `EventCallbacks.ResetIdsStayReset` | src/main/java/im/tox/tox4j/impl/jni/internal/Event.kt:75-83 | once removed, an identifier stays invalid whatever happens next |
| `EventCallbacks.SecondRemoveIsHarmless` | src/main/java/im/tox/tox4j/impl/jni/internal/Event.kt:28-44 | removing the same identifier again changes nothing, also with adds and removes in between |
| `EventCallbacks.Multiplexer.constructor` | src/main/java/im/tox/tox4j/impl/jni/internal/Event.kt:12 | a new event has no callbacks |
| `EventCallbacks.Multiplexer.Add` | src/main/java/im/tox/tox4j/impl/jni/internal/Event.kt:23-26 | in place: does what the list specification's add does and returns a new identifier |
| `EventCallbacks.Multiplexer.Remove` | src/main/java/im/tox/tox4j/impl/jni/internal/Event.kt:37-44 | in place, for any identifier: one of this event does what the list specification's remove does; any other blanks what its index names, reports an index out of bounds, and leaves the event consistent iff the index names no live callback |
| `EventCallbacks.ForeignRemoveExactly` | src/main/java/im/tox/tox4j/impl/jni/internal/Event.kt:37-53 | blanking an index that no identifier of this event gives up keeps the event consistent iff no live callback is there |
| `EventCallbacks.Multiplexer.PruneCallbacks` | src/main/java/im/tox/tox4j/impl/jni/internal/Event.kt:46-53 | drops exactly the empty entries at the end |
| `EventCallbacks.Multiplexer.Invoke` | src/main/java/im/tox/tox4j/impl/jni/internal/Event.kt:58-60 | the actions performed are those of the live entries, as many, each at its place |
| `EventCallbacks.InvokeRunsTheLiveInOrder` | src/main/java/im/tox/tox4j/impl/jni/internal/Event.kt:58-60 | after any run of add and remove, invoking performs the action of every registration added and not removed since, and of no other, each once and in the order of registration |
| `EventCallbacks.RegistrationsAreTheLive` | src/main/java/im/tox/tox4j/impl/jni/internal/Event.kt:23-53 | the reference list is exactly the registrations added and not removed since, oldest first, each with the action it was added with |
| `Pcm.SamplesSurvive` | src/main/cpp/util/to_bytes.h:18-41 | packing and then reading any sequence of signed 16-bit samples gives the sequence back |
| `Pcm.BytesSurvive` | src/main/java/im/tox/tox4j/impl/jni/ToxAvEventDispatch.kt:143-148 | reading and then packing any buffer of even length gives the buffer back |
| `Pcm.PackedIsBigEndian` | src/main/cpp/util/to_bytes.h:18-25 | the two bytes of a sample are its two's complement, high byte first |
| `Pcm.UnpackedIsBigEndian` | src/main/java/im/tox/tox4j/impl/jni/ToxAvEventDispatch.kt:143-148 | a pair of bytes is read as a signed number, high byte first |
| `Pcm.PutSample` | src/main/cpp/util/to_bytes.h:18-25 | writes the high byte, then the low byte, advances by two and touches nothing else |
| `Pcm.ToBytes` | src/main/cpp/util/to_bytes.h:28-41 | fills a buffer of exactly twice the number of samples with the packed form |
| `Pcm.ToShortArray` | src/main/java/im/tox/tox4j/impl/jni/ToxAvEventDispatch.kt:143-148 | reads the whole buffer as big-endian shorts |
| `Video.PixelSurvives` | src/test/java/im/tox/tox4j/av/callbacks/video/VideoConversions.scala:8-66 | every colour comes back within 2 of its red and green and within 3 of its blue |
| `Video.UnpackTakesBytes` | src/test/java/im/tox/tox4j/av/callbacks/video/VideoConversions.scala:12-14 | red, green and blue are the third, second and lowest byte of a packed colour |
| `Video.LumaFollowsStandard` | src/test/java/im/tox/tox4j/av/callbacks/video/VideoConversions.scala:8 | luma is within 1 of section 2.5 of Recommendation ITU-R BT.601, for every colour |
| `Video.ChromaFollowsStandard` | src/test/java/im/tox/tox4j/av/callbacks/video/VideoConversions.scala:9-10 | both chromas are within 1 of that standard, for every colour |
| `Video.DecodingFollowsStandard` | src/test/java/im/tox/tox4j/av/callbacks/video/VideoConversions.scala:48-66 | red, green and blue decoded from any coded values are within 1 of that standard, clipped to 0 to 255 |
| `Video.YLoop` | src/test/java/im/tox/tox4j/av/callbacks/video/ArithmeticVideoGenerator.scala:29-41 | writes every luma sample, stays in range and leaves the rest of the plane alone |
| `Video.UvLoop` | src/test/java/im/tox/tox4j/av/callbacks/video/ArithmeticVideoGenerator.scala:43-56 | writes every chroma sample, taken at the odd pixel of its block, stays in range and leaves the rest of the planes alone |
| `Video.Yuv` | src/test/java/im/tox/tox4j/av/callbacks/video/ArithmeticVideoGenerator.scala:10-27 | the allocated planes are large enough and hold the samples of the frame |
| `Video.YuvToRgb` | src/test/java/im/tox/tox4j/av/callbacks/video/VideoConversions.scala:68-97 | for any planes, sizes and strides: succeeds iff for every column x and row k the positions k * ys + x, k / 2 * us + x / 2 and k / 2 * vs + x / 2 are in the planes, and then pixel k * w + x is decoded from exactly those three entries |
| `Video.PlanesSufficeExactly` | src/test/java/im/tox/tox4j/av/callbacks/video/ArithmeticVideoGenerator.scala:10-12 | the chroma planes the generator allocates are large enough for the converter iff both sizes are even, or the width is odd and the height even and at least 4, or both are odd and the height is at least the width plus 4 |
| `Video.FrameSurvives` | src/test/java/im/tox/tox4j/av/callbacks/video/VideoConversions.scala:68-97 | in a frame of any size, a pixel of a whole block that has the colour of the odd pixel of its block comes back within tolerance |
| `Video.OddPixelsSurvive` | src/test/java/im/tox/tox4j/av/callbacks/video/VideoConversions.scala:68-97 | in a frame of any size, every pixel at odd x and y comes back within tolerance |
| `Video.EvenFramesSurvive` | src/test/java/im/tox/tox4j/av/callbacks/video/VideoConversions.scala:68-97 | in an even-sized frame constant on blocks every pixel comes back within tolerance |
| `Video.FramesSurviveExactly` | src/test/java/im/tox/tox4j/av/callbacks/video/VideoConversions.scala:68-97 | all frames constant on blocks survive with every pixel iff the size is even or empty |
| `Video.RedEdgeIsLost` | src/test/java/im/tox/tox4j/av/callbacks/video/ArithmeticVideoGenerator.scala:43-56 | in any frame of odd width and a height of at least 4, black with a red last column, the last pixel of the first row loses its red |
| `Video.ThereAndBack` | src/test/java/im/tox/tox4j/av/callbacks/video/ArithmeticVideoGenerator.scala:22-56 | generating and converting back a frame of any size succeeds iff its planes suffice, and then every pixel of a whole block that agrees with the odd pixel of its block comes back within tolerance |

## Left out

- toxcore, toxav, protobuf and JNI are foreign code: what they compute is not part of this model.
- The 32-bit width of instance numbers: they are unbounded integers here, so a manager with 2^31 slots is not modelled.
- Fairness and livelock: a deadlock-free state has a thread that can step; which thread is scheduled is not modelled.
- An exception thrown by func or by a destructor while locks are held.
- Arguments, results and timestamps of log entries; an entry is its function's name.
- The plain reads and writes of `max_size` outside the log mutex are modelled as atomic steps.
- The error-code classification in `src/main/cpp/tox4j/ToxInstances.h` and the generated error, enum and constant tables: finite and settled by reading one branch.
- The field-by-field event dispatch; `src/main/java/im/tox/tox4j/impl/jni/ToxCoreEventDispatch.kt:192` passes the file number as the friend number, so field preservation does not hold there.
- `ColumnDoc`, `fill` and `width` of the pretty printer: a document built by a function of the column has no size bound.
- The concatenation operators, `hsep`, `vsep` and the other combinators: they only build documents out of the constructors covered here.
- `Event.invoke` with callbacks that add or remove callbacks.
- Tasks that edit the task list other than by adding tasks, and the sleeping and I/O of the main loop.
- Floating-point audio generation, image resizing and entropy estimates.
- Sockets, library loading, displays, benchmarks and the network tests; `doc/protocol.md` has no implementation here.

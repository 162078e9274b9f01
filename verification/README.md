# Three in-memory task schedulers, modelled and proved

The repository holds several schedulers that keep prioritised, timed tasks with dependencies in
memory. This project models three of them as Dafny classes that update their fields in place, gives
each a plain state machine as its specification, and proves what holds over all runs of it.

| files | scheduler | what is proved |
|---|---|---|
| `IndexedHeap`, `TwoHeapModel`, `TwoHeapInvariant`, `TwoHeapEffects`, `TwoHeapScheduler`, `TwoHeapRuns`, `TwoHeapGraph`, `TwoHeapDrain`, `TwoHeapReplay`, `TwoHeapLimits` | `qwen 3.8 27b`: a heap of due tasks and a heap of future ones, with incremental counters | the heaps partition the READY tasks; a claim is the best task of the naive scan; counters never over-count; claiming and completing ends with exactly the tasks completed that need nothing dead, in dependency order; exactly when cycles arise |
| `ContagionHeap`, `ContagionModel`, `ContagionEffects`, `ContagionSearch`, `ContagionScheduler`, `ContagionRuns`, `ContagionSafety`, `ContagionExact`, `ContagionHistory`, `ContagionReplay`, `ContagionLimits` | `agnes flash`: one heap of ids ordered by mutable records, failures that spread | failure propagation is exact; no run creates a cycle; exactly when a failure leaks or a wakeup is lost, never in runs that delete no listed task; running everything ends whatever fails; the heap is repaired after a key changed in place |
| `LazyModel`, `LazyInvariant`, `LazyEffects`, `LazyScheduler`, `LazyProgress`, `LazyReplay` | `ornith-moe`: stale heap entries dropped lazily, cascades over a worklist | stale entries never matter; cascades reach exactly what is downstream; no deadlock, and running everything ends |
| `Graphs`, `GraphSearch`, `HeapOrder`, `Tallies`, `Runs` | shared | walks and acyclicity, path search, three-colour audit, heap order, edge counting, one induction over runs |

Each scheduler is one class. Its `Model()` is the abstract state, its `Valid()` says how the derived
structures (heaps, reverse edges, counters) follow from the records. Every public operation asks for
`Valid()` and nothing else, keeps it, and is proved to be a `Step` of the state machine; the `Replay`
methods carry this over to whole sequences: whatever modelled operations are called on a new scheduler,
refused ones included, they form a `Run`, which is what the lemmas about runs quantify over. The
`Effects` modules say what each step does and answers a second time, field by field on the records; the
few notions they still name (victims, downstream, good dependencies) are spelled out there as chains of
records. The
contagion scheduler's heap can get out of order while everything else holds; there `InOrder()` is a
second predicate, each operation says what it makes of it, and selection is promised twice: some
executable task in any case, the best one when the heap is in order. Times are integers and `now` is a
parameter; a runner is an arbitrary success or failure. The operations that are not modelled are listed
at the end.

## What the proofs found

Where a comment of the source promises more than the code does, the code is modelled as it is, a
lemma shows a run that breaks the promise, and another says exactly when the promise is kept.

- Two heaps: `addTask` makes no cycle search because "a new task cannot create a transitive cycle"
  (`qwen 3.8 27b/src/TaskScheduler.ts:146-147`). It can, when a deleted id that is still listed comes
  back: `ReAddClosesCycle`. Runs stay acyclic exactly when every accepted add has no dependency that
  already leads to the new id: `AcyclicRunIff`. Delete-free runs always do.
- Two heaps: after a COMPLETED dependency is deleted a READY task can have an unsatisfied dependency,
  and `nextWakeTime` can name a time at which nothing can be claimed: `FalseAlarm`. That happens exactly
  when every READY task due by then lists a deleted id, `FalseAlarmIff`, and never in runs that delete
  no met dependency, `WakeAlwaysFinds`; `DeleteExactIff` says which deletes those are.
- Two heaps: the comment on `clear` says that the clock is reset
  (`qwen 3.8 27b/src/TaskScheduler.ts:758`); the code keeps it, and so does the model.
- Contagion: the class comment says that forward and reverse edges are kept in sync, and `deleteTask`
  calls dangling references harmless. Deleting a listed task drops its dependent list, and after a
  reset and a re-add a task can stay PENDING with every dependency COMPLETED, `LostWakeup`, or with a
  FAILED one, `LeakedFailure`. Over all runs, the reverse edges stay exact exactly when no listed task
  is deleted, `RunReverseIff`; wakeups are lost exactly when a task is completed that has forgotten a
  dependent, `RunWakesIff`; failures leak exactly when a task is about to be broken whose failure
  overlooks somebody, `RunContainsIff`. Who is forgotten can be told from the history alone: a dependent
  list names nobody wrongly and leaves out exactly those who listed the task when it was deleted and
  have listed it ever since, `MissingIff`.
- Contagion: an update refused for its dependencies has already written the new priority and
  executeTime. It is without effect exactly when it asked for the key the task had,
  `RefusedUpdateAtomicIff`. Otherwise the heap can be out of order and the scheduler reserves the wrong
  task, `RefusedUpdateMisleads`. The order survives exactly when the task is not queued or its new key
  fits its slot (`UpdateTask`), in particular when its rank stays the same, `SameRankKeepsOrder`; since the
  slots are private and decide, `LayoutDecides` and `BothLayouts`, no exact condition on the tasks alone
  exists. Without such an update every execution of a run takes the best task, `Replay`. An accepted
  update of the same task's key repairs the order.
- Contagion: the state diagram in the class comment fails only PENDING and READY tasks by propagation;
  the code fails RUNNING ones too, and so does the model.
- Lazy heap: `update_task` promises an error for a task in a terminal state, but lets CANCELLED through;
  a cancelled task given a new priority is queued and runs again: `CancelledRunsAgain`. The queue holds
  PENDING tasks only, throughout a run, exactly when the run contains no such update: `RunRevivesIff`.
  Everything else is proved for all runs, those with revived tasks included.
- Lazy heap: `done_task` with `deprecated=True` on a DONE task changes the record and its dependents and
  then raises; `DoneTask` does the same.

## Model

| member | source | states |
|---|---|---|
| `IndexedHeap.BinaryHeap.constructor` | qwen 3.8 27b/src/BinaryHeap.ts:33-35 | a new heap is empty and in order under its comparator |
| `IndexedHeap.BinaryHeap.Peek` | qwen 3.8 27b/src/BinaryHeap.ts:46-48 | returns an entry that nothing in the heap beats, or nothing just when the heap is empty |
| `IndexedHeap.BinaryHeap.Contains` | qwen 3.8 27b/src/BinaryHeap.ts:50-52 | true just when some entry has this id |
| `IndexedHeap.BinaryHeap.Push` | qwen 3.8 27b/src/BinaryHeap.ts:62-69 | adds exactly this entry and keeps order and index; refuses a duplicate id and changes nothing |
| `IndexedHeap.BinaryHeap.Pop` | qwen 3.8 27b/src/BinaryHeap.ts:72-87 | removes exactly one entry, one that nothing beats; refuses on the empty heap |
| `IndexedHeap.BinaryHeap.Remove` | qwen 3.8 27b/src/BinaryHeap.ts:93-115 | removes exactly the entry with this id, wherever it is, and keeps order and index |
| `IndexedHeap.FilledHole` | qwen 3.8 27b/src/BinaryHeap.ts:102-112 | the entry moved into a hole is too high or too low but never both, so a sift in one direction suffices |
| `IndexedHeap.BinaryHeap.Heapify` | qwen 3.8 27b/src/BinaryHeap.ts:121-132 | for any list of entries the heap afterwards is in order and holds exactly those, repetitions included; the position map is exact just when no id is repeated |
| `IndexedHeap.BinaryHeap.Clear` | qwen 3.8 27b/src/BinaryHeap.ts:139-142 | empties both structures |
| `IndexedHeap.BinaryHeap.Swap` | qwen 3.8 27b/src/BinaryHeap.ts:152-159 | exchanges two slots and keeps the position map exact |
| `IndexedHeap.BinaryHeap.SiftUp` | qwen 3.8 27b/src/BinaryHeap.ts:161-171 | restores heap order when one entry may beat its parent |
| `IndexedHeap.BinaryHeap.SiftDown` | qwen 3.8 27b/src/BinaryHeap.ts:173-191 | restores heap order from a slot on when the entry there may be beaten by its children |
| `IndexedHeap.PopAll` | qwen 3.8 27b/src/BinaryHeap.ts:72-87 | popping until empty yields the contents, each entry once, with no later entry beating an earlier one |
| `HeapOrder.RootIsBest` | qwen 3.8 27b/src/BinaryHeap.ts:4-6 | in a heap-ordered array nothing beats the root |
| `TwoHeapModel.Comparators` | qwen 3.8 27b/src/TaskScheduler.ts:30-38 | both comparators are strict weak orders |
| `TwoHeapModel.DepError` | qwen 3.8 27b/src/TaskScheduler.ts:796-831 | a dependency list draws no error just when every entry is well-formed, existing and not the task itself |
| `TwoHeapModel.Dedup` | qwen 3.8 27b/src/TaskScheduler.ts:807-829 | keeps each listed id, once |
| `TwoHeapInvariant.AddKeepsInv` | qwen 3.8 27b/src/TaskScheduler.ts:173-224 | adding, with re-blocking of tasks that still list the id, keeps counters between the live unmet and the unmet dependencies and READY exactly at zero |
| `TwoHeapInvariant.UpdateKeepsInv` | qwen 3.8 27b/src/TaskScheduler.ts:377-413 | so does an update |
| `TwoHeapInvariant.DeleteKeepsInv` | qwen 3.8 27b/src/TaskScheduler.ts:428-447 | so does a delete, although nobody's counter is touched |
| `TwoHeapInvariant.CompleteKeepsInv` | qwen 3.8 27b/src/TaskScheduler.ts:466-500 | so does a completion with its single decrement per PENDING dependent |
| `TwoHeapInvariant.LeaveKeepsInv` | qwen 3.8 27b/src/TaskScheduler.ts:506-536 | so do claiming, failing and cancelling |
| `TwoHeapInvariant.SearchKeepsInv` | qwen 3.8 27b/src/TaskScheduler.ts:919-947 | so does the search, which blocks dangling tasks again and leaves COMPLETED ones alone |
| `TwoHeapEffects.SearchFinds` | qwen 3.8 27b/src/TaskScheduler.ts:24-31 | on the fields: the answer is READY, due and has every dependency COMPLETED, and against each other such task it has the higher priority, or the same and the earlier executeTime, or both the same and the smaller sequence; no answer just when there is no such task |
| `TwoHeapEffects.ClaimWrites` | qwen 3.8 27b/src/TaskScheduler.ts:551-559 | on the fields: the clock is the later of itself and now; the claimed task is RUNNING; due READY tasks ahead of it that lack a dependency are PENDING with the number of those missing or unfinished; every other record is as it was |
| `TwoHeapEffects.WakeMeans` | qwen 3.8 27b/src/TaskScheduler.ts:599-608 | on the fields: the clock if a READY task is due, else the least executeTime of a READY task, else nothing |
| `TwoHeapEffects.FutureOrder` | qwen 3.8 27b/src/TaskScheduler.ts:33-38 | the future heap goes by executeTime, then higher priority, then sequence |
| `TwoHeapEffects.SpaceCodes` | qwen 3.8 27b/src/TaskScheduler.ts:784-812 | blank means white space or line ends only, by code point |
| `TwoHeapEffects.FirstBadDep` | qwen 3.8 27b/src/TaskScheduler.ts:796-831 | the first entry that is blank, the task itself or unknown decides the error |
| `TwoHeapEffects.DedupInOrder` | qwen 3.8 27b/src/TaskScheduler.ts:807-829 | repetitions dropped, the entries keep the order in which they are first listed |
| `TwoHeapEffects.ReachesOnRecords` | qwen 3.8 27b/src/TaskScheduler.ts:953-982 | a dependency leads to a task just when a chain of records does, each listing the next |
| `TwoHeapEffects.CyclicOnRecords` | qwen 3.8 27b/src/TaskScheduler.ts:693-729 | the graph is cyclic just when records list each other in a circle |
| `TwoHeapEffects.AddAnswer` | qwen 3.8 27b/src/TaskScheduler.ts:149-183 | accepted just when the id is not blank and new, every dependency is known, not blank and not the task, and there is room; each refusal comes with the first reason in the order of the code |
| `TwoHeapEffects.AddWrites` | qwen 3.8 27b/src/TaskScheduler.ts:173-228 | field by field: given priority or 0, given executeTime or the clock, the listed ids, READY just when all are COMPLETED, version 0, the next sequence; waiting tasks that list the id are PENDING with a fresh count; nothing else changes |
| `TwoHeapEffects.UpdateAnswer` | qwen 3.8 27b/src/TaskScheduler.ts:318-360 | unknown, then stale, then not waiting, then a bad dependency |
| `TwoHeapEffects.ClosesCycleMeans` | qwen 3.8 27b/src/TaskScheduler.ts:361-375 | refused for a cycle just when a requested id that the task did not list leads back to it over records |
| `TwoHeapEffects.UpdateWrites` | qwen 3.8 27b/src/TaskScheduler.ts:377-415 | field by field: what was given is written and what was not stays; version one up, same sequence; a new list decides status and count; nothing else changes |
| `TwoHeapEffects.DeleteWrites` | qwen 3.8 27b/src/TaskScheduler.ts:428-447 | just this record goes |
| `TwoHeapEffects.CompleteWrites` | qwen 3.8 27b/src/TaskScheduler.ts:466-500 | field by field: COMPLETED; each PENDING task that lists it has one unmet dependency fewer and is READY at none; nothing else changes; with the answer |
| `TwoHeapEffects.FailWrites` | qwen 3.8 27b/src/TaskScheduler.ts:506-520 | FAILED unless COMPLETED or CANCELLED, and nobody else is touched; with the answer |
| `TwoHeapEffects.CancelWrites` | qwen 3.8 27b/src/TaskScheduler.ts:526-536 | CANCELLED unless it is over, and nobody else is touched; with the answer |
| `TwoHeapEffects.SettleAnswer` | qwen 3.8 27b/src/TaskScheduler.ts:578-585 | the answer to the end of an executor, by the status its task has by then |
| `TwoHeapEffects.ClearWrites` | qwen 3.8 27b/src/TaskScheduler.ts:759-773 | no records, sequence 0, the same clock |
| `TwoHeapScheduler.TaskScheduler.constructor` | qwen 3.8 27b/src/TaskScheduler.ts:111-129 | an empty scheduler is valid, with the given clock and capacity |
| `TwoHeapScheduler.TaskScheduler.AddTask` | qwen 3.8 27b/src/TaskScheduler.ts:149-228 | is the Add step, keeps the partition, the inverse edges and the tallies, and answers with the exact error otherwise |
| `TwoHeapScheduler.TaskScheduler.ReblockDependents` | qwen 3.8 27b/src/TaskScheduler.ts:209-224 | re-adding an id sends exactly the waiting tasks that list it back to PENDING with a fresh count and out of the heaps |
| `TwoHeapScheduler.TaskScheduler.UpdateTask` | qwen 3.8 27b/src/TaskScheduler.ts:318-415 | is the Update step; an accepted update writes each field given, keeps the others, raises the version by one, and with a new list is READY just when all of it is COMPLETED; no other record changes; refused for a cycle just when a new dependency leads back, with a closed walk of the requested graph starting at the task; a refused update changes nothing |
| `TwoHeapScheduler.TaskScheduler.FindClosingEdge` | qwen 3.8 27b/src/TaskScheduler.ts:363-375 | finds a new dependency that leads back to the task just when there is one, with the path |
| `TwoHeapScheduler.TaskScheduler.DeleteTask` | qwen 3.8 27b/src/TaskScheduler.ts:428-447 | removes just this record; the reverse edges stay the exact inverse of the surviving forward edges, dangling ones included, and the edge count is the sum of their sizes |
| `TwoHeapScheduler.TaskScheduler.CompleteTask` | qwen 3.8 27b/src/TaskScheduler.ts:466-500 | is the Complete step, idempotent on COMPLETED and refused on FAILED and CANCELLED |
| `TwoHeapScheduler.TaskScheduler.UnblockDependents` | qwen 3.8 27b/src/TaskScheduler.ts:485-498 | exactly the PENDING dependents lose one unmet dependency and are queued when none is left |
| `TwoHeapScheduler.TaskScheduler.FailTask` | qwen 3.8 27b/src/TaskScheduler.ts:506-520 | is the Fail step with the exact answer; dependents stay blocked |
| `TwoHeapScheduler.TaskScheduler.CancelTask` | qwen 3.8 27b/src/TaskScheduler.ts:526-536 | is the Cancel step, without effect on terminal tasks |
| `TwoHeapScheduler.TaskScheduler.ClaimNextExecutable` | qwen 3.8 27b/src/TaskScheduler.ts:551-559 | empty just when no task is READY, due at the later of clock and now, and satisfied; else claims the one that has, against every other such task, the higher priority, then the earlier executeTime, then the smaller sequence, blocking again only dangling tasks ranked before it |
| `TwoHeapScheduler.TaskScheduler.PeekNextExecutable` | qwen 3.8 27b/src/TaskScheduler.ts:566-568 | the same answer, left queued |
| `TwoHeapScheduler.TaskScheduler.ExecuteNextTask` | qwen 3.8 27b/src/TaskScheduler.ts:575-586 | a claim, any operations made while the executor is pending, and the Complete or Fail step that its end amounts to, with the error that finally surfaces |
| `TwoHeapScheduler.TaskScheduler.SettleExecution` | qwen 3.8 27b/src/TaskScheduler.ts:578-585 | when an executor ends, in whatever state the calls made meanwhile have left: the Complete or the Fail step, with the error that finally surfaces |
| `TwoHeapScheduler.TaskScheduler.AwaitExecutor` | qwen 3.8 27b/src/TaskScheduler.ts:578-585 | any operations made while the executor is pending, then its end, as one path of steps |
| `TwoHeapReplay.Replay` | qwen 3.8 27b/src/TaskScheduler.ts:111-947 | whatever modelled operations are called on a new scheduler, they are a run |
| `TwoHeapScheduler.TaskScheduler.FindNext` | qwen 3.8 27b/src/TaskScheduler.ts:919-947 | terminates with the best executable task; promotes first, never meets a stale or undue entry |
| `TwoHeapScheduler.TaskScheduler.WalkDue` | qwen 3.8 27b/src/TaskScheduler.ts:922-946 | the walk down the due heap re-blocks exactly the dangling tasks ranked before the answer |
| `TwoHeapScheduler.TaskScheduler.PromoteDue` | qwen 3.8 27b/src/TaskScheduler.ts:899-912 | terminates with every READY task in the heap its executeTime calls for; no entry popped is stale |
| `TwoHeapScheduler.TaskScheduler.AdvanceClock` | qwen 3.8 27b/src/TaskScheduler.ts:881-891 | the clock never goes back, reaches any later now, and moves only to now |
| `TwoHeapScheduler.TaskScheduler.HeapInsert` | qwen 3.8 27b/src/TaskScheduler.ts:851-857 | restores the partition for a READY task that was in neither heap, and never meets a duplicate |
| `TwoHeapScheduler.TaskScheduler.HeapRemove` | qwen 3.8 27b/src/TaskScheduler.ts:859-865 | takes just this task out of whichever heap holds it |
| `TwoHeapScheduler.TaskScheduler.SetStatus` | qwen 3.8 27b/src/TaskScheduler.ts:867-873 | keeps byStatus the exact count of each status |
| `TwoHeapScheduler.TaskScheduler.CountUnmet` | qwen 3.8 27b/src/TaskScheduler.ts:833-840 | the number of distinct dependencies missing or not COMPLETED |
| `TwoHeapScheduler.TaskScheduler.DependenciesSatisfied` | qwen 3.8 27b/src/TaskScheduler.ts:843-849 | true just when every dependency exists and is COMPLETED |
| `TwoHeapScheduler.TaskScheduler.ValidateDependencies` | qwen 3.8 27b/src/TaskScheduler.ts:796-831 | the deduplicated list, or the error of the first bad entry |
| `TwoHeapScheduler.TaskScheduler.ReconcileBlocked` | qwen 3.8 27b/src/TaskScheduler.ts:876-879 | a fresh count and PENDING, for this task alone |
| `TwoHeapScheduler.TaskScheduler.RecountEdges` | qwen 3.8 27b/src/TaskScheduler.ts:448-453 | the sum of the sizes of all dependency sets |
| `TwoHeapScheduler.TaskScheduler.NextWakeTime` | qwen 3.8 27b/src/TaskScheduler.ts:599-608 | the clock if some READY task is due, else the least executeTime of a READY task, else nothing |
| `TwoHeapScheduler.TaskScheduler.GetExecutableTasks` | qwen 3.8 27b/src/TaskScheduler.ts:639-651 | exactly the executable tasks |
| `TwoHeapScheduler.TaskScheduler.Clear` | qwen 3.8 27b/src/TaskScheduler.ts:759-773 | wipes the records and every derived structure; the clock stays |
| `TwoHeapScheduler.TaskScheduler.AuditCycles` | qwen 3.8 27b/src/TaskScheduler.ts:693-729 | nothing just when the dependency graph is acyclic, else a closed walk in it |
| `TwoHeapScheduler.TaskScheduler.WouldCreateCycle` | qwen 3.8 27b/src/TaskScheduler.ts:737-739 | true just when the dependency already leads to the task |
| `GraphSearch.DepPath` | qwen 3.8 27b/src/TaskScheduler.ts:953-982 | finds a path just when there is one, and returns a real one that meets the target only at its end |
| `GraphSearch.FindCycle` | qwen 3.8 27b/src/TaskScheduler.ts:693-729 | the three-colour search is sound and complete, with a closed walk as witness |
| `TwoHeapRuns.EveryRunKeepsInv` | qwen 3.8 27b/src/TaskScheduler.ts:64-70 | in every state of every run the counters, lists and sequence numbers are in order |
| `TwoHeapRuns.PendingMeansBlocked` | qwen 3.8 27b/src/TaskScheduler.ts:482-498 | no lost wakeup: a PENDING task has a dependency missing or not COMPLETED |
| `TwoHeapRuns.ReadyMeansNothingPending` | qwen 3.8 27b/src/TaskScheduler.ts:189-224 | a READY task has no existing dependency that is not COMPLETED |
| `TwoHeapRuns.BestIsUnique` | qwen 3.8 27b/src/TaskScheduler.ts:30-31 | a search has only one possible answer |
| `TwoHeapRuns.DeleteExactIff` | qwen 3.8 27b/src/TaskScheduler.ts:428-447 | a delete keeps every counter equal to its recount just when no waiting task lists the deleted COMPLETED task |
| `TwoHeapRuns.EveryRunKeepsExact` | qwen 3.8 27b/src/TaskScheduler.ts:833-840 | runs without such deletes keep every counter equal to its recount |
| `TwoHeapRuns.DeleteFreeRunsHaveNoDangling` | qwen 3.8 27b/src/TaskScheduler.ts:821-826 | without deletes every listed dependency exists |
| `TwoHeapRuns.ReadyIsSatisfied` | qwen 3.8 27b/src/TaskScheduler.ts:937-943 | without dangling dependencies READY means satisfied, so the search re-blocks nothing |
| `TwoHeapRuns.ReadyUnlessDeleted` | qwen 3.8 27b/src/TaskScheduler.ts:937-943 | in reachable states a READY task is unsatisfied just when it lists a deleted id |
| `TwoHeapRuns.NothingBeforeWake` | qwen 3.8 27b/src/TaskScheduler.ts:599-608 | with nothing due, every claim before the wake time is empty |
| `TwoHeapRuns.FalseAlarmIff` | qwen 3.8 27b/src/TaskScheduler.ts:599-608 | in every run a claim at the wake time is empty just when every READY task due by then lists an id that has been deleted |
| `TwoHeapRuns.WakeAlwaysFinds` | qwen 3.8 27b/src/TaskScheduler.ts:588-608 | in runs that delete no met dependency of a waiting task a claim at the wake time always succeeds |
| `TwoHeapRuns.DeleteFreeWakeFinds` | qwen 3.8 27b/src/TaskScheduler.ts:588-608 | so it does in delete-free runs |
| `TwoHeapGraph.RefusedIffCyclic` | qwen 3.8 27b/src/TaskScheduler.ts:361-375 | from an acyclic state the check on new edges alone refuses a list just when the requested graph has a cycle |
| `TwoHeapGraph.UpdateStaysAcyclic` | qwen 3.8 27b/src/TaskScheduler.ts:363-400 | accepted updates keep the graph acyclic |
| `TwoHeapGraph.AddAcyclicIff` | qwen 3.8 27b/src/TaskScheduler.ts:139-200 | an accepted add keeps the graph acyclic just when none of its dependencies leads to the new id |
| `TwoHeapGraph.UnlistedIsSafe` | qwen 3.8 27b/src/TaskScheduler.ts:146-147 | adding an id that no surviving task lists is always safe |
| `TwoHeapGraph.AcyclicRunIff` | qwen 3.8 27b/src/TaskScheduler.ts:146-147 | a run is acyclic throughout just when every add it accepts is safe |
| `TwoHeapGraph.DeleteFreeRunsStayAcyclic` | qwen 3.8 27b/src/TaskScheduler.ts:146-147 | delete-free runs are acyclic throughout |
| `TwoHeapLimits.ReAddClosesCycle` | qwen 3.8 27b/src/TaskScheduler.ts:146-147 | a run of four operations from the empty state that closes a cycle without an update |
| `TwoHeapLimits.FalseAlarm` | qwen 3.8 27b/src/TaskScheduler.ts:599-608 | a run of four operations after which the wake time is 5 and a claim at 5 is empty |
| `TwoHeapDrain.Progress` | qwen 3.8 27b/src/TaskScheduler.ts:919-947 | in any acyclic state with nothing running and everything due, when nothing can be claimed every waiting task needs, over unmet dependencies, a deleted, FAILED or CANCELLED id |
| `TwoHeapDrain.DeleteFreeRunsAreDrainable` | qwen 3.8 27b/src/TaskScheduler.ts:64-70 | every delete-free run that ends with nothing running, failed or cancelled ends in a state in which nothing is stuck |
| `TwoHeapDrain.DrainOne` | qwen 3.8 27b/src/TaskScheduler.ts:466-500 | one claim and its completion complete exactly one task, which was satisfied, and change no other task except that waiting ones become READY or PENDING |
| `TwoHeapDrain.StuckStays` | qwen 3.8 27b/src/TaskScheduler.ts:551-586 | a task that needs something dead needs it after any claim and completion |
| `TwoHeapDrain.Drain` | qwen 3.8 27b/src/TaskScheduler.ts:551-586 | from any acyclic state with nothing running and everything due, the claim and complete loop ends; exactly the waiting tasks that need nothing dead are completed, each claimed once and after its dependencies; no other task changes for good; when nothing is dangling, failed or cancelled that is every unfinished task |
| `ContagionHeap.BinaryHeap.Push` | agnes flash/src/binary-heap.ts:49-60 | contents and index exact in any order; an insertion, or the re-seating of an item whose key changed arbitrarily in place, leaves full heap order when nothing else was out of order |
| `ContagionHeap.BinaryHeap.Pop` | agnes flash/src/binary-heap.ts:63-75 | removes exactly the root; with the heap in order nothing beats it and order stays |
| `ContagionHeap.BinaryHeap.Remove` | agnes flash/src/binary-heap.ts:81-96 | removes exactly this item in any order, and restores full heap order when only its own key was out of place |
| `ContagionHeap.BinaryHeap.Peek` | agnes flash/src/binary-heap.ts:36-38 | the root; with the heap in order nothing beats it |
| `ContagionHeap.BinaryHeap.Contains` | agnes flash/src/binary-heap.ts:41-43 | membership |
| `ContagionHeap.BinaryHeap.Heapify` | agnes flash/src/binary-heap.ts:113-122 | for any list of entries the heap afterwards is in order and holds exactly those, repetitions included; the index is exact just when none is repeated |
| `ContagionHeap.BinaryHeap.SiftUp` | agnes flash/src/binary-heap.ts:125-138 | after an arbitrary key change at a slot, leaves an entry that can only sink from the slot returned |
| `ContagionHeap.BinaryHeap.SiftDown` | agnes flash/src/binary-heap.ts:141-155 | restores heap order when one entry may be beaten by its children |
| `ContagionHeap.BinaryHeap.Swap` | agnes flash/src/binary-heap.ts:158-166 | exchanges two slots and keeps the index exact |
| `ContagionEffects.IdOrder` | agnes flash/src/scheduler.ts:633-643 | an id comes before another just when it is a proper prefix of it or has the smaller character where they first differ |
| `ContagionEffects.ChosenIsFirst` | agnes flash/src/scheduler.ts:531-575 | on the fields: the answer is READY, due and satisfied, and against each other such task it has the higher priority, then the earlier executeTime, then the earlier createdAt, then the smaller id; no answer just when there is no such task |
| `ContagionEffects.PicksSomeFree` | agnes flash/src/scheduler.ts:544-556 | on the fields, in any heap order: some READY, due and satisfied task, or nothing just when there is none |
| `ContagionEffects.VictimMeans` | agnes flash/src/scheduler.ts:778-828 | a failure reaches a task just when it is live and a chain of dependent lists leads there over recorded tasks that are not COMPLETED |
| `ContagionEffects.ReconcileWrites` | agnes flash/src/scheduler.ts:705-741 | field by field: FAILED with its victims if a dependency is FAILED or CANCELLED; PENDING to READY if all are COMPLETED; READY to PENDING if not; else unchanged |
| `ContagionEffects.CyclicOnRecords` | agnes flash/src/scheduler.ts:929-968 | the graph is cyclic just when records list each other in a circle |
| `ContagionEffects.GoodDepMeans` | agnes flash/src/scheduler.ts:837-921 | a dependency is let through just when it is not empty, not the task, known or a permitted forward reference, and no chain of records leads from it back to the task |
| `ContagionEffects.BlameMeans` | agnes flash/src/scheduler.ts:894-921 | the error is that of the first entry not let through; a cycle comes as a circle of records closed by the new edge |
| `ContagionEffects.AddGuardAnswer` | agnes flash/src/scheduler.ts:260-268 | an empty id, then a duplicate, then a full scheduler |
| `ContagionEffects.UpdateGuardAnswer` | agnes flash/src/scheduler.ts:335-360 | unknown, then over, then new dependencies for a RUNNING task |
| `ContagionEffects.AddWrites` | agnes flash/src/scheduler.ts:260-333 | field by field: given priority or 0, given executeTime or now, createdAt now, the listed ids, the status they call for; listed under each of them; a failure spreads to those who listed it already; nothing else changes |
| `ContagionEffects.ChangeWrites` | agnes flash/src/scheduler.ts:361-411 | field by field: what was given is written, what was not stays, and the status is what the dependencies then call for; nothing else changes but victims |
| `ContagionEffects.ChangeRelinks` | agnes flash/src/scheduler.ts:376-392 | exactly the lists of dependencies gained and given up change |
| `ContagionEffects.RefusedChangeWrites` | agnes flash/src/scheduler.ts:361-383 | a refused update writes just the key, and nothing if the guard refused it |
| `ContagionEffects.DeleteWrites` | agnes flash/src/scheduler.ts:413-437 | live victims are FAILED, the record goes, its own list goes and it leaves the lists of its dependencies |
| `ContagionEffects.CompleteWrites` | agnes flash/src/scheduler.ts:439-465 | COMPLETED; the PENDING tasks on its list with every other dependency COMPLETED are READY; nothing else changes |
| `ContagionEffects.BreakWrites` | agnes flash/src/scheduler.ts:467-507 | FAILED or CANCELLED as asked, victims FAILED either way; nothing else changes |
| `ContagionEffects.ResetWrites` | agnes flash/src/scheduler.ts:509-529 | a task that was over is FAILED, READY or PENDING as its dependencies call for |
| `ContagionEffects.ExecuteWrites` | agnes flash/src/scheduler.ts:576-627 | reserving writes RUNNING only; a runner that succeeds comes to completing the task, one that fails to failing it |
| `ContagionScheduler.OrderIsStrict` | agnes flash/src/scheduler.ts:633-643 | compareIds is a strict weak order on ids with records |
| `ContagionScheduler.BeforeTotal` | agnes flash/src/scheduler.ts:633-643 | two different ids with records are never level |
| `ContagionScheduler.KeyChange` | agnes flash/src/scheduler.ts:361-374 | writing one record's key disturbs the heap order at that id only |
| `ContagionScheduler.TaskScheduler.constructor` | agnes flash/src/scheduler.ts:110-129 | an empty scheduler is valid |
| `ContagionScheduler.TaskScheduler.AddTask` | agnes flash/src/scheduler.ts:260-333 | is the Add step, forward references included, and keeps heap order; refused with the exact error and, for a cycle, a closed walk through the new edge |
| `ContagionScheduler.TaskScheduler.UpdateTask` | agnes flash/src/scheduler.ts:335-411 | is the Change step; a heap in order stays so just when the update was accepted, the task is not queued or the written key fits its slot; an accepted key repairs an order that only this task disturbs |
| `ContagionScheduler.TaskScheduler.DeleteTask` | agnes flash/src/scheduler.ts:413-437 | fails exactly the victims first, then drops the record, its outgoing edges and its dependent list; keeps heap order |
| `ContagionScheduler.TaskScheduler.CompleteTask` | agnes flash/src/scheduler.ts:439-465 | is the Complete step with the exact answer |
| `ContagionScheduler.TaskScheduler.FailTask` | agnes flash/src/scheduler.ts:467-475 | is the Fail step with the exact answer |
| `ContagionScheduler.TaskScheduler.CancelTask` | agnes flash/src/scheduler.ts:477-494 | is the Cancel step with the exact answer |
| `ContagionScheduler.TaskScheduler.Break` | agnes flash/src/scheduler.ts:496-507 | leaves the heap, gets its broken status, and the failure spreads |
| `ContagionScheduler.TaskScheduler.ResetTask` | agnes flash/src/scheduler.ts:509-529 | is the Reset step: a terminal task becomes live again as its dependencies allow |
| `ContagionScheduler.TaskScheduler.ExecuteNextTask` | agnes flash/src/scheduler.ts:531-627 | reserves some executable task, or none just when there is none, whatever the heap order; with the heap in order the one with, against every other, the higher priority, then the earlier executeTime, then the earlier createdAt, then the smaller id; an executable root at once; every other READY task is back in the heap |
| `ContagionScheduler.TaskScheduler.PopExecutable` | agnes flash/src/scheduler.ts:544-556 | the pop loop finds an executable task, the best one if the heap is in order, and sets aside every READY task it passes |
| `ContagionScheduler.TaskScheduler.Restore` | agnes flash/src/scheduler.ts:558-566 | nothing set aside is lost, and order is kept |
| `ContagionScheduler.TaskScheduler.GetExecutableTasks` | agnes flash/src/scheduler.ts:189-198 | exactly the executable tasks |
| `ContagionScheduler.TaskScheduler.PropagateFailure` | agnes flash/src/scheduler.ts:778-828 | fails exactly the live tasks reachable over reverse edges through existing tasks that are not COMPLETED; changes no other; terminates on any graph |
| `ContagionScheduler.TaskScheduler.VisitDependent` | agnes flash/src/scheduler.ts:794-809 | one queued dependent: marked if live, expanded unless missing or COMPLETED |
| `ContagionScheduler.TaskScheduler.ReconcileStatus` | agnes flash/src/scheduler.ts:705-741 | the status that the dependencies call for, with the heap in line |
| `ContagionScheduler.TaskScheduler.UnblockDependents` | agnes flash/src/scheduler.ts:746-766 | promotes exactly the listed PENDING dependents whose dependencies are all COMPLETED |
| `ContagionScheduler.TaskScheduler.DepsSatisfied` | agnes flash/src/scheduler.ts:671-677 | true just when every dependency exists and is COMPLETED |
| `ContagionScheduler.TaskScheduler.FindFailedDep` | agnes flash/src/scheduler.ts:690-698 | finds a FAILED or CANCELLED dependency just when there is one |
| `ContagionScheduler.TaskScheduler.AddDependents` | agnes flash/src/scheduler.ts:646-656 | registers exactly these reverse edges |
| `ContagionScheduler.TaskScheduler.RemoveDependents` | agnes flash/src/scheduler.ts:659-666 | removes exactly these reverse edges and drops lists that become empty |
| `ContagionScheduler.TaskScheduler.ValidateDeps` | agnes flash/src/scheduler.ts:894-921 | accepts a list just when no entry is malformed, unknown in strict mode or leads back to the task; else answers the first bad entry |
| `ContagionScheduler.TaskScheduler.HasCycle` | agnes flash/src/scheduler.ts:204-210 | nothing just when the dependency graph is acyclic, else a closed walk in it |
| `ContagionScheduler.TaskScheduler.Clear` | agnes flash/src/scheduler.ts:1085-1088 | empties records, reverse edges and heap |
| `ContagionSearch.WouldCreateCycle` | agnes flash/src/scheduler.ts:837-856 | true just when the dependency already leads to the task |
| `ContagionSearch.WitnessPath` | agnes flash/src/scheduler.ts:859-889 | a closed walk through the new edge whenever that edge closes one |
| `ContagionSearch.FindCycleByParents` | agnes flash/src/scheduler.ts:929-968 | the audit with parent pointers is sound and complete |
| `ContagionSearch.ExtractCycle` | agnes flash/src/scheduler.ts:972-982 | the parent pointers reproduce the stretch of the search stack that forms the cycle |
| `ContagionRuns.ValidationExact` | agnes flash/src/scheduler.ts:376-392 | checking a list against the graph before the update accepts it just when the updated graph is acyclic |
| `ContagionRuns.EveryRunIsAcyclic` | agnes flash/src/scheduler.ts:894-921 | no run makes the graph cyclic: forward references, refused updates, deletes, re-adds and resets included |
| `ContagionSafety.PropagationContains` | agnes flash/src/scheduler.ts:778-828 | when one broken task is the only leak, propagation leaves no live task with a FAILED or CANCELLED dependency |
| `ContagionSafety.ReconcileIsSafe` | agnes flash/src/scheduler.ts:705-741 | reconciling the one task out of line restores containment and wakefulness |
| `ContagionSafety.CompleteIsSafe` | agnes flash/src/scheduler.ts:439-465 | a completion loses no wakeup while the reverse edges are exact |
| `ContagionSafety.DeleteReverseIff` | agnes flash/src/scheduler.ts:413-437 | a delete keeps the reverse edges exact just when no other task lists the deleted one |
| `ContagionSafety.CarefulRunsAreSafe` | agnes flash/src/scheduler.ts:298-332 | over runs that delete no listed task, delete-free runs among them, no live task has a FAILED or CANCELLED dependency and every PENDING one is really blocked |
| `ContagionSafety.Progress` | agnes flash/src/scheduler.ts:531-575 | failures never hold up the rest: in a safe acyclic state with nothing running, everything due and no dependency missing, a live task means an executable one |
| `ContagionExact.StepReverseIff` | agnes flash/src/scheduler.ts:646-666 | a step keeps the reverse edges exact just when it deletes no task that another one lists |
| `ContagionExact.RunReverseIff` | agnes flash/src/scheduler.ts:413-437 | a run keeps them exact throughout just when it never does |
| `ContagionExact.CompleteWakesIff` | agnes flash/src/scheduler.ts:746-766 | a completion loses a wakeup just when a task it would free is missing from its dependent list |
| `ContagionExact.StepWakesIff` | agnes flash/src/scheduler.ts:705-766 | with reverse edges in any state, a step loses a wakeup just when it completes such a task; no other step does |
| `ContagionExact.RunWakesIff` | agnes flash/src/scheduler.ts:705-766 | a run loses no wakeup just when no step of it completes such a task |
| `ContagionExact.BreakContainsIff` | agnes flash/src/scheduler.ts:778-828 | failing or cancelling a task leaks just when, before it spreads, a live task lists it or a victim, is missing from that dependent list and is not reached another way |
| `ContagionExact.StepContainsIff` | agnes flash/src/scheduler.ts:778-828 | for every operation: the step leaks a failure just when the record it is going to break, as edited but before the failure spreads, overlooks somebody; a completion, a refused call and a clear never do |
| `ContagionExact.RunContainsIff` | agnes flash/src/scheduler.ts:705-828 | a run contains every failure throughout just when no step of it does that |
| `ContagionHistory.StepMoves` | agnes flash/src/scheduler.ts:646-666 | a reverse edge goes missing just when its dependency is deleted, stays missing while it is listed, and is never there wrongly |
| `ContagionHistory.MissingIff` | agnes flash/src/scheduler.ts:413-437 | in every run a dependent list leaves out k just when the dependency was deleted while k listed it and k has listed it ever since |
| `ContagionHistory.EveryRunIsSound` | agnes flash/src/scheduler.ts:646-666 | in every run whoever is on a dependent list exists and lists the task |
| `ContagionHistory.ForgottenIff` | agnes flash/src/scheduler.ts:746-766 | whom a completion forgets, in terms of the history and the records alone |
| `ContagionReplay.Replay` | agnes flash/src/scheduler.ts:260-627 | whatever operations are called on a new scheduler, they are a run; until a refused update writes a new key of a queued task every execution in it takes the best task |
| `ContagionReplay.LiveWaitsForMissing` | agnes flash/src/scheduler.ts:531-575 | in a safe acyclic state with nothing running and everything due, when nothing is executable every live task needs, over live ones, an id without a record |
| `ContagionReplay.RunAll` | agnes flash/src/scheduler.ts:531-627 | whatever the outcomes, running tasks until none is left ends after at most as many executions as there were live tasks; what is live then waits for a missing id, so without missing ids every task is terminal |
| `ContagionLimits.LostWakeup` | agnes flash/src/scheduler.ts:434-436 | a run of six operations from the empty scheduler after which a task is PENDING with every dependency COMPLETED |
| `ContagionLimits.LeakedFailure` | agnes flash/src/scheduler.ts:434-436 | the same run with a failure in the end leaves a task PENDING with a FAILED dependency |
| `ContagionLimits.RefusedUpdateMisleads` | agnes flash/src/scheduler.ts:361-383 | a run of four operations of the scheduler itself in which a refused update makes it reserve a task that is not the best |
| `ContagionLimits.RefusedUpdateAtomicIff` | agnes flash/src/scheduler.ts:361-383 | a refused update leaves no trace just when the guard refused it or it asked for the key the task had |
| `ContagionLimits.SameRankKeepsOrder` | agnes flash/src/scheduler.ts:361-383 | whatever the layout, a refused update that keeps the rank of the task among the queued ones keeps the heap in order |
| `ContagionLimits.LayoutDecides` | agnes flash/src/scheduler.ts:361-383 | the same refused update of the same tasks keeps one layout of the queue in order and disturbs another, so no condition on the tasks alone is exact |
| `ContagionLimits.BothLayouts` | agnes flash/src/scheduler.ts:361-383 | both layouts are reached: the same four tasks added in two orders, then the same refused update, and one heap is in order and the other is not |
| `LazyModel.OneValidEntry` | ornith-moe/src/scheduler/scheduler.py:167-179 | a queued task has exactly one valid heap entry, under its current key; other tasks have none |
| `LazyInvariant.AddKeepsInv` | ornith-moe/src/scheduler/scheduler.py:198-268 | adding keeps the invariant, whatever state the dependencies are in |
| `LazyInvariant.SweepKeepsInv` | ornith-moe/src/scheduler/scheduler.py:420-460 | giving everything downstream the origin's state leaves no task waiting on a gone one |
| `LazyInvariant.ReleaseKeepsInv` | ornith-moe/src/scheduler/scheduler.py:420-460 | releasing the watchers of a DONE task leaves nobody waiting on it and queues who is free |
| `LazyInvariant.ReleasesExactly` | ornith-moe/src/scheduler/scheduler.py:439-460 | each task that waited on the finished one loses just that edge; nothing else changes |
| `LazyInvariant.UpdateKeepsInv` | ornith-moe/src/scheduler/scheduler.py:484-523 | an update keeps the invariant, of a CANCELLED task too |
| `LazyInvariant.NextIsLeast` | ornith-moe/src/scheduler/scheduler.py:311-330 | the least valid entry belongs to the queued task least by due, priority and mark, whatever stale entries there are |
| `LazyInvariant.NextKeepsInv` | ornith-moe/src/scheduler/scheduler.py:311-330 | taking it keeps the invariant |
| `LazyInvariant.EveryRunKeepsInv` | ornith-moe/src/scheduler/scheduler.py:198-523 | every state of every run satisfies the invariant |
| `LazyInvariant.QueuedIsPending` | ornith-moe/src/scheduler/scheduler.py:167-179 | unless a CANCELLED task has been revived, the queued tasks are exactly the PENDING ones |
| `LazyInvariant.StepRevivesIff` | ornith-moe/src/scheduler/scheduler.py:484-485 | a step queues a CANCELLED task, where none was, just when it is an update that gives one a new key |
| `LazyInvariant.RunRevivesIff` | ornith-moe/src/scheduler/scheduler.py:484-485 | no CANCELLED task is queued throughout a run just when the run contains no such update |
| `LazyInvariant.CancelledRunsAgain` | ornith-moe/src/scheduler/scheduler.py:484-485 | four operations after which a cancelled task is RUNNING |
| `LazyEffects.NextIsFirst` | ornith-moe/src/scheduler/scheduler.py:167-179 | on the records: the task taken is queued and due, and against each other queued task it has the smaller due, or the same and the higher priority, or both the same and the smaller mark; none just when no queued task is due |
| `LazyEffects.NextWrites` | ornith-moe/src/scheduler/scheduler.py:311-330 | RUNNING and out of the queue; every other queued task keeps its entry; no other record changes |
| `LazyEffects.DownstreamMeans` | ornith-moe/src/scheduler/scheduler.py:420-460 | downstream of a task is what waits on it over a chain of unresolved dependencies |
| `LazyEffects.SweepWrites` | ornith-moe/src/scheduler/scheduler.py:420-460 | a spreading end is given to the task and everything downstream, without dependencies and out of the queue; nothing else changes |
| `LazyEffects.DoneReleases` | ornith-moe/src/scheduler/scheduler.py:439-460 | whoever waits on a DONE task loses just that dependency, and is PENDING and queued if it was the last, WAITING if not; nothing else changes |
| `LazyEffects.ReleasedInOrder` | ornith-moe/src/scheduler/scheduler.py:439-460 | of two tasks freed together the one that began to watch first is queued first |
| `LazyEffects.DoneWrites` | ornith-moe/src/scheduler/scheduler.py:358-387 | DONE and DEPRECATED are each reached as asked; a DONE task deprecated takes nobody along; in all other states nothing happens |
| `LazyEffects.FailWrites` | ornith-moe/src/scheduler/scheduler.py:389-405 | a RUNNING task and everything downstream is FAILED; otherwise nothing happens |
| `LazyEffects.CancelWrites` | ornith-moe/src/scheduler/scheduler.py:407-415 | the task, in whatever state, and everything downstream is CANCELLED |
| `LazyEffects.AddAnswer` | ornith-moe/src/scheduler/scheduler.py:198-240 | accepted just when the priority is between -5 and 5, the id is new and not among its dependencies, and these are known; each refusal with the first reason in the order of the code |
| `LazyEffects.WorstMeans` | ornith-moe/src/scheduler/scheduler.py:139-148 | FAILED counts before CANCELLED, and that before DEPRECATED; nothing else spreads |
| `LazyEffects.AddWrites` | ornith-moe/src/scheduler/scheduler.py:198-306 | field by field: swept by the worst of its dependencies, else WAITING on those not DONE, else PENDING and queued under the next mark; nothing else changes |
| `LazyEffects.AddWatches` | ornith-moe/src/scheduler/scheduler.py:241-268 | the new task comes last in the list of each of its dependencies; no other list changes but its own |
| `LazyEffects.UpdateAnswer` | ornith-moe/src/scheduler/scheduler.py:465-500 | unknown, then over unless CANCELLED, then a priority out of range |
| `LazyEffects.UpdateWrites` | ornith-moe/src/scheduler/scheduler.py:484-523 | field by field: what was given is written; a task without unresolved dependencies is then queued afresh, a RUNNING one as PENDING; nothing else changes |
| `LazyScheduler.Scheduler.constructor` | ornith-moe/src/scheduler/scheduler.py:76-82 | an empty scheduler is valid |
| `LazyScheduler.Scheduler.Enqueue` | ornith-moe/src/scheduler/scheduler.py:167-179 | the task gets a valid entry under its current key, every older entry of it is stale from then on, and no other task's entries are affected |
| `LazyScheduler.Scheduler.PruneTop` | ornith-moe/src/scheduler/scheduler.py:185-193 | drops stale entries only, until the top is valid |
| `LazyScheduler.Scheduler.PickTerminal` | ornith-moe/src/scheduler/scheduler.py:139-148 | the most severe spreading state among the dependencies |
| `LazyScheduler.Scheduler.Reclassify` | ornith-moe/src/scheduler/scheduler.py:277-306 | swept, waiting on the live dependencies, or queued, as the dependencies call for |
| `LazyScheduler.Scheduler.AddTask` | ornith-moe/src/scheduler/scheduler.py:198-275 | is the Add step with the exact error otherwise |
| `LazyScheduler.Scheduler.NextTask` | ornith-moe/src/scheduler/scheduler.py:311-330 | takes the queued task with, against every other, the smaller due, then the higher priority, then the smaller mark, if it is due, and is empty just when no queued task is due |
| `LazyScheduler.Scheduler.DoneTask` | ornith-moe/src/scheduler/scheduler.py:358-387 | answered Ok the task is DONE and whoever waited on it loses just that dependency, PENDING and queued if it was the last; or, deprecated, it and everything downstream is DEPRECATED; the change before the refusal included |
| `LazyScheduler.Scheduler.FailTask` | ornith-moe/src/scheduler/scheduler.py:389-405 | is the Fail step with the exact answer |
| `LazyScheduler.Scheduler.CancelTask` | ornith-moe/src/scheduler/scheduler.py:407-415 | is the Cancel step from any state |
| `LazyScheduler.Scheduler.UpdateTask` | ornith-moe/src/scheduler/scheduler.py:465-523 | is the Change step, of a CANCELLED task too, with the exact error otherwise |
| `LazyScheduler.Scheduler.WakeChild` | ornith-moe/src/scheduler/scheduler.py:441-460 | one dependent: swept by the most severe state, left waiting, or queued |
| `LazyScheduler.Scheduler.WakeupDependents` | ornith-moe/src/scheduler/scheduler.py:420-460 | the worklist terminates and gives exactly the live tasks downstream the origin's own state, or releases exactly the dependents of a DONE one |
| `LazyScheduler.CascadeComplete` | ornith-moe/src/scheduler/scheduler.py:433-460 | when the stack is empty everything downstream has been reached |
| `LazyProgress.RunStaysAcyclic` | ornith-moe/src/scheduler/scheduler.py:198-275 | no run ever waits in a circle, although adding searches for no cycle |
| `LazyProgress.WaitingRestsOnWork` | ornith-moe/src/scheduler/scheduler.py:277-306 | a WAITING task leads over unresolved dependencies to a PENDING or RUNNING one |
| `LazyProgress.NoDeadlock` | ornith-moe/src/scheduler/scheduler.py:311-330 | with a live task left, nothing running and everything due, next_task hands one out |
| `LazyReplay.Replay` | ornith-moe/src/scheduler/scheduler.py:198-523 | whatever modelled operations are called on a new scheduler, they are a run |
| `LazyReplay.RunAll` | ornith-moe/src/scheduler/scheduler.py:311-405 | whatever becomes of the tasks taken, taking and finishing ends, and then every task is gone and none is queued |

## Left out

- addTasks of the two-heap scheduler: it replaces the contents of both heaps, dropping READY tasks queued before, and its second pass can throw after storing records.
- ContagionScheduler.TaskScheduler.ExecuteNextTask: calls that a runner makes on the scheduler while it runs are not interleaved; manual mode is the outcome that leaves the task RUNNING.
- ContagionScheduler.TaskScheduler.UpdateTask: name, payload and metadata are not part of the record.
- LazyScheduler.Scheduler.UpdateTask: a new depends_on is not modelled.
- LazyScheduler.Scheduler.HeapTop: heapq is taken as a finite set whose least entry can be read and removed; its array is not modelled.
- Task records are immutable values held in a map field, so a caller that keeps and mutates a returned record is not modelled.
- Iteration over a Set or Map is an arbitrary choice of the next element; the proofs hold for every order, insertion order among them.
- Floats are integers; finiteness checks and type checks on inputs are not modelled.
- Ids are strings compared character by character, not by UTF-16 code unit.
- Hooks, executors, payloads, names, metadata, timestamps other than createdAt, failure reasons, attempt counts and error texts.
- Metric counters other than byStatus and totalEdges of the two-heap scheduler; the contagion scheduler's counters.
- The promise queue, reentrancy and dispose of the contagion scheduler: each operation is one atomic step.
- getBlockedTasks, peek_next_task, earliest_run_time, ready_count and the other listings, which only read.
- The wake-up timer, generated ids, wall-clock reads and relative due times of the lazy scheduler.
- The other schedulers in the repository.

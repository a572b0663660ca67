# alist-sync job engine, modelled in Dafny

alist-sync keeps directories on AList servers in step. This project models
the three parts that drive each file operation to an end state.

- **Work items** (`alist_sync/d_worker.py`). A `Worker` is one copy or delete
  against a single target path. It moves through a state machine:
  `init`, then an optional backup (`back-upping`, `back-upped`), then either
  `downloaded`, `uploaded`, `copied` or `deleted`, then a recheck, and
  finally `done` or `failed`. Each status is written through `update`, which
  stores the record in the job store. A terminal status instead stamps
  `done_at`, writes a completion log and removes the record.
- **The scheduler** (`Workers`). It keeps a set of locked paths. It admits
  an item only when neither of the item's paths is locked, and its intake
  loop exits only when four conditions hold together.
- **The copy-task reconciler** (`alist_sync/run_copy.py`). It plans copy
  tasks from the difference between a scanned source directory and each
  scanned target directory. It submits every `init` task to the server's
  copy API. It then polls the server's task queue and maps each remote
  status onto the local task through a fixed transition table.
- **The job store** (`alist_sync/data_handle.py`). `ShelveHandle` is a keyed
  store of records, file-listing entries and a completion log. Of the
  document-database handle, only the way `update_worker` selects fields and
  the upsert flag is modelled.

Files:

- `common.dfy`: options, outcomes, paths, stats and decimal rendering.
- `records.dfy`: the record, the statuses and faults, and the attribute
  values. It also holds `Overwrite` (an update through `__dict__`) and the
  id (`Fingerprint`).
- `job_store.dfy`: `ShelveHandle` as a class over maps, and the pure
  field selection of the document store.
- `remote_fs.dfy`: the remote tree, a class holding a map from path to file.
- `worker_steps.dfy`: the pure specification of every step of a work item.
  This includes `RunSpec`, the whole of `run()`. The properties of a run are
  proved here.
- `d_worker.dfy`: the `Worker` and `Workers` classes. Their methods update
  fields, the store and the tree in place, and each is proved to have the
  effect the matching step function gives.
- `run_copy.dfy`: the task table, the planning, submission, transition and
  polling functions, and the `CopyToTarget` class. Its loops are proved
  against those functions.

Values from outside the engine are parameters:

- the clock (`now`)
- the code the upload answers
- what a retrying stat sees on each attempt (`probe`)
- the hash (`sha1`)
- the copy-task name derivation (`nameOf`)
- for the polling loop, the snapshots of the server's task queue

## Model

| member | source | states |
|---|---|---|
| Records.OverwriteReadsBack | alist_sync/d_worker.py:95-99 | after an update through `__dict__`, every named data attribute reads back the value written and every other reads as before |
| Records.Fingerprint | alist_sync/d_worker.py:82-85 | definition of the item id as the SHA-1 of type, source path and creation time; see `Records.FingerprintStable` |
| Records.FingerprintStable | alist_sync/d_worker.py:82-85 | the id depends only on the type, the source path and the creation time, so an update that leaves those three alone keeps the item's store key |
| DWorker.Worker.constructor | alist_sync/d_worker.py:44-71 | a new item holds the given record, is attached to no scheduler and has written no status |
| DWorker.Worker.ShortId | alist_sync/d_worker.py:87-89 | the short id is the first eight characters of the id (the whole id when shorter) |
| DWorker.Worker.Update | alist_sync/d_worker.py:95-107 | a field name that is not an attribute raises `KeyError` and changes neither the item nor the store; otherwise the fields are written, and a terminal result stamps `done_at`, appends exactly one log and removes the id from the store, while any other result stores the record under its id; a store holding no terminal record keeps holding none |
| DWorker.Worker.WriteStatus | alist_sync/d_worker.py:95-107 | `update(status=s)` changes only the status (and `done_at` when terminal), keeps the id, and logs-and-removes or stores again according to `s` |
| DWorker.Worker.Touch | alist_sync/d_worker.py:227 | `update()` with no fields changes no attribute except the terminal stamp, and stores the record again or, when terminal, logs and removes it |
| DWorker.Worker.Note | alist_sync/d_worker.py:122 | a non-terminal status write in the middle of a run keeps the store holding exactly the current record under the item's id |
| WorkerSteps.BackupStep | alist_sync/d_worker.py:109-134 | the backup passes exactly when a backup directory is set, the target exists and neither the `.history` file nor its sidecar exists; with no directory it raises before any write; on a clash it raises after `back-upping` without touching the tree; on success the target moves to the history file, the sidecar holds the old stat, and `back-upping`, `back-upped` are written; no existing file other than the target is ever changed |
| DWorker.Worker.Backup | alist_sync/d_worker.py:109-134 | the in-place backup has exactly `BackupStep`'s effect on the tree, the record, the statuses written and the store |
| DWorker.Worker.MoveToHistory | alist_sync/d_worker.py:113-134 | with a backup directory set and the target present, the in-place rename and sidecar write have exactly `BackupStep`'s effect on the tree, the record, the statuses written and the store |
| WorkerSteps.StreamStep | alist_sync/d_worker.py:139-177 | streaming changes at most the target; it passes exactly when the source path is set and exists and the upload answers 200, and then writes `downloaded`, `uploaded` and the target holds the source's file; with the source present, any other upload code fails after writing only `downloaded`, with that code as the fault |
| DWorker.Worker.CopySingleStream | alist_sync/d_worker.py:139-177 | the in-place stream has exactly `StreamStep`'s effect |
| DWorker.Worker.Transfer | alist_sync/d_worker.py:142-177 | with the source present, the in-place download and upload have exactly `StreamStep`'s effect: `downloaded`, then a code other than 200 raises, else the target takes the source's file and `uploaded` is written |
| WorkerSteps.CopyStep | alist_sync/d_worker.py:179-191 | a copy changes at most the target; it passes only with the source present and distinct from the target, writing `downloaded`, `uploaded`, `copied` and leaving the source's file at the target; a rejected upload leaves the target removed |
| DWorker.Worker.CopyType | alist_sync/d_worker.py:179-191 | the in-place copy has exactly `CopyStep`'s effect |
| WorkerSteps.DeleteStep | alist_sync/d_worker.py:193-197 | a delete always passes, writes `deleted`, leaves the target absent whether or not it existed, and changes nothing else |
| DWorker.Worker.DeleteType | alist_sync/d_worker.py:193-197 | the in-place delete has exactly `DeleteStep`'s effect |
| WorkerSteps.RecheckCopy | alist_sync/d_worker.py:199-212 | definition of `recheck_copy`; see `WorkerSteps.RecheckCopyPasses`, `WorkerSteps.RecheckCopyNeverWithoutSource`, `WorkerSteps.RecheckCopyGivesUp` |
| WorkerSteps.RecheckCopyPasses | alist_sync/d_worker.py:199-212 | the copy recheck passes exactly when the source exists and the first retrying stat, counting down, that finds the target sees the source's size |
| WorkerSteps.RecheckCopyNeverWithoutSource | alist_sync/d_worker.py:199-212 | without a source path, or with the source gone, the copy recheck never passes; with the source gone it answers `False` after the retries |
| WorkerSteps.RecheckCopyGivesUp | alist_sync/d_worker.py:199-212 | when no attempt finds the target, the recursion counts the retries down and answers `False` |
| WorkerSteps.Recheck | alist_sync/d_worker.py:214-222 | the recheck as evidently intended (see Findings): a copy rechecks as `recheck_copy(retry=3)`; a delete is true exactly when the target no longer exists, and a stat that no longer finds the target is not a fault |
| WorkerSteps.RecheckAsWritten | alist_sync/d_worker.py:214-222 | the recheck as written: a delete is true exactly when the retrying stat still finds the target and the target is gone; when the stat finds nothing it raises `FileNotFoundError` |
| WorkerSteps.DeleteRecheckAsWrittenFails | alist_sync/d_worker.py:218-220 | with the recheck as written, a delete whose stat finds the target gone removes the target yet ends `failed` with a not-found fault |
| WorkerSteps.Verdict | alist_sync/d_worker.py:243 | `assert self.recheck()` passes exactly when the recheck answered true |
| WorkerSteps.BackupPhase | alist_sync/d_worker.py:232-235 | the backup runs only when asked for and the status is `init`, writes only backup statuses, and its writes rise through the state machine |
| DWorker.Worker.BackupIfDue | alist_sync/d_worker.py:232-235 | the in-place gated backup has exactly `BackupPhase`'s effect and leaves the item non-terminal |
| WorkerSteps.Act | alist_sync/d_worker.py:237-241 | the copy or delete runs only from `init` or `back-upped`; a copy writes only copy statuses, a delete only `deleted`, and the writes rise |
| DWorker.Worker.ActIfDue | alist_sync/d_worker.py:237-241 | the in-place gated action is skipped once the backup raised, and otherwise has exactly `Act`'s effect |
| DWorker.Worker.Attempt | alist_sync/d_worker.py:229-242 | the try block up to the recheck has the combined effect of `BackupPhase` and `ActPhase` and keeps the store holding the current record |
| WorkerSteps.Finish | alist_sync/d_worker.py:243-248 | a run ends `done` exactly when nothing raised, and `failed` otherwise with the fault stored as `error_info`; the completion time is stamped and no other field changes |
| DWorker.Worker.Settle | alist_sync/d_worker.py:243-248 | the in-place end of a run has `Finish`'s effect after the recheck, logs the record once and removes it from the store |
| WorkerSteps.BackupFailureFailsRun | alist_sync/d_worker.py:229-248 | a run whose backup raised ends `failed` with the backup's fault as `error_info`, leaves the tree as the backup left it (unchanged), and writes the backup's statuses followed by `failed` |
| WorkerSteps.RunSpec | alist_sync/d_worker.py:224-250 | a run always ends terminal and stamped; a run on a `done` or `failed` item writes nothing, leaves the tree alone and keeps the status; a failed run of any other item stores a fault |
| DWorker.Worker.Resume | alist_sync/d_worker.py:229-248 | the in-place run of a non-terminal item has exactly `RunSpec`'s effect, logs the record once and removes it from the store |
| DWorker.Worker.Run | alist_sync/d_worker.py:224-250 | `run()` has exactly `RunSpec`'s effect on the record, the tree and the statuses written; the store ends with one more log entry and without the item's id, and a store holding no terminal record keeps holding none |
| WorkerSteps.RunWritesRise | alist_sync/d_worker.py:224-250 | the statuses a run writes rise strictly through the state machine, and the last is the status the run ends in |
| WorkerSteps.RunDoneMeansRechecked | alist_sync/d_worker.py:243-244 | a run that ends `done` has passed the recheck on the tree it leaves, and its `error_info` is unchanged |
| WorkerSteps.RunLastWriteIsStatus | alist_sync/d_worker.py:243-248 | a run of a non-terminal item writes at least one status, and the last status written is the one the run ends in |
| WorkerSteps.RunSparesOtherFiles | alist_sync/d_worker.py:224-250 | no file other than the target is changed or removed by a run, and the tree changes only when the run starts from `init` or `back-upped` |
| WorkerSteps.RunWritesFollowKind | alist_sync/d_worker.py:232-241 | a delete never writes a copy status, a copy never writes `deleted`, and backup statuses appear only when a backup was asked for |
| WorkerSteps.DeleteAlwaysDone | alist_sync/d_worker.py:193-220 | with the intended delete recheck, deleting from `init` without a backup writes `deleted`, `done` and leaves exactly the target removed, whether or not it existed |
| WorkerSteps.CopyHappyPath | alist_sync/d_worker.py:179-191 | a copy from `init` with an accepted upload and matching sizes writes `downloaded`, `uploaded`, `copied`, `done` and leaves the source's file at the target |
| WorkerSteps.BackupComesFirst | alist_sync/d_worker.py:232-235 | with a backup asked for and free names, a run's writes begin `back-upping`, `back-upped` |
| WorkerSteps.RunResumes | alist_sync/d_worker.py:237-244 | an item resumed in the middle of its state machine neither backs up nor acts; it only rechecks and ends on that verdict |
| DWorker.Released | alist_sync/d_worker.py:269-271 | releasing never adds a lock |
| DWorker.ReleaseSucceedsIff | alist_sync/d_worker.py:269-271 | a release succeeds exactly when the given paths are distinct and all locked, and then removes exactly them |
| DWorker.AdmitThenRelease | alist_sync/d_worker.py:269-281 | releasing what an admitted item locked restores the lock set, when its two paths differ |
| DWorker.LockExcludes | alist_sync/d_worker.py:273-281 | no item sharing a path with a held item is admitted, and a delete item (source `None`) keeps out every other delete item |
| DWorker.Intake | alist_sync/d_worker.py:273-285 | the intake only adds locks and admits at most the items offered |
| DWorker.IntakeExcludes | alist_sync/d_worker.py:273-285 | the admitted items' paths are pairwise disjoint, were free before and are locked afterwards |
| DWorker.Workers.constructor | alist_sync/d_worker.py:254-262 | a new scheduler holds no locks and no items |
| DWorker.Workers.ReleaseLock | alist_sync/d_worker.py:269-271 | the in-place release has `Released`'s result and changes nothing else |
| DWorker.Workers.AddWorker | alist_sync/d_worker.py:273-285 | a non-loader item is accepted exactly when neither of its paths (a `None` source included) is locked; when accepted, both paths are locked and the item is attached and queued; when refused, the locks and the pool are unchanged |
| DWorker.Workers.TakeNext | alist_sync/d_worker.py:306-309 | one pass's intake offers the next queued item to `add_worker`; the locks and admitted claims become those of `Intake` over one more item, and the pool grows exactly as the admitted claims do |
| DWorker.ShouldExit | alist_sync/d_worker.py:293-298 | definition of the intake loop's exit test; see `DWorker.Workers.Run` |
| DWorker.Workers.Run | alist_sync/d_worker.py:287-317 | the loop exits only at a pass where the queue is drained, the engine is not a daemon, no scanner is alive and the timeout has elapsed; it never exits as a daemon; the locks and admitted items are those of `Intake` over the items taken |
| JobStore.ShelveHandle.constructor | alist_sync/data_handle.py:160-169 | a new store is empty |
| JobStore.ShelveHandle.CreateLog | alist_sync/data_handle.py:176-178 | a log appends exactly the record and changes nothing else |
| JobStore.ShelveHandle.UpdateWorker | alist_sync/data_handle.py:180-183 | the full record is stored under the id, replacing any earlier one, whatever field names are given |
| JobStore.ShelveHandle.DeleteWorker | alist_sync/data_handle.py:185-190 | deleting an absent id is not an error; afterwards the id is absent and every other record reads as before |
| JobStore.ShelveHandle.GetWorker | alist_sync/data_handle.py:192-194 | the stored record, or nothing exactly when the id is absent |
| JobStore.ShelveHandle.LoadLocker | alist_sync/data_handle.py:201-208 | a path is in the lock set exactly when some stored record has it as its target or its source |
| JobStore.ShelveHandle.GetLocker | alist_sync/data_handle.py:58-60 | a path is locked, through `path_in_workers`, exactly when some stored record names it |
| JobStore.ShelveHandle.UpdateFileItem | alist_sync/data_handle.py:213-219 | after storing an item under a path, reading that path gives the item and every other path reads as before |
| JobStore.ShelveHandle.GetFileItem | alist_sync/data_handle.py:221-223 | the stored item, or nothing exactly when the path was never stored |
| JobStore.ShelveHandle.StoreRoundTrip | alist_sync/data_handle.py:180-194 | `update_worker` then `get_worker` reads back exactly the record written; `delete_worker` afterwards leaves the id absent, every other id reading as before the write, and the listing entries and the log unchanged |
| JobStore.MongoUpdateWorker | alist_sync/data_handle.py:87-100 | the filter is the id; with no field names the document is exactly the record's dump (id included) and upsert is set; with field names exactly those `__dict__` entries are sent, each with the record's value, without upsert |
| RunCopy.Put | alist_sync/run_copy.py:60 | storing a task puts it under its name, leaves every other key alone, keeps the earlier keys' order and keeps the table well formed |
| RunCopy.PutAllStores | alist_sync/run_copy.py:60 | after storing a list of tasks, the keys are the old keys plus the tasks' names; a key no stored task names keeps its task, and the old order is a prefix |
| RunCopy.Relative | alist_sync/run_copy.py:45 | a relative path exists exactly when the item lies below the base, and the base followed by it is the item |
| RunCopy.Parent | alist_sync/run_copy.py:55-58 | a non-empty path is its parent followed by its name |
| RunCopy.MakeTask | alist_sync/run_copy.py:53-59 | a new task is `init` with no id, is named after the item's file name, copies from the source base joined with the relative parent, and copies to the target base joined with the same parent |
| RunCopy.Planned | alist_sync/run_copy.py:43-59 | definition of `create_copy_task`'s planning; see `RunCopy.PlannedPasses`, `RunCopy.PlannedTasks`, `RunCopy.PlannedStored` |
| RunCopy.PlannedPasses | alist_sync/run_copy.py:43-45 | planning passes exactly when every source item lies below the source base; when it raises, it names such an item |
| RunCopy.PlannedTasks | alist_sync/run_copy.py:43-59 | when planning passes, its tasks are exactly those of the items whose relative path the target does not hold |
| RunCopy.PlannedStored | alist_sync/run_copy.py:41-63 | after planning passes, every item the target lacks has its task's name among the keys, and every new key names the task of such an item |
| RunCopy.CopyToTarget.constructor | alist_sync/run_copy.py:16-21 | a new reconciler keeps its source and targets and starts with an empty task table |
| RunCopy.CopyToTarget.CreateCopyTask | alist_sync/run_copy.py:41-63 | the loop stores exactly the planned tasks in item order, keeps the table well formed, and raises as planning does |
| RunCopy.MissingTarget | alist_sync/run_copy.py:79-91 | a target without a scanned directory raises; it is reported as missing unless the first source item lies outside the base |
| RunCopy.ListPlan | alist_sync/run_copy.py:72-91 | definition of `create_copy_list`'s planning over the targets; see `RunCopy.ListPlanPasses`, `RunCopy.CopyToTarget.CreateCopyList` |
| RunCopy.ListPlanPasses | alist_sync/run_copy.py:79-91 | with targets configured, planning the list passes exactly when the source and every target were scanned and every source item lies below the source base |
| RunCopy.CopyToTarget.CreateCopyList | alist_sync/run_copy.py:72-91 | with no targets it raises and stores nothing; otherwise it stores the tasks planned for each target in turn and stops at the first that raises |
| RunCopy.CopyToTarget.ListTarget | alist_sync/run_copy.py:79-91 | one target of `create_copy_list` in place: either the plan of the targets so far passes and is stored, or the whole listing raises here with the table `ListPlan` gives |
| RunCopy.Pending | alist_sync/run_copy.py:108-110 | the names listed are exactly those of the `init` tasks; every two of them appear in the table's key order, and in a well-formed table each appears once |
| RunCopy.CopyToTarget.SubmitPass | alist_sync/run_copy.py:107-120 | a scan finishes exactly when no task is `init`; otherwise it sends exactly `Cut` of the `init` tasks in key order: none of them already running, stopping at the first one still running |
| RunCopy.CopyToTarget.OnCopyResult | alist_sync/run_copy.py:96-104 | reply code 200 marks the task `created`; any other code leaves it unchanged; no other task changes |
| RunCopy.CopyToTarget.ApplyReply | alist_sync/run_copy.py:96-104 | the reply to one more submitted request extends the replies applied so far by exactly that request, and keeps the keys, their order and the table's well-formedness |
| RunCopy.CopyToTarget.ApplyReplies | alist_sync/run_copy.py:115-129 | every submitted task whose reply code is 200 becomes `created`; every other task, and the keys and their order, are unchanged; so the replies only turn `init` tasks into `created` ones |
| RunCopy.Cut | alist_sync/run_copy.py:115-125 | the names a scan sends are a prefix of the pending ones, none of them still running, and when the prefix stops short the next name is still running |
| RunCopy.CutUnique | alist_sync/run_copy.py:115-125 | `Cut` is the only prefix with those three properties, so the scan's stopping point is determined |
| RunCopy.SubmitOnce | alist_sync/run_copy.py:107-129 | definition of one pass of `create_copy` (scan, stop when nothing is `init`, send `Cut` of the pending names, take the replies); see `RunCopy.CopyToTarget.SubmitRound` |
| RunCopy.Submissions | alist_sync/run_copy.py:106-129 | definition of the whole `create_copy` loop over a sequence of passes; see `RunCopy.SubmissionsOnlyCreate`, `RunCopy.SubmissionsEnd`, `RunCopy.SubmissionsStopAtOnce` |
| RunCopy.SubmissionsOnlyCreate | alist_sync/run_copy.py:106-129 | over any number of passes, the loop keeps the keys and only turns `init` tasks into `created` ones |
| RunCopy.SubmissionsEnd | alist_sync/run_copy.py:106-113 | the loop ends only after a scan that finds no `init` task, so then no task is `init`; a loop that does not end uses every pass |
| RunCopy.SubmissionsStopAtOnce | alist_sync/run_copy.py:107-113 | the loop ends at its first pass exactly when no task is `init` to begin with, and then the tasks are unchanged |
| RunCopy.CopyToTarget.SubmitRound | alist_sync/run_copy.py:107-129 | one pass of the loop in place has exactly `SubmitOnce`'s effect, and the loop from this pass on is this pass followed, unless it ended the loop, by the loop from the next pass |
| RunCopy.CopyToTarget.CreateCopy | alist_sync/run_copy.py:106-132 | the loop in place leaves exactly the tasks, end flag and pass count that `Submissions` gives: it stops at the first pass whose scan finds no `init` task, and only ever turns `init` tasks into `created` ones |
| RunCopy.Transition | alist_sync/run_copy.py:134-166 | `""` moves only `created` to `waiting`; `getting src object` moves only `created` or `waiting` to `getting_src`; `failed` and `success` are taken from any status; any other remote status changes nothing |
| RunCopy.TransitionIdempotent | alist_sync/run_copy.py:134-152 | seeing the same remote status twice has the effect of seeing it once |
| RunCopy.CopyToTarget.StatusWait | alist_sync/run_copy.py:134-138 | the handler changes only the named task's status, as `Transition` gives for `""` |
| RunCopy.CopyToTarget.StatusGettingSrc | alist_sync/run_copy.py:140-144 | the handler changes only the named task's status, as `Transition` gives for `getting src object` |
| RunCopy.CopyToTarget.StatusFailed | alist_sync/run_copy.py:146-148 | the named task becomes `failed` and nothing else changes |
| RunCopy.CopyToTarget.StatusSuccess | alist_sync/run_copy.py:150-152 | the named task becomes `success` and nothing else changes |
| RunCopy.Matching | alist_sync/run_copy.py:190-192 | the entries kept are exactly those with the task's name |
| RunCopy.MatchingKeepsOrder | alist_sync/run_copy.py:190-192 | the entries are kept in the order read: those kept from a prefix of the listing are a prefix of those kept from the whole, and a matching last entry is kept last |
| RunCopy.Observe | alist_sync/run_copy.py:197-203 | one remote entry records its id only when the task has none, moves the status as `Transition` gives, and changes nothing else |
| RunCopy.CopyToTarget.Dispatch | alist_sync/run_copy.py:197-203 | the in-place handling of one entry has exactly `Observe`'s effect on the named task and changes no other |
| RunCopy.ObserveAll | alist_sync/run_copy.py:193-203 | seeing entries changes only a task's status and id |
| RunCopy.FirstIdSticks | alist_sync/run_copy.py:197-198 | a task keeps an id it has; one without takes the id of the first entry seen |
| RunCopy.LastVerdictWins | alist_sync/run_copy.py:146-152 | after a run of entries ending in `failed` or `success`, the task has that status whatever came before |
| RunCopy.CopyToTarget.ReconcileTask | alist_sync/run_copy.py:193-203 | handling a task's entries in order has exactly `ObserveAll`'s effect on that task |
| RunCopy.ReconcileAll | alist_sync/run_copy.py:188-203 | reconciling keeps the keys and names and leaves every `success` task alone |
| RunCopy.CopyToTarget.ReconcileEach | alist_sync/run_copy.py:188-203 | the loop over the tasks in order has exactly `ReconcileAll`'s effect, finished entries first |
| RunCopy.CopyToTarget.AllSucceededNow | alist_sync/run_copy.py:172-175 | the check is true exactly when every task is `success` |
| RunCopy.PollOnce | alist_sync/run_copy.py:168-203 | a pass returns and clears exactly when every task is `success`, which is tested first; else it waits while the timestamp is 0; else it returns on an empty unfinished list; the table changes only when it reconciles |
| RunCopy.PollKeepsTable | alist_sync/run_copy.py:168-203 | a pass keeps the keys, their order, the names and the table's well-formedness |
| RunCopy.CopyToTarget.CheckStep | alist_sync/run_copy.py:168-203 | the in-place pass decides and updates the table exactly as `PollOnce` gives |
| RunCopy.Polls | alist_sync/run_copy.py:157-203 | the loop clears only when it returns with every task `success`, returns only after a pass, and otherwise uses every snapshot |
| RunCopy.CopyToTarget.CheckStatus | alist_sync/run_copy.py:157-203 | the in-place polling loop ends with the table, the return, the clearing and the pass count that `Polls` gives |
| RunCopy.NoEarlyReturn | alist_sync/run_copy.py:179-181 | while the server has not reported, the loop changes no task and returns only after clearing |
| RunCopy.AllSuccessReturnsAtOnce | alist_sync/run_copy.py:172-178 | with every task `success`, the first pass clears and returns without changing any task |
| RunCopy.ClearedIffAllSucceeded | alist_sync/run_copy.py:172-184 | when the loop returns, it has cleared exactly when every task is `success`, so an empty unfinished list returns without clearing |

## Left out

- I/O is not modelled: HTTP transfers, the local scratch file, directory creation, logging, `__repr__`, and the `__del__` and `atexit` clean-ups. A copy is modelled by its effect: the target holds the source's file, or the step fails.
- Threads, the thread pool, `asyncio` tasks, sleeps and queue timeouts are not modelled. Each loop pass is one sequential step, and the passes are given as a finite sequence.
- The re-raise under `ALIST_SYNC_DEBUG` is left out, because it depends on the environment and only re-throws after the `failed` state has been stored.
- The hash, the clock, the remote's stat lag and the copy-task name derivation are parameters. `alist_sync/models.py` (`CopyTask`, `SyncDir.in_items`) is not part of this model. `in_items` is taken to be membership of the relative path among the target's items.
- `error_info` holds the fault itself rather than its text.
- A retrying stat of a missing path is treated as "not found" (`FileNotFoundError`), which the copy recheck catches and retries. The source is inconsistent here: the `except FileNotFoundError` in `recheck_copy` (alist_sync/d_worker.py:206) implies that `re_stat` raises for a missing path, while `assert ... re_stat() is not None` in `backup` (alist_sync/d_worker.py:131) implies that it returns `None`. The model takes the raising reading; under the other one the delete recheck finding below does not arise. The recheck's stat of the source is a plain lookup in the tree. A run uses the intended delete recheck, `WorkerSteps.Recheck`; the recheck as written is `WorkerSteps.RecheckAsWritten` (see Findings).
- `created_at` defaults to a value computed once at import, so the constructor takes the whole record.
- DWorker.Worker.Update: requires each value to have its attribute's declared type, because the record is typed. The source accepts any value. Writes to the private `workers` and `collection` attributes are accepted and not stored.
- Records.OverwriteReadsBack: requires each value to have its attribute's declared type, for the same reason as `DWorker.Worker.Update`.
- DWorker.Workers.Run: takes at most one queued item per pass and stops when the passes run out. The loader path and the commented-out reload of stored locks are not modelled.
- DWorker.Workers.Run: the claims of the items in the pool are kept as a ghost record of what was locked.
- `release_lock` is modelled, but none of the modelled files calls it, so locks taken by `add_worker` are never given back.
- RunCopy.CopyToTarget.CreateCopy: the replies to a pass's requests arrive before the next scan. The set of still-running request names for each pass is given.
- The `task.name not in copy_tasks` guard in `check_status` never skips an entry: its condition is always false, because entries are matched by name against tasks keyed by their names, so every matched entry goes on to the status handlers.
- `async_run`, its cache check, `save_to_cache` and `SyncBase` are not part of this model.
- MongoHandle is modelled only through `update_worker`'s selection of fields and the upsert flag. Its other operations and both `load_locker` variants' mismatches with the stored documents are not modelled.
- ShelveHandle.get_workers (a generator over stored records) is not modelled, because the engine does not read it.
- `check_status` returns on an empty unfinished list even when some task is not yet `success`. Its authors mark this as a workaround for a server that does not report completion, and the model keeps it.

## Findings

| source | as written | input that shows it | evidently intended | confidence | as-written member | corrected member |
|---|---|---|---|---|---|---|
| alist_sync/d_worker.py:218-220 | the delete recheck first calls `target_path.re_stat(retry=5, timeout=2)` without catching its error, then tests `not target_path.exists()` | if `re_stat` raises `FileNotFoundError` for a missing path: any delete item, since after `delete_type` removes the target the retrying stat no longer finds it and raises, so `run()` stores `failed` although the target is gone | the delete passes when the target no longer exists; the stat only waits for the remote to settle | low, not executed; holds only if `re_stat` raises `FileNotFoundError` for a missing path, as the `except` in `recheck_copy` (alist_sync/d_worker.py:206) implies; the `is not None` assertion in `backup` (alist_sync/d_worker.py:131) implies that it returns `None` instead, and then line 219 does not raise and there is no bug; the source contradicts itself and the model takes the raising reading | WorkerSteps.RecheckAsWritten, WorkerSteps.DeleteRecheckAsWrittenFails | WorkerSteps.Recheck, WorkerSteps.DeleteAlwaysDone |

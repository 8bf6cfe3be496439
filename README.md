# Coordinator core of a distributed filesystem load tester

The coordinator hands numbered jobs to a pool of worker processes. It keeps, per worker, the jobs
sent and not yet reported done, and requeues the jobs of a worker that disconnects. On the side it
keeps a *shadow namespace*: the directories and files it believes exist on the filesystem under
test. Each outcome record a worker reports after running a filesystem operation is checked
against the shadow namespace. Depending on the record, the shadow namespace is updated or an error
verdict is emitted.

The model has two parts.

- **Scheduler** (`controller.dfy`, module `Controller`):
  - the work iterator: requeued jobs first, last requeued first, then jobs minted from the numbers 0 .. 9999;
  - least-loaded worker selection under the cap of 50 outstanding jobs;
  - the worker-message state machine (`connect`, `disconnect`, `job_done`);
  - the dispatch loop of `run`;
  - the start-up directory tree built by `build_recursive_tree`.

  `Controller.Controller` is a class whose fields are the dictionaries and lists the Python object updates in place. `Consistent` is the invariant its methods keep:
  - at most 50 outstanding jobs per worker;
  - every job filed under its own id;
  - no id outstanding at two workers, or both outstanding and requeued, or requeued twice;
  - every id already minted.

  The tree is a class over an arena of nodes (`Controller.DirectoryTree`). Its build method is proved equal to a pure function, `Build`. The lemmas about `Build` give:
  - the size of the result, `TreeSize`, equal to width + width² + … + width^(depth+1);
  - the parent of every appended node;
  - the order of a base's children;
  - the names the directories receive.

- **Consistency verifier**, in four modules:
  - `outcomes.dfy`: the outcome record, error codes, verdicts, the two handler tables, the tolerated codes and `generic_error_handler`;
  - `namespace.dfy`: the shadow namespace and the tree interface the handlers call;
  - `expected.dfy`: one pure function per handler, from the namespace before the call to the namespace after it plus the verdict;
  - `response_actions.dfy`: the handlers themselves, as methods that update a `DirTree` object in place. Each is proved to agree with its function in `Expected`.

  `expected_props.dfy` proves what the handlers promise about those functions: routing, the per-action tolerated codes, the effect of each success handler, the ENOENT downgrade rule, directory retirement, and that every handler keeps the namespace invariant.

  A verdict is one of: `Quiet` (nothing logged), `Noted` (debug or info messages only), `Flagged(report)` (an error-level message), or `Raised(exc)`. `Raised` is a Python exception escaping the handler, in the places where the Python code raises one: a short `split('/')`, comparing a datetime with `None`, `list.index` on a missing key, `None.data`, or a table lookup of an unknown action.

`common.dfy` holds `Option`. `paths.dfy` holds Python's `str.split` on one character and its inverse `Join`.

## Model

| member | source | states |
|---|---|---|
| Paths.Split | server/response_actions.py:24-26 | `str.split(sep)` yields at least one part and no part contains the separator |
| Paths.JoinSplit | server/response_actions.py:24-26 | joining the parts of a split gives back the original string |
| Paths.SplitJoin | server/response_actions.py:104-105 | splitting a join of separator-free parts gives back exactly those parts, so `split('/')[k]` names the k-th component |
| Outcomes.ResponseActions | server/response_actions.py:66-85 | the table finds an action exactly for the nine keys mkdir, touch, list, stat, read, write, delete, rename, rename_exist, and the found action carries that key |
| Outcomes.ActionTableRoundTrip | server/response_actions.py:305-316 | every action of the failure table is found under its own key (the two tables have the same keys) |
| Outcomes.GenericErrorHandler | server/response_actions.py:14-41 | an unexpected failure is always an error verdict naming a directory, plus a file when the target has a fifth component; a target with at most three components raises IndexError |
| Outcomes.GenericNamesComponents | server/response_actions.py:24-41 | for a target built from five or more components, the verdict names exactly the fourth and fifth |
| Outcomes.GenericNamesDirectory | server/response_actions.py:24-33 | for a target of exactly four components, the directory-level verdict names the fourth |
| Namespace.FileIndex | server/response_actions.py:148 | `get_file_by_name` finds the first entry with that name, and finds nothing exactly when no entry has it |
| Namespace.FileIndexSameName | server/response_actions.py:172-198 | rewriting an entry without renaming it does not change which entry a name finds |
| Namespace.IndexOf | server/response_actions.py:333-336 | `list.index` gives the first position of the key, and fails exactly when the key is absent |
| Namespace.RemoveAt | server/response_actions.py:334 | `del xs[i]` removes exactly position i: the result is the entries before i followed by those after it, so one occurrence of `xs[i]` goes and the rest keep their order |
| Namespace.Appended | server/response_actions.py:339 | `append_node` adds one fresh directory with its files not on disk, keeps every other directory, and appends its key to `nids` |
| Namespace.DirTree.RemoveDirByName | server/response_actions.py:332 | `remove_dir_by_name` drops the directory, reports whether it was there, and leaves the key lists alone |
| Namespace.DirTree.AppendNode | server/response_actions.py:339 | the tree's new state is `Appended` of its old state |
| ResponseActions.MkdirSuccess | server/response_actions.py:88-99 | the tree after the call and the verdict are those of `Expected.MkdirSuccess`, whose effect `ExpectedProps.MkdirEffect` states |
| ExpectedProps.MkdirEffect | server/response_actions.py:88-99 | a tracked target becomes on disk with the reported size and creation time, keeping its name and files; every other directory is unchanged; its key is appended to `synced_nodes`; `nids` is unchanged; the verdict is informational. An untracked target raises AttributeError and changes nothing |
| ResponseActions.TouchSuccess | server/response_actions.py:102-128 | the loop over the files agrees with `Expected.TouchSuccess`: the first entry of the name is confirmed and the directory takes the reported size |
| ResponseActions.ReadSuccess | server/response_actions.py:139-160 | agrees with `Expected.ReadSuccess` and leaves the tree unchanged |
| ResponseActions.WriteSuccess | server/response_actions.py:163-198 | agrees with `Expected.WriteSuccess` |
| ResponseActions.DeleteSuccess | server/response_actions.py:201-218 | agrees with `Expected.DeleteSuccess` |
| ResponseActions.RenameSuccess | server/response_actions.py:221-247 | agrees with `Expected.RenameSuccess` |
| ResponseActions.RenameExistSuccess | server/response_actions.py:250-302 | agrees with `Expected.RenameExistSuccess`, whose effect `ExpectedProps.RenameExistEffect` states |
| ResponseActions.MkdirFail | server/response_actions.py:319-322 | agrees with the failure table's mkdir rules and leaves the tree unchanged |
| ResponseActions.TouchFail | server/response_actions.py:325-359 | agrees with the failure table's touch rules: tolerated codes, directory retirement on MAX_DIR_SIZE, the directory-time comparison on ENOENT, else the generic handler |
| ResponseActions.ListFail | server/response_actions.py:362-368 | agrees with the list rules (ENOENT is silent) and leaves the tree unchanged |
| ResponseActions.FileEnoent | server/response_actions.py:375-392 | the ENOENT branch shared by the file actions agrees with `Expected.FileEnoent` |
| ResponseActions.StatFail | server/response_actions.py:371-394 | agrees with the failure table's stat rules |
| ResponseActions.ReadFail | server/response_actions.py:397-421 | agrees with the failure table's read rules (ZERO_SIZE also tolerated) |
| ResponseActions.WriteFail | server/response_actions.py:424-447 | agrees with the failure table's write rules |
| ResponseActions.DeleteFail | server/response_actions.py:450-473 | agrees with the failure table's delete rules |
| ResponseActions.RenameFail | server/response_actions.py:476-499 | agrees with the failure table's rename rules |
| ResponseActions.RenameExistFail | server/response_actions.py:502-527 | agrees with the failure table's rename_exist rules (SAMEFILE also tolerated) |
| ResponseActions.ResponseAction | server/response_actions.py:49-63 | dispatch agrees with `Expected.ResponseAction`, and a valid namespace stays valid |
| ExpectedProps.Routing | server/response_actions.py:49-63 | an unknown action is a KeyError with nothing changed; a known one goes to the success handler of that action exactly when `result == "success"`, else to its failure handler |
| ExpectedProps.TruncateIsLookupFailure | server/response_actions.py:60-63 | a `truncate` record is a lookup failure that changes nothing |
| ExpectedProps.ToleratedIsSilent | server/response_actions.py:319-322 | a failure with a tolerated code changes nothing and logs nothing |
| ExpectedProps.ToleratedTable | server/response_actions.py:371-374 | NO_TARGET and EEXIST are tolerated for every action; ESTALE exactly for the six file actions; ZERO_SIZE exactly for read; SAMEFILE exactly for rename_exist; MAX_DIR_SIZE, HASH_ERROR and ENOENT never |
| ExpectedProps.TouchConfirms | server/response_actions.py:109-128 | when the file is found, only the first entry of that name changes (on disk, creation time, fresh token), the directory takes the reported size, and nothing else changes |
| ExpectedProps.TouchNoMatch | server/response_actions.py:104-109 | an untracked directory or an absent file name leaves the namespace unchanged |
| ExpectedProps.ReadFlagsIff | server/response_actions.py:139-160 | a read never changes the namespace, and flags a hash mismatch exactly when the directory is tracked and on disk, the file is found, the stored hash differs, the session token matches and the read time is not after the modify time |
| ExpectedProps.ReadRaisesIff | server/response_actions.py:150-152 | the read check raises exactly when it reaches the time comparison for a file never modified |
| ExpectedProps.WriteEffect | server/response_actions.py:163-198 | a confirmed write sets modify time, pattern, length, hash and offset and keeps name and token; a file not yet on disk also becomes on disk created at the write time; an untracked or off-disk directory is left alone |
| ExpectedProps.WriteThenRead | server/response_actions.py:139-198 | a read after a write flags exactly when its hash differs from the written one, the token matches and it is not later than the write |
| ExpectedProps.DeleteEffect | server/response_actions.py:201-218 | only an on-disk file in a tracked on-disk directory is taken off disk; nothing else changes |
| ExpectedProps.DeleteIdempotent | server/response_actions.py:201-218 | replaying a delete confirmation changes nothing more |
| ExpectedProps.RenameEffect | server/response_actions.py:221-247 | the first entry of the file in a tracked on-disk directory is replaced by itself renamed to the destination; when it was not on disk it also becomes on disk with the reported creation time; every other field, entry and directory is kept; otherwise nothing changes; the verdict is informational |
| ExpectedProps.RenameExistEffect | server/response_actions.py:250-302 | first the source entry, when its directory is tracked and on disk and the entry is found on disk, is taken off disk; then, in that intermediate namespace, the first destination entry of a tracked on-disk directory is renamed to the directory lookup of the source file name (`None` when no directory has that name), so a same-directory rename sees the source already off disk; otherwise the intermediate namespace is the result; the verdict is informational |
| ExpectedProps.RenameExistShortSource | server/response_actions.py:252-256 | a source path with only one component after the leading '/' raises IndexError and changes nothing |
| ExpectedProps.FileEnoentIff | server/response_actions.py:375-392 | ENOENT on a file action is flagged exactly when it changes the namespace, and exactly when the file is found on disk and the error time is after its creation time; the change is exactly `ondisk := false` on that entry |
| ExpectedProps.TouchEnoentIff | server/response_actions.py:346-357 | ENOENT on a touch never changes the namespace and is flagged exactly when the directory is tracked, on disk and created before the error |
| ExpectedProps.StatEnoentDowngrades | server/response_actions.py:371-394 | through dispatch, a stat ENOENT on a file created before the error takes it off disk with an error verdict |
| ExpectedProps.RetireEffect | server/response_actions.py:325-344 | on MAX_DIR_SIZE the full directory is replaced by one fresh directory; the first occurrence of its key is deleted from `synced_nodes` and from `nids`, the other keys keeping their order, and the fresh key is appended to `nids`; an untracked directory is skipped |
| ExpectedProps.RetireMissingKeyRaises | server/response_actions.py:332-334 | a key missing from `synced_nodes` raises after the directory is already removed |
| ExpectedProps.RetireMissingNidRaises | server/response_actions.py:335-336 | a key present in `synced_nodes` but missing from `nids` raises ValueError after the directory is removed and the first occurrence of its key is deleted from `synced_nodes`, the other keys keeping their order |
| ExpectedProps.ResponseActionKeepsValid | server/response_actions.py:49-63 | every handler keeps the invariant that a directory or file believed on disk has a creation time |
| ExpectedProps.SuccessKeepsValid | server/response_actions.py:66-302 | every success handler keeps that invariant |
| ExpectedProps.FailKeepsValid | server/response_actions.py:305-527 | every failure handler keeps that invariant |
| ExpectedProps.RetireKeepsValid | server/response_actions.py:325-344 | directory retirement keeps that invariant |
| ExpectedProps.WithFileKeepsValid | server/response_actions.py:172-198 | writing back a valid file entry keeps the invariant |
| ExpectedProps.FailNeverTypeError | server/response_actions.py:346-419 | on a valid namespace no failure handler hits the `None` creation time comparison |
| ExpectedProps.FilePathSplits | server/response_actions.py:104 | a target "/dir/file" splits into "", dir, file |
| ExpectedProps.MountedPathSplits | server/response_actions.py:376-377 | a failure target "/a/b/dir/file" splits so that components 3 and 4 are dir and file |
| Controller.NewDirectory | server/controller.py:41-57 | a directory holds `MAX_FILES_PER_DIR` = 1000 files, with names distinct from each other and from the directory's |
| Controller.ChildrenOf | server/controller.py:33 | `tree.children(base)` lists only nodes whose parent is base |
| Controller.ChildrenOfComplete | server/controller.py:33 | it lists every such node, in creation order |
| Controller.DirectoryTree.CreateNode | server/controller.py:30-32 | appends one node under the parent, holding a new directory, and keeps the tree a forest |
| Controller.DirectoryTree.AddChildren | server/controller.py:29-32 | the first loop's state is `AddKids` of the old state |
| Controller.DirectoryTree.BuildRecursiveTree | server/controller.py:19-38 | the new state is `Build` of the old one, and the arena is still a forest in which every parent precedes its children |
| Controller.AddKids | server/controller.py:29-32 | the first loop appends exactly `width` nodes and keeps the existing ones |
| Controller.Build | server/controller.py:19-38 | the build only appends nodes |
| Controller.BuildLaid | server/controller.py:19-38 | under a base with no children, the appended nodes have the parents `Layout` prescribes, the base's children are exactly the first `width` of them, and parents precede children |
| Controller.BuildAllLaid | server/controller.py:33-36 | the second loop's recursive calls on the first k children lay out k subtrees one after another, leaving the later children childless |
| Controller.BuildAllStep | server/controller.py:33-36 | the recursive calls on the first k+1 children are those on the first k, then `Build` on child k |
| Controller.LayoutSize | server/controller.py:27-36 | a build of depth d and width w creates `TreeSize(d, w)` directories; none when d < 0 |
| Controller.TreeSizeIsLevelSum | server/controller.py:27-36 | `TreeSize(d, w)` is w + w² + … + w^(d+1) |
| Controller.StartupTreeSize | server/controller.py:83 | the start-up build (1, 10) creates 110 directories |
| Controller.BuildNames | server/controller.py:30-32 | every directory receives fresh names, in creation order |
| Controller.BuildFromRoot | server/controller.py:82-83 | from a single root, the build yields 1 + `TreeSize` nodes, a forest, whose root has exactly the first `width` new nodes as children |
| Controller.Controller.constructor | server/controller.py:67-85 | no workers, nothing requeued, nothing minted, and a tree of the root plus 110 directories with 10 under the root |
| Controller.MintedFrom | server/controller.py:93-99 | the jobs still to be minted are numbers `next` .. 9999 in increasing order, and none after 9999 |
| Controller.UpcomingAfterRequeue | server/controller.py:95-96 | jobs requeued on top come out next, last one first, ahead of all that was upcoming |
| Controller.Controller.NextJob | server/controller.py:90-99 | pops the last requeued job when there is one, else mints the next number, else reports the iterator exhausted; the upcoming sequence loses exactly its head; the taken job is fresh: no worker has its id outstanding and it is not requeued; the run log records the job and what was upcoming when it was taken |
| Controller.Controller.NextWorkerId | server/controller.py:101-114 | returns a worker with the fewest outstanding jobs when that count is below 50, and nothing exactly when every worker is at the cap (or there is none) |
| Controller.Controller.HandleWorkerMessage | server/controller.py:116-139 | the step is the `Handled` relation: connect adds an empty map and fails on a known worker; disconnect removes the worker and appends exactly its jobs to the requeue buffer; job_done removes exactly that id; a missing worker or job is a KeyError and an unknown kind raises, with nothing changed; the invariant is kept and unused jobs stay unused |
| Controller.Controller.Connect | server/controller.py:123-126 | connect alone, with the same contract as above |
| Controller.Controller.Disconnect | server/controller.py:127-133 | disconnect alone, with the same contract as above |
| Controller.Controller.JobDone | server/controller.py:134-137 | job_done alone, with the same contract as above |
| Controller.ListValues | server/controller.py:131 | `dict.values()` lists each value of the map once |
| Controller.DisconnectKeepsConsistent | server/controller.py:127-131 | moving a worker's jobs to the requeue buffer keeps the invariant and keeps unused jobs unused |
| Controller.DispatchKeepsConsistent | server/controller.py:163-172 | filing an unused job under a worker below the cap keeps the invariant, and the job's id is then outstanding at exactly that worker |
| Controller.Controller.Dispatch | server/controller.py:170-174 | the job is filed under the worker and sent to it, the run log records the registry the worker was chosen from, and nothing else changes |
| Controller.Controller.TakeJob | server/controller.py:146 | one step of `for job in self.work_iterator()`: the job taken is the head of what was upcoming and the rest is what is upcoming now; the requeue buffer and the minting counter are stated exactly in both branches, so no requeued job is dropped; the job is fresh; exhaustion leaves nothing requeued and all numbers minted; the run log stays in step with the sends |
| Controller.Controller.Drain | server/controller.py:152-160 | handling one batch: the returned round lists the registries and requeue buffers the messages pass through, from the old state to the new, each step the `Handled` relation of that message; with no fault every message is handled, and a fault is the one raised by the last message handled, all the earlier ones raising nothing; nothing is sent and the pending job stays fresh |
| Controller.Controller.AwaitWorker | server/controller.py:148-165 | the rounds trace, one round per tick from `t0`, chained from the old state to the new: every round but the last raised nothing and left every worker at the cap of 50; a found worker is least loaded and below the cap after a round that raised nothing; `OutOfInput` happens exactly when all ticks are used, after rounds that raised nothing and left all workers at the cap; `Crashed` names the round of tick `t` that raised that fault |
| Controller.Controller.SetStop | server/controller.py:177 | `stop_event.set()` changes only the flag and keeps the invariant |
| Controller.LogTake | server/controller.py:146 | recording a job taken from the iterator, the head of what was upcoming, keeps the sends in step with the run log |
| Controller.HandlesExtend | server/controller.py:158-160 | a message handled without a fault extends the trace of a batch by one step |
| Controller.HandlesFault | server/controller.py:158-160 | a message whose handling raises ends the trace of a batch with that fault |
| Controller.PollExtend | server/controller.py:148-165 | a round chained onto the end state of the rounds before it, which raised nothing and left all workers at the cap, extends the trace of the wait |
| Controller.Controller.HandleNext | server/controller.py:158-160 | handles one message of a batch and extends the batch trace by the state it leaves, or ends it with the fault raised; nothing is sent and the run log is unchanged |
| Controller.Controller.PollRound | server/controller.py:152-160 | polls the batch of the next tick and extends the trace of the wait by that round |
| Controller.Controller.SendPending | server/controller.py:170-174 | sends the last job taken to a worker that is least loaded and below the cap, keeping the invariant and the sends in step with the run log |
| Controller.LogSend | server/controller.py:163-172 | recording a send of the pending job to a least-loaded worker below the cap, with the job outstanding nowhere, keeps the sends in step with the run log |
| Controller.Controller.Run | server/controller.py:145-177 | `run` keeps the invariant and only adds sends. The run log is a field that only `NextJob` and `Dispatch` write; its new part matches the new sends: in order, the sends are the jobs taken from the iterator, each the head of what was upcoming at that moment, each sent once to a worker that was least loaded and below the cap then, and none outstanding at any worker when sent. The last job taken may be unsent only when the rounds ran out or a message faulted. When the iterator is exhausted, nothing is requeued and all 10000 numbers are minted. The stop event is set on exhaustion or stop |

## Left out

- ZeroMQ sockets, `poll`, `recv_multipart`/`send_multipart`, JSON decoding and the half-second sleep: inbound messages are a sequence of per-round batches (`Tick`) and sends are a list.
- `stop_event` is shared between processes; it is modelled as a flag read once per dispatched job, and concurrency is not modelled.
- `Controller.Controller.Run`: ends with `OutOfInput` when the finite sequence of rounds runs out while still waiting for a worker. The source would keep polling forever.
- `Controller.Controller.Run`: the registry and the requeue buffer at the end of the whole run are stated through the invariant and the run log only; the message-by-message traces are stated per wait, by `AwaitWorker`, and are not collected into one trace of the run.
- `_process_results` and all logging text: logging becomes the verdict, and job results are not kept.
- `datetime.strptime`, `hashlib.md5`, `uuid4` and `StringUtils.get_random_string_nospec`:
  - times are integers compared by their order;
  - the md5 key is the uninterpreted function `hexKey`;
  - session tokens and replacement-directory names are parameters;
  - job ids and start-up names are drawn from counters, which makes them distinct.
- A message without a `job_id` or `result` field would raise KeyError in the source; the model's message record always has both fields.
- The order of `dict.values()` and of `sorted` among equally loaded workers is left unspecified: the model picks any order.
- The treelib and `tree.dirtree` internals are not part of this model. The model rests on these assumptions about it:
  - a node is identified by its position in an arena;
  - `append_node` adds one fresh directory and appends its key to `nids` (`Namespace.NewDirectory` builds that directory: not on disk, one not-on-disk file entry per name);
  - `get_dir_by_name` is a lookup keyed by name, returning the tracked directory or `None` (`Namespace.DirTree.GetDirByName`);
  - `remove_dir_by_name` raises NodeIDAbsentError exactly when the name is absent, and touches neither `synced_nodes` nor `nids`;
  - `get_file_by_name` returns the first file entry of that name;
  - every `File` attribute and a node's `creation_time` start as `None` rather than absent. `ExpectedProps.ReadRaisesIff`, `ExpectedProps.FailNeverTypeError` and the TypeError verdicts rely on this: were the attribute absent, server/response_actions.py:150 and :352 would raise AttributeError instead.
- `build_recursive_tree` uses the `repr` of an md5 object as node id (server/controller.py:31). That is an object address, which can repeat, and treelib raises on a duplicate id. The model's positional ids cannot collide, so this failure is not modelled.
- Outcome records are assumed to always carry `error_message`, `data`, `timestamp` and `error_code`. The KeyError a missing field would raise (server/response_actions.py:32, 40, 90) is not modelled.
- The start-up tree and the shadow namespace are two separate structures. The shadow namespace's link to the start-up tree lives in the unseen dirtree module.
- The test's own error codes (`config.error_codes`) are assumed distinct from the errno numbers.
- `Controller.DirectoryTree.BuildRecursiveTree`: the shape of the result (`BuildLaid`) is proved only for a base without children. The method itself accepts any base.

## Notes on the code

- `read_success` flags a mismatch when the read time is *not after* the stored modify time (`read_time <= modify_time`). The model keeps this comparison as written.
- ENOENT on a file action whose error time is not after the file's creation time logs nothing and changes nothing. The model keeps this.
- `write_success` leaves the file's session token as it was.
- `rename_exist_success` names the destination entry after `get_dir_by_name(<source file name>)`, that is, a directory node or `None`. The model keeps this as `DirRef` or `NoName`.
- `mkdir_success` has no guard for an untracked directory, which raises AttributeError.
- An action outside the nine table keys, such as `truncate`, raises KeyError in the table lookup.

# Reconciliation engine of the iRODS automated ingest sync module

This project models the core of `sync_irods.py`, the module that keeps one
physical file and its logical path in an iRODS catalog in step. Each call of
`sync_data_from_file` does four things:

- It classifies the target as absent, a collection or a data object.
- It asks the optional policy hooks (`put`, `as_replica`, `to_leaf_resource`,
  `to_root_resource`, `to_resource_hier`, `sync`) what to do.
- It ensures the parent collections from the root down (`create_dirs`).
- It creates the data object by upload or by registration. Otherwise it
  re-uploads the object, updates its size and modify time after a
  consistency check, or hands it to the metadata no-op.

Every remote write passes through the event-hook dispatcher `call`, with the
default action as its fallback. The existence checks, the replica read and
the row query are made directly. The hook points are `on_coll_create`,
`on_data_obj_create` and `on_data_obj_modify`.

How the model is built:

- **Paths.** Logical and physical paths are sequences of segments. The
  empty sequence is `/`, and `Dirname` drops the last segment.
- **Catalog and server.** The catalog holds collections and data objects,
  and each object has a list of replicas (resource, physical path).
  `Remote.Apply` gives the server's answer to each write:
  - A collection cannot be created over a data object.
  - A plain registration needs a fresh path, and a replica registration
    (`regRepl` present) needs an existing object.
  - An upload cannot land on a collection.
  - A metadata write needs the object.
- **Runs and traces.** Every operation returns a `Run`, which holds the
  final catalog, the trace of events and a status. The trace records policy
  consultations, hook dispatches and remote writes. A failed write is
  recorded and stops the operation. Nothing already written is undone, as in
  the source, where exceptions propagate without rollback.
- **Hooks.** The hook module is a record of optional values. An event hook
  either delegates to the default action it is handed, replaces it with
  writes of its own, or raises. A replacing hook's writes are a function of
  the arguments it is handed, so an `on_coll_create` hook can act on the
  target of each level of the descent. A hook is "faithful" when it is
  undefined or delegates.
- **Options.** Python's `**options` hands every callee its own copy of the
  dictionary. So `destRescName` set inside `register_file` or `upload_file`
  stays local to it. By contrast, `regRepl` set by the engine reaches both
  `create_dirs` and the create dispatch.

Three kinds of results are proved:

- **Per-operation contracts.** Each operation has its own contract.
- **Per-branch lemmas.** One lemma per engine branch covers whole
  reconciliations, with any modelled hooks where the claim allows it and with
  faithful hooks otherwise.
- **Audit property.** For any modelled hooks, replaying the logged writes of a
  completed reconciliation rebuilds the catalog it ended with. Here "logged"
  (`Remote.Logged`, the `Audit` lemmas) refers to the model's event trace,
  not to the source's logger.

## Model

| member | source | states |
|---|---|---|
| Dispatch.Call | sync_irods.py:17-22 | with no hook the default runs unchanged; a defined hook is dispatched first and then either delegates to the default, replaces it by its own writes, or raises; no dispatch yields the root, collection or resource-name errors |
| Dispatch.CallDispatchesOnce | sync_irods.py:17-22 | a call dispatches through its own hook point exactly once when that hook is defined, never otherwise, and never through another point |
| Dispatch.FaithfulCall | sync_irods.py:17-22 | a delegating hook ends with the same catalog, status, creations and transfers as the default, and adds no write |
| Dispatch.CreateCollectionDefault | sync_irods.py:31-33 | `ccfunc` creates exactly the target collection, which succeeds iff no data object holds that path |
| Dispatch.CreateObjectDefault | sync_irods.py:149-153 | `cfunc` transfers once, by upload iff the put policy holds; it completes iff the target is no collection and, for a registration, `regRepl` is present iff the object exists; a registration appends one replica |
| Dispatch.ModifyObjectDefault | sync_irods.py:163-167 | `mfunc` re-uploads under the put policy and writes no metadata; without it, it transfers nothing and completes iff a replica backs the file |
| Dispatch.RunAction | sync_irods.py:93-94 | the defaults never dispatch a hook, and, with the modelled policy hooks that always answer, only remote refusals or the consistency check make them fail; `sync_file_meta` completes with an empty trace and the catalog unchanged |
| Ensurer.CreateDirs | sync_irods.py:25-35 | an existing target ends the descent with no event; a missing root fails with nothing written; the ensurer never reports the engine's own errors |
| Ensurer.MissingRoot | sync_irods.py:26-28 | whatever the hooks do, "cannot create root" is reported iff no prefix of the target exists, and then nothing is written |
| Ensurer.CreatedByOne | sync_irods.py:31-35 | one faithful level creates exactly its target, and succeeds iff that path is no data object |
| Ensurer.CreatesOnlyMissingPrefixes | sync_irods.py:25-35 | every collection created is a prefix of the target that was missing |
| Ensurer.CreatesRootDown | sync_irods.py:25-35 | each created collection is a strict prefix of every one created after it, so parents are created before children |
| Ensurer.NoCollectionCreatedTwice | sync_irods.py:25-35 | no collection is created twice in one descent |
| Ensurer.EstablishesChain | sync_irods.py:25-35 | after a completed descent the target and all its ancestors exist, collections stay closed under parents, data objects are untouched, and the new collections are exactly the created ones |
| Ensurer.Idempotent | sync_irods.py:25-35 | a second descent after a completed one completes with an empty trace |
| Ensurer.TargetAwareHook | sync_irods.py:20-35 | a replacing `on_coll_create` hook is handed each level's target: for every catalog and target, a hook that creates that target itself ends the descent with the same catalog, status and created collections as the default |
| Ensurer.LeavesObjectsAlone | sync_irods.py:25-35 | a faithful descent never changes the data objects |
| Ensurer.Completes | sync_irods.py:25-35 | with the root present and no prefix a data object, a faithful descent completes |
| Ensurer.CreatesOnlyFreePaths | sync_irods.py:31-33 | a completed faithful descent turns no data-object path into a collection |
| Ensurer.DescentWritesOnlyCollections | sync_irods.py:25-35 | a faithful descent transfers nothing, writes no metadata, and dispatches no data-object hook |
| Ensurer.DispatchesOnlyCollCreate | sync_irods.py:35 | whatever the hooks do, the descent dispatches through no hook other than `on_coll_create` |
| Writers.WithResource | sync_irods.py:38-39 | a resolved resource becomes `destRescName`; every other option is kept |
| Writers.RegisterFile | sync_irods.py:37-49 | one registration of the file at the target with the leaf resource when defined; it completes iff the server accepts it; a refused registration writes no metadata; otherwise it appends that replica and its last event sets the size (without modify time) on the target, naming `destRescName` as the resource, with no hierarchy and the registration's options |
| Writers.UploadFile | sync_irods.py:51-56 | one upload with the root resource when defined, and no metadata write; it completes iff the target is no collection and binds the target as an object |
| Writers.SyncFile | sync_irods.py:58-65 | the same transfer as an upload; on an existing object it completes with the catalog unchanged |
| Writers.HasMatchingRow | sync_irods.py:82-85 | the scan finds a row iff some replica has the file's physical path and, when a leaf is selected, lies on it |
| Writers.UpdateMetadata | sync_irods.py:67-91 | with no backing replica it fails with "wrong resource or path" and writes nothing; otherwise its only write, and last event, sets size and modify time for the selected hierarchy and leaf |
| Writers.RegisteredFileIsBacked | sync_irods.py:37-49 | a completed registration leaves a replica that passes the later consistency check on the same leaf and file |
| Writers.ScanAsWritten | sync_irods.py:82-85 | the scan as written binds the flag only to true, and does so iff a row matches |
| Writers.UpdateMetadataAsWritten | sync_irods.py:67-91 | as written, the update with no backing replica fails on the unbound flag and not with the intended error |
| Writers.FoundUnboundCounterexample | sync_irods.py:82-89 | an object whose only replica has another physical path tells the as-written update from the intended one |
| Engine.Classify | sync_irods.py:116-121 | the data-object check comes first, so only a path that is no data object can be reported as a collection |
| Engine.HasReplicaOn | sync_irods.py:138-140 | the replica scan answers true iff some replica lies on the leaf resource |
| Engine.Update | sync_irods.py:156-171 | unchanged content goes to the metadata no-op; changed content is vetoed iff the put policy holds and `sync` answers false; the sync hook is consulted only under the put policy |
| Engine.Decide | sync_irods.py:116-162 | a collection target is refused before any consultation; an absent target is created with the put policy; "no resource name defined" is raised iff an existing object is to gain a replica without a leaf hook; an existing object is re-created iff it lacks a replica on the leaf, with `regRepl` added; the sync hook is consulted iff content changed under the put policy on the modify path |
| Engine.Execute | sync_irods.py:145-171 | a refusal ends with its error, an empty trace and the catalog unchanged; a veto completes with nothing done; the create, modify and no-op branches never report the collection or resource-name errors, which only the decision raises |
| Engine.SyncDataFromFile | sync_irods.py:114-171 | a collection target fails with nothing written; with the modelled policy hooks that always answer, the resource-name error happens exactly in its case, before any write and with the catalog unchanged |
| SyncProps.AbsentDispatches | sync_irods.py:145-155 | whatever the hooks do, an absent target dispatches `on_data_obj_create` once iff its parents were ensured and the hook is defined, and never `on_data_obj_modify` |
| SyncProps.AbsentTarget | sync_irods.py:145-155 | with faithful hooks, an absent target is created: one transfer of the file, by upload iff the put policy holds, after every parent collection is created; the new object is the only new key and the namespace stays well formed |
| SyncProps.BlockedByObject | sync_irods.py:146 | below an existing data object the descent fails, so the run fails with nothing transferred and no create dispatch |
| SyncProps.AdditiveReplica | sync_irods.py:131-155 | an object lacking a replica on the leaf gains exactly one, registered with `regRepl` at the file's path; no collection is created and nothing else changes |
| SyncProps.ExistingLeafReplica | sync_irods.py:137-141 | an object that already has a replica on the leaf is not re-created: the decision is the modify branch (changed content) or the metadata no-op (unchanged content), the modify hook is dispatched once when defined and the create hook never, and with a faithful modify hook nothing is transferred or created and the catalog is unchanged |
| SyncProps.ExistingDispatches | sync_irods.py:156-171 | an existing object that is neither refused nor re-created dispatches `on_data_obj_modify` once when defined unless vetoed, and never `on_data_obj_create` |
| SyncProps.ContentChangedPut | sync_irods.py:156-165 | under the put policy, `sync` answering false leaves everything untouched and dispatches nothing; otherwise a faithful modify re-uploads to the same object without metadata writes |
| SyncProps.ContentChangedRegister | sync_irods.py:156-167 | without the put policy, a faithful modify completes iff a replica backs the file, fails otherwise with no write, and never changes the catalog |
| SyncProps.MetadataOnlyBranch | sync_irods.py:170-171 | unchanged content with a faithful hook completes with no write and the catalog unchanged |
| SyncProps.ExistingObjectKeepsCollections | sync_irods.py:114-171 | a run on an existing object creates no collection and keeps the namespace well formed |
| SyncProps.RerunCreatesNoCollections | sync_irods.py:114-171 | repeating a reconciliation after a completed creation creates no further collections |
| SyncProps.RegisterThenUpdate | sync_irods.py:37-49 | a file registered in place passes the consistency check on its next change, so the second run completes without a transfer |
| Audit.CallLogged | sync_irods.py:17-22 | whether a hook delegates, replaces or raises, a completed dispatch's catalog is the replay of its logged writes |
| Audit.CreateDirsLogged | sync_irods.py:25-35 | the descent's catalog is the replay of its logged writes |
| Audit.SyncDataFromFileLogged | sync_irods.py:114-171 | whatever the hooks do, a completed reconciliation's catalog is its start catalog with the logged writes replayed in order |

## Left out

- Session construction, `as_user` identity selection and the environment file (lines 103-114): they only choose the connection. The catalog is a parameter.
- Loading the handler module by name (lines 97-101): the hook module is given directly. Its policy answers are constants for one reconciliation.
- Logging: it has no effect on the catalog.
- `getsize` and `getmtime`: they are inputs (`FileStat`), with the modify time already truncated to whole seconds.
- The query mechanics at line 82: the rows are taken to be the target's replicas. The query by base name and parent collection is not modelled.
- `sync_metadata_from_file` (lines 173-174): it passes one positional argument too many to `sync_data_from_file`, so it can never reach the engine.
- The loop at line 138 reuses the name `replica`, overwriting the `as_replica` answer. It is not modelled, because the answer is not read after that point.
- Concurrency, including the race between the existence check and the create, since reconciliations may run in parallel workers; and network failures other than the server refusals listed in `Remote.Apply`.
- What an upload stores: an upload is modelled as binding the target to one replica in a vault path. Bytes, checksums and the server-side meaning of the options are not modelled.
- Metadata values are kept only in the trace. A metadata write leaves the modelled catalog unchanged.
- Relative or unnormalised logical and physical paths: a path is a sequence of segments from the root, so only absolute, normalised targets and file paths are expressible, although line 83 compares the physical path as a string. On a relative target the source's `create_dirs` never reaches `/`, because `dirname("")` is `""`, and it recurses until Python's recursion limit; that input is not modelled.
- Python truthiness: policy answers are booleans, and resource answers are strings.
- Policy hooks always answer: a policy hook (`put`, `as_replica`, `to_leaf_resource`, `to_root_resource`, `to_resource_hier`, `sync`) that raises, or that writes to the catalog through the session it is handed, is not modelled.
- Event hooks that misbehave in ways other than replacing the default with remote writes computed from their arguments or raising, such as calling the default twice, calling the default they are handed and then writing more, or mutating shared state between calls.
- EngineProps.CreateBranchOutcome: the create branch's success is proved only when no ancestor of the target is a data object. SyncProps.BlockedByObject covers the other case.
- SyncProps.AbsentTarget: it assumes `regRepl` is absent from the caller's options unless the put policy holds. A caller-supplied `regRepl` makes the registration a replica registration, which the server refuses for an absent object.

## Findings

| source | as written | input that shows it | evidently intended | confidence | as-written member | corrected member |
|---|---|---|---|---|---|---|
| sync_irods.py:82-89 | `found` is bound only inside the loop, when a row matches. If none matches, line 87 reads an unbound local and raises before the "wrong resource or path" error at line 89. | An existing object whose only replica has a different physical path from the file being synced. | Start with the flag false, so that a failed consistency check raises "wrong resource or path". | not executed; high | Writers.UpdateMetadataAsWritten, Writers.FoundUnboundCounterexample | Writers.UpdateMetadata |

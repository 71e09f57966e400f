/** Properties of a whole `sync_data_from_file` call, one per branch the
    engine can take, and of two calls in a row. */
module SyncProps {
  import opened Wrappers
  import opened Paths
  import opened Trace
  import opened Remote
  import opened Hooks
  import opened Writers
  import opened Dispatch
  import opened Ensurer
  import opened Engine
  import opened EngineProps

  /** Whatever the hooks do, an absent target dispatches `on_data_obj_create`
      once exactly when its parent collections were ensured and the hook is
      defined, and never dispatches `on_data_obj_modify`. */
  lemma AbsentDispatches(h: HookModule, c: Catalog, target: Path, path: Path, content: bool, opts: Options, fs: FileStat)
    requires target !in c.objs && target !in c.colls
    ensures var r := SyncDataFromFile(h, c, target, path, content, opts, fs);
            var dirs := CreateDirs(h, c, Dirname(target), Dirname(path), opts, fs);
            && Dispatches(r.trace, OnDataObjCreate) == (if dirs.status.Completed? && h.onDataObjCreate.Some? then 1 else 0)
            && Dispatches(r.trace, OnDataObjModify) == 0
  {
    var plan := Decide(h, c, target, content, opts);
    var put := PutPolicyOf(h);
    assert plan.decision == Create(put, opts);
    var e := Execute(h, c, target, path, opts, fs, plan.decision);
    QuietPrefix(plan.probes, e.trace);
    var dirs := CreateDirs(h, c, Dirname(target), Dirname(path), opts, fs);
    DispatchesOnlyCollCreate(h, c, Dirname(target), Dirname(path), opts, fs, OnDataObjCreate);
    DispatchesOnlyCollCreate(h, c, Dirname(target), Dirname(path), opts, fs, OnDataObjModify);
    if dirs.status.Completed? {
      var a := Args(target, path, opts);
      var call := Call(h, OnDataObjCreate, CreateObject(put), a, fs, dirs.cat);
      CallDispatchesOnce(h, OnDataObjCreate, CreateObject(put), a, fs, dirs.cat, OnDataObjCreate);
      CallDispatchesOnce(h, OnDataObjCreate, CreateObject(put), a, fs, dirs.cat, OnDataObjModify);
      DispatchesAppend(dirs.trace, call.trace, OnDataObjCreate);
      DispatchesAppend(dirs.trace, call.trace, OnDataObjModify);
    }
  }

  /** With faithful hooks, an absent target whose ancestors are no data
      objects is created: parents first, then one transfer (an upload under
      the put policy, a registration otherwise), keeping the namespace
      invariant. */
  lemma AbsentTarget(h: HookModule, c: Catalog, target: Path, path: Path, content: bool, opts: Options, fs: FileStat)
    requires WellFormed(c) && Faithful(h.onCollCreate) && Faithful(h.onDataObjCreate)
    requires target !in c.objs && target !in c.colls && ClearAncestry(c, target)
    requires PutPolicyOf(h) || RegRepl !in opts
    ensures var r := SyncDataFromFile(h, c, target, path, content, opts, fs);
            && r.status.Completed?
            && WellFormed(r.cat)
            && r.cat.objs.Keys == c.objs.Keys + {target}
            && (!PutPolicyOf(h) ==> r.cat.objs[target] == [Replica(ResourceOf(RegisterOptions(h, opts)), path)])
            && |Transfers(r.trace)| == 1
            && Transfers(r.trace)[0].Put? == PutPolicyOf(h)
            && Transfers(r.trace)[0].target == target && Transfers(r.trace)[0].phys == path
            && CreationsPrecedeTransfers(r.trace)
  {
    var plan := Decide(h, c, target, content, opts);
    var put := PutPolicyOf(h);
    assert plan.decision == Create(put, opts);
    var e := Execute(h, c, target, path, opts, fs, plan.decision);
    QuietPrefix(plan.probes, e.trace);
    CreateBranchOutcome(h, c, target, path, opts, put, opts, fs);
    CreateBranchTrace(h, c, target, path, opts, put, opts, fs);
  }

  /** The additive-replica path: the existing object gains one replica on
      the leaf resource, registered in replica mode, and nothing else in
      the catalog changes. */
  lemma AdditiveReplica(h: HookModule, c: Catalog, target: Path, path: Path, content: bool, opts: Options, fs: FileStat)
    requires WellFormed(c) && Faithful(h.onDataObjCreate)
    requires target in c.objs && !PutPolicyOf(h) && AsReplicaOf(h) && MissingLeafReplica(h, c, target)
    ensures var r := SyncDataFromFile(h, c, target, path, content, opts, fs);
            && r.status.Completed?
            && Created(r.trace) == []
            && Transfers(r.trace) == [Register(path, target, RegisterOptions(h, ReplicaOptions(opts)))]
            && RegRepl in RegisterOptions(h, ReplicaOptions(opts))
            && r.cat.colls == c.colls
            && r.cat.objs == c.objs[target := c.objs[target] + [Replica(h.toLeafResource.value, path)]]
            && WellFormed(r.cat)
            && Dispatches(r.trace, OnDataObjCreate) == (if h.onDataObjCreate.Some? then 1 else 0)
            && Dispatches(r.trace, OnDataObjModify) == 0
  {
    var plan := Decide(h, c, target, content, opts);
    var o := ReplicaOptions(opts);
    assert plan.decision == Create(false, o);
    var e := Execute(h, c, target, path, opts, fs, plan.decision);
    ReplicaExecution(h, c, target, path, opts, o, fs);
    QuietPrefix(plan.probes, e.trace);
  }

  /** The execution half of the additive-replica path: the parent exists,
      so the descent is silent and the create dispatch registers. */
  lemma ReplicaExecution(h: HookModule, c: Catalog, target: Path, path: Path, opts: Options, o: Options, fs: FileStat)
    requires WellFormed(c) && Faithful(h.onDataObjCreate)
    requires target in c.objs && h.toLeafResource.Some? && RegRepl in o
    ensures var e := Execute(h, c, target, path, opts, fs, Create(false, o));
            && e.status.Completed?
            && Created(e.trace) == []
            && Transfers(e.trace) == [Register(path, target, RegisterOptions(h, o))]
            && RegRepl in RegisterOptions(h, o)
            && e.cat.colls == c.colls
            && e.cat.objs == c.objs[target := c.objs[target] + [Replica(h.toLeafResource.value, path)]]
            && WellFormed(e.cat)
            && Dispatches(e.trace, OnDataObjCreate) == (if h.onDataObjCreate.Some? then 1 else 0)
            && Dispatches(e.trace, OnDataObjModify) == 0
  {
    assert Dirname(target) in c.colls;
    assert CreateDirs(h, c, Dirname(target), Dirname(path), o, fs) == Run(c, [], Completed);
    var a := Args(target, path, o);
    var call := Call(h, OnDataObjCreate, CreateObject(false), a, fs, c);
    assert [] + call.trace == call.trace;
    assert Execute(h, c, target, path, opts, fs, Create(false, o)) == call;
    assert RunAction(h, CreateObject(false), a, fs, c) == RegisterFile(h, c, a, fs);
    FaithfulCall(h, OnDataObjCreate, CreateObject(false), a, fs, c);
    CallDispatchesOnce(h, OnDataObjCreate, CreateObject(false), a, fs, c, OnDataObjCreate);
    CallDispatchesOnce(h, OnDataObjCreate, CreateObject(false), a, fs, c, OnDataObjModify);
    assert Lookup(RegisterOptions(h, o), RegRepl) == Lookup(o, RegRepl);
    assert ResourceOf(RegisterOptions(h, o)) == h.toLeafResource.value;
    AddObjectWellFormed(c, call.cat, target);
  }

  /** An object that already has a replica on the leaf resource is not
      registered again: the run falls through to the modify dispatch. */
  lemma ExistingLeafReplica(h: HookModule, c: Catalog, target: Path, path: Path, content: bool, opts: Options, fs: FileStat)
    requires target in c.objs && !PutPolicyOf(h) && AsReplicaOf(h) && h.toLeafResource.Some?
    requires exists i :: 0 <= i < |c.objs[target]| && c.objs[target][i].resource == h.toLeafResource.value
    ensures var r := SyncDataFromFile(h, c, target, path, content, opts, fs);
            && Dispatches(r.trace, OnDataObjCreate) == 0
            && Dispatches(r.trace, OnDataObjModify) == (if h.onDataObjModify.Some? then 1 else 0)
    ensures Decide(h, c, target, content, opts).decision == (if content then Modify(false) else MetadataOnly)
    ensures var r := SyncDataFromFile(h, c, target, path, content, opts, fs);
            Faithful(h.onDataObjModify) ==> Transfers(r.trace) == [] && Created(r.trace) == [] && r.cat == c
  {
    ExistingDispatches(h, c, target, path, content, opts, fs);
    var plan := Decide(h, c, target, content, opts);
    assert !MissingLeafReplica(h, c, target);
    var e := Execute(h, c, target, path, opts, fs, plan.decision);
    QuietPrefix(plan.probes, e.trace);
    if Faithful(h.onDataObjModify) {
      if content {
        UpdateExecution(h, c, target, path, opts, fs);
      } else {
        MetadataOnlyExecution(h, c, target, path, opts, fs);
        NoWritesNothingWritten(e.trace);
      }
    }
  }

  /** Whatever the hooks do, an existing object that is neither refused nor
      given a new replica is dispatched to `on_data_obj_modify` once when
      the hook is defined, unless the sync policy vetoed the transfer. */
  lemma ExistingDispatches(h: HookModule, c: Catalog, target: Path, path: Path, content: bool, opts: Options, fs: FileStat)
    requires target in c.objs
    requires !(!PutPolicyOf(h) && AsReplicaOf(h) && (h.toLeafResource.None? || MissingLeafReplica(h, c, target)))
    ensures var r := SyncDataFromFile(h, c, target, path, content, opts, fs);
            var vetoed := content && PutPolicyOf(h) && h.sync == Some(false);
            && Dispatches(r.trace, OnDataObjCreate) == 0
            && Dispatches(r.trace, OnDataObjModify) == (if !vetoed && h.onDataObjModify.Some? then 1 else 0)
  {
    var plan := Decide(h, c, target, content, opts);
    var e := Execute(h, c, target, path, opts, fs, plan.decision);
    QuietPrefix(plan.probes, e.trace);
    var a := Args(target, path, opts);
    match plan.decision {
      case Modify(put) =>
        CallDispatchesOnce(h, OnDataObjModify, ModifyObject(put), a, fs, c, OnDataObjCreate);
        CallDispatchesOnce(h, OnDataObjModify, ModifyObject(put), a, fs, c, OnDataObjModify);
      case MetadataOnly =>
        CallDispatchesOnce(h, OnDataObjModify, SyncFileMeta, a, fs, c, OnDataObjCreate);
        CallDispatchesOnce(h, OnDataObjModify, SyncFileMeta, a, fs, c, OnDataObjModify);
      case Vetoed =>
      case Create(_, _) =>
      case Refuse(_) =>
    }
  }

  /** Changed content under the put policy: a sync policy answering false
      leaves everything untouched; otherwise a faithful modify re-uploads
      the file to the same object and writes no metadata. */
  lemma ContentChangedPut(h: HookModule, c: Catalog, target: Path, path: Path, opts: Options, fs: FileStat)
    requires WellFormed(c) && target in c.objs && PutPolicyOf(h)
    ensures var r := SyncDataFromFile(h, c, target, path, true, opts, fs);
            h.sync == Some(false) ==>
              r.status.Completed? && r.cat == c && NoWrites(r.trace) && NoDispatches(r.trace)
    ensures var r := SyncDataFromFile(h, c, target, path, true, opts, fs);
            h.sync != Some(false) && Faithful(h.onDataObjModify) ==>
              && r.status.Completed? && r.cat == c
              && Transfers(r.trace) == [Put(path, target, PutOptions(h, opts))]
              && NoMetaWrites(r.trace) && Created(r.trace) == []
  {
    var plan := Decide(h, c, target, true, opts);
    var e := Execute(h, c, target, path, opts, fs, plan.decision);
    QuietPrefix(plan.probes, e.trace);
    if h.sync == Some(false) {
      assert plan.decision == Vetoed;
      assert plan.probes + [] == plan.probes;
      MetaOnlyTrace(plan.probes);
    } else if Faithful(h.onDataObjModify) {
      assert plan.decision == Modify(true);
      UploadExecution(h, c, target, path, opts, fs);
    }
  }

  /** A faithful modify under the put policy re-uploads onto the existing
      object. */
  lemma UploadExecution(h: HookModule, c: Catalog, target: Path, path: Path, opts: Options, fs: FileStat)
    requires Faithful(h.onDataObjModify) && target in c.objs && target !in c.colls
    ensures var e := Execute(h, c, target, path, opts, fs, Modify(true));
            && e.status.Completed? && e.cat == c
            && Transfers(e.trace) == [Put(path, target, PutOptions(h, opts))]
            && NoMetaWrites(e.trace) && Created(e.trace) == []
  {
    var a := Args(target, path, opts);
    assert RunAction(h, ModifyObject(true), a, fs, c) == SyncFile(h, c, a);
    FaithfulCall(h, OnDataObjModify, ModifyObject(true), a, fs, c);
  }

  /** Changed content without the put policy: a faithful modify updates the
      object's metadata exactly when one of its replicas is backed by this
      file on the selected resource, and otherwise fails without a write. */
  lemma ContentChangedRegister(h: HookModule, c: Catalog, target: Path, path: Path, opts: Options, fs: FileStat)
    requires target in c.objs && !PutPolicyOf(h) && Faithful(h.onDataObjModify)
    requires !(AsReplicaOf(h) && (h.toLeafResource.None? || MissingLeafReplica(h, c, target)))
    ensures var r := SyncDataFromFile(h, c, target, path, true, opts, fs);
            && r.cat == c && Created(r.trace) == [] && Transfers(r.trace) == []
            && (r.status.Completed? <==> Backed(c, target, h.toLeafResource, path))
            && (!Backed(c, target, h.toLeafResource, path) ==>
                  r.status == Failed(WrongResourceOrPath) && NoWrites(r.trace))
  {
    var plan := Decide(h, c, target, true, opts);
    assert plan.decision == Modify(false);
    var e := Execute(h, c, target, path, opts, fs, plan.decision);
    QuietPrefix(plan.probes, e.trace);
    UpdateExecution(h, c, target, path, opts, fs);
  }

  /** A faithful modify without the put policy runs the guarded metadata
      update. */
  lemma UpdateExecution(h: HookModule, c: Catalog, target: Path, path: Path, opts: Options, fs: FileStat)
    requires Faithful(h.onDataObjModify)
    ensures var e := Execute(h, c, target, path, opts, fs, Modify(false));
            && e.cat == c && Created(e.trace) == [] && Transfers(e.trace) == []
            && (e.status.Completed? <==> Backed(c, target, h.toLeafResource, path))
            && (!Backed(c, target, h.toLeafResource, path) ==>
                  e.status == Failed(WrongResourceOrPath) && NoWrites(e.trace))
  {
    var a := Args(target, path, opts);
    assert RunAction(h, ModifyObject(false), a, fs, c) == UpdateMetadata(h, c, a, fs);
    FaithfulCall(h, OnDataObjModify, ModifyObject(false), a, fs, c);
  }

  /** Unchanged content: the modify dispatch carries the metadata no-op,
      so a faithful hook leaves the catalog alone and writes nothing. */
  lemma MetadataOnlyBranch(h: HookModule, c: Catalog, target: Path, path: Path, opts: Options, fs: FileStat)
    requires target in c.objs && Faithful(h.onDataObjModify)
    requires !(!PutPolicyOf(h) && AsReplicaOf(h) && (h.toLeafResource.None? || MissingLeafReplica(h, c, target)))
    ensures var r := SyncDataFromFile(h, c, target, path, false, opts, fs);
            r.status.Completed? && r.cat == c && NoWrites(r.trace)
  {
    var plan := Decide(h, c, target, false, opts);
    assert plan.decision == MetadataOnly;
    var e := Execute(h, c, target, path, opts, fs, plan.decision);
    MetadataOnlyExecution(h, c, target, path, opts, fs);
    QuietPrefix(plan.probes, e.trace);
  }

  /** A faithful modify on unchanged content runs the metadata no-op. */
  lemma MetadataOnlyExecution(h: HookModule, c: Catalog, target: Path, path: Path, opts: Options, fs: FileStat)
    requires Faithful(h.onDataObjModify)
    ensures var e := Execute(h, c, target, path, opts, fs, MetadataOnly);
            e.status.Completed? && e.cat == c && NoWrites(e.trace) && Created(e.trace) == []
  {
    FaithfulCall(h, OnDataObjModify, SyncFileMeta, Args(target, path, opts), fs, c);
  }

  /** With faithful hooks, a run on an existing data object creates no
      collection, leaves the collections as they were and keeps the
      namespace invariant. */
  lemma ExistingObjectKeepsCollections(h: HookModule, c: Catalog, target: Path, path: Path, content: bool, opts: Options, fs: FileStat)
    requires WellFormed(c) && target in c.objs
    requires Faithful(h.onDataObjCreate) && Faithful(h.onDataObjModify)
    ensures var r := SyncDataFromFile(h, c, target, path, content, opts, fs);
            Created(r.trace) == [] && r.cat.colls == c.colls && WellFormed(r.cat)
  {
    var plan := Decide(h, c, target, content, opts);
    var e := Execute(h, c, target, path, opts, fs, plan.decision);
    QuietPrefix(plan.probes, e.trace);
    match plan.decision {
      case Create(_, o) =>
        ReplicaExecution(h, c, target, path, opts, o, fs);
      case Modify(put) =>
        if put {
          UploadExecution(h, c, target, path, opts, fs);
        } else {
          UpdateExecution(h, c, target, path, opts, fs);
        }
      case MetadataOnly =>
        MetadataOnlyExecution(h, c, target, path, opts, fs);
      case Vetoed =>
      case Refuse(_) =>
    }
  }

  /** With faithful hooks, running the engine again on the catalog a
      completed creation left behind creates no further collections. */
  lemma RerunCreatesNoCollections(h: HookModule, c: Catalog, target: Path, path: Path, content: bool, content': bool, opts: Options, fs: FileStat, fs': FileStat)
    requires WellFormed(c) && Faithful(h.onCollCreate) && Faithful(h.onDataObjCreate) && Faithful(h.onDataObjModify)
    requires target !in c.objs && target !in c.colls && ClearAncestry(c, target)
    requires PutPolicyOf(h) || RegRepl !in opts
    ensures var r := SyncDataFromFile(h, c, target, path, content, opts, fs);
            var r' := SyncDataFromFile(h, r.cat, target, path, content', opts, fs');
            Created(r'.trace) == [] && r'.cat.colls == r.cat.colls
  {
    var r := SyncDataFromFile(h, c, target, path, content, opts, fs);
    AbsentTarget(h, c, target, path, content, opts, fs);
    ExistingObjectKeepsCollections(h, r.cat, target, path, content', opts, fs');
  }

  /** A file registered in place passes the consistency check the next time
      it changes: the second run updates its metadata and completes. */
  lemma RegisterThenUpdate(h: HookModule, c: Catalog, target: Path, path: Path, content: bool, opts: Options, fs: FileStat, fs': FileStat)
    requires WellFormed(c) && Faithful(h.onCollCreate) && Faithful(h.onDataObjCreate) && Faithful(h.onDataObjModify)
    requires target !in c.objs && target !in c.colls && ClearAncestry(c, target)
    requires !PutPolicyOf(h) && RegRepl !in opts
    requires !AsReplicaOf(h) || h.toLeafResource.Some?
    ensures var r := SyncDataFromFile(h, c, target, path, content, opts, fs);
            var r' := SyncDataFromFile(h, r.cat, target, path, true, opts, fs');
            r'.status.Completed? && r'.cat == r.cat && Transfers(r'.trace) == []
  {
    var r := SyncDataFromFile(h, c, target, path, content, opts, fs);
    AbsentTarget(h, c, target, path, content, opts, fs);
    var rows := r.cat.objs[target];
    assert rows == [Replica(ResourceOf(RegisterOptions(h, opts)), path)];
    assert RowMatches(rows[0], h.toLeafResource, path);
    assert Rows(r.cat, target) == rows;
    assert Backed(r.cat, target, h.toLeafResource, path);
    if h.toLeafResource.Some? {
      assert rows[0].resource == h.toLeafResource.value;
      assert !MissingLeafReplica(h, r.cat, target);
    }
    ContentChangedRegister(h, r.cat, target, path, opts, fs');
  }

  /** With a faithful `on_coll_create`, an absent target below an existing
      data object cannot be created: the descent fails at that path, so
      the run fails with nothing transferred and no create dispatch. */
  lemma BlockedByObject(h: HookModule, c: Catalog, target: Path, path: Path, content: bool, opts: Options, fs: FileStat, j: nat)
    requires WellFormed(c) && Faithful(h.onCollCreate)
    requires target !in c.objs && target !in c.colls
    requires j < |target| && target[..j] in c.objs
    ensures var r := SyncDataFromFile(h, c, target, path, content, opts, fs);
            && r.status.Failed?
            && Transfers(r.trace) == []
            && Dispatches(r.trace, OnDataObjCreate) == 0
  {
    var d := Dirname(target);
    var dirs := CreateDirs(h, c, d, Dirname(path), opts, fs);
    EstablishesChain(h, c, d, Dirname(path), opts, fs);
    CreatesOnlyFreePaths(h, c, d, Dirname(path), opts, fs);
    assert target[..j] == d[..j];
    assert !dirs.status.Completed?;
    var plan := Decide(h, c, target, content, opts);
    assert plan.decision == Create(PutPolicyOf(h), opts);
    QuietPrefix(plan.probes, dirs.trace);
    DescentWritesOnlyCollections(h, c, d, Dirname(path), opts, fs);
    AbsentDispatches(h, c, target, path, content, opts, fs);
  }
}

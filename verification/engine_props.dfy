/** Properties of the reconciliation engine, branch by branch. */
module EngineProps {
  import opened Paths
  import opened Trace
  import opened Remote
  import opened Hooks
  import opened Writers
  import opened Dispatch
  import opened Ensurer
  import opened Engine

  /** No proper prefix of the target is a data object. */
  ghost predicate ClearAncestry(c: Catalog, target: Path)
  {
    forall j :: 0 <= j < |target| ==> target[..j] !in c.objs
  }

  /** The `on_data_obj_create` dispatch with the `cfunc` default. */
  function CreateCall(h: HookModule, c: Catalog, target: Path, path: Path, put: bool, o: Options, fs: FileStat): Run
  {
    Call(h, OnDataObjCreate, CreateObject(put), Args(target, path, o), fs, c)
  }

  /** A faithful `on_data_obj_create` dispatch is `cfunc`, possibly behind
      the hook's dispatch event. */
  lemma FaithfulCreateCall(h: HookModule, c: Catalog, target: Path, path: Path, put: bool, o: Options, fs: FileStat)
    requires Faithful(h.onDataObjCreate)
    ensures var r := CreateCall(h, c, target, path, put, o, fs);
            var d := CreateObjectDefault(h, put, Args(target, path, o), fs, c);
            && r.cat == d.cat && r.status == d.status
            && Transfers(r.trace) == Transfers(d.trace) && Created(r.trace) == []
            && Dispatches(r.trace, OnDataObjCreate) == (if h.onDataObjCreate.Some? then 1 else 0)
            && Dispatches(r.trace, OnDataObjModify) == 0
  {
    var a := Args(target, path, o);
    var d := CreateObjectDefault(h, put, a, fs, c);
    assert RunAction(h, CreateObject(put), a, fs, c) == d;
    CallDispatchesOnce(h, OnDataObjCreate, CreateObject(put), a, fs, c, OnDataObjCreate);
    CallDispatchesOnce(h, OnDataObjCreate, CreateObject(put), a, fs, c, OnDataObjModify);
    if h.onDataObjCreate.Some? {
      TransfersAppend([HookCalled(OnDataObjCreate, CreateObject(put), a)], d.trace);
      CreatedAppend([HookCalled(OnDataObjCreate, CreateObject(put), a)], d.trace);
    }
  }

  /** The descent ahead of a create completes and leaves data objects alone. */
  lemma DescentCompletes(h: HookModule, c: Catalog, target: Path, path: Path, o: Options, fs: FileStat)
    requires WellFormed(c) && Faithful(h.onCollCreate)
    requires target !in c.colls && ClearAncestry(c, target)
    ensures var dirs := CreateDirs(h, c, Dirname(target), Dirname(path), o, fs);
            target != Root && dirs.status.Completed? && dirs.cat.objs == c.objs
  {
    var d := Dirname(target);
    forall j | 0 <= j <= |d|
      ensures d[..j] !in c.objs
    {
      assert d[..j] == target[..j];
    }
    Completes(h, c, d, Dirname(path), o, fs);
    LeavesObjectsAlone(h, c, d, Dirname(path), o, fs);
  }

  /** After the descent the parent exists, the target is still no
      collection, and every new collection is a proper prefix of the target. */
  lemma DescentCollections(h: HookModule, c: Catalog, target: Path, path: Path, o: Options, fs: FileStat)
    requires WellFormed(c) && Faithful(h.onCollCreate)
    requires target !in c.colls && ClearAncestry(c, target)
    ensures var dirs := CreateDirs(h, c, Dirname(target), Dirname(path), o, fs);
            && Dirname(target) in dirs.cat.colls
            && target !in dirs.cat.colls
            && AncestorClosed(dirs.cat)
            && c.colls <= dirs.cat.colls
            && (forall p :: p in dirs.cat.colls ==> p in c.colls || p < target)
  {
    var d := Dirname(target);
    var dirs := CreateDirs(h, c, d, Dirname(path), o, fs);
    DescentCompletes(h, c, target, path, o, fs);
    EstablishesChain(h, c, d, Dirname(path), o, fs);
    CreatesOnlyMissingPrefixes(h, c, d, Dirname(path), o, fs);
    assert d[..|d|] == d;
    assert |d| + 1 == |target|;
    var cs := Created(dirs.trace);
    assert forall i :: 0 <= i < |cs| ==> cs[i] <= d;
    forall p | p in dirs.cat.colls && p !in c.colls
      ensures p < target
    {
      assert p in cs;
      var i :| 0 <= i < |cs| && cs[i] == p;
    }
  }

  /** The descent ahead of a create keeps the namespace invariant and
      neither transfers nor dispatches a data-object hook. */
  lemma CreateDescent(h: HookModule, c: Catalog, target: Path, path: Path, o: Options, fs: FileStat)
    requires WellFormed(c) && Faithful(h.onCollCreate)
    requires target !in c.colls && ClearAncestry(c, target)
    ensures var dirs := CreateDirs(h, c, Dirname(target), Dirname(path), o, fs);
            && target != Root
            && dirs.status.Completed?
            && dirs.cat.objs == c.objs
            && WellFormed(dirs.cat)
            && Dirname(target) in dirs.cat.colls
            && target !in dirs.cat.colls
            && Transfers(dirs.trace) == []
            && Dispatches(dirs.trace, OnDataObjCreate) == 0 && Dispatches(dirs.trace, OnDataObjModify) == 0
  {
    var dirs := CreateDirs(h, c, Dirname(target), Dirname(path), o, fs);
    DescentCompletes(h, c, target, path, o, fs);
    DescentCollections(h, c, target, path, o, fs);
    DescentWritesOnlyCollections(h, c, Dirname(target), Dirname(path), o, fs);
    forall p | p in dirs.cat.colls
      ensures p !in dirs.cat.objs
    {
      if p !in c.colls {
        assert p == target[..|p|];
      }
    }
  }

  /** The create branch is the descent followed by the create dispatch. */
  lemma CreateBranchSplits(h: HookModule, c: Catalog, target: Path, path: Path, opts: Options, put: bool, o: Options, fs: FileStat)
    requires CreateDirs(h, c, Dirname(target), Dirname(path), o, fs).status.Completed?
    ensures var dirs := CreateDirs(h, c, Dirname(target), Dirname(path), o, fs);
            Execute(h, c, target, path, opts, fs, Create(put, o))
            == Prefix(dirs.trace, CreateCall(h, dirs.cat, target, path, put, o, fs))
  {
  }

  /** With faithful hooks on a well-formed catalog, the create branch
      completes, binds the target as a data object (registering a replica
      of the physical file when `put` does not hold) and keeps the
      namespace invariant. */
  lemma CreateBranchOutcome(h: HookModule, c: Catalog, target: Path, path: Path, opts: Options, put: bool, o: Options, fs: FileStat)
    requires WellFormed(c) && Faithful(h.onCollCreate) && Faithful(h.onDataObjCreate)
    requires target !in c.colls && ClearAncestry(c, target)
    requires put || (RegRepl in o <==> target in c.objs)
    ensures var r := Execute(h, c, target, path, opts, fs, Create(put, o));
            && r.status.Completed?
            && WellFormed(r.cat)
            && r.cat.objs.Keys == c.objs.Keys + {target}
            && (!put ==> r.cat.objs[target] == Rows(c, target) + [Replica(ResourceOf(RegisterOptions(h, o)), path)])
  {
    var dirs := CreateDirs(h, c, Dirname(target), Dirname(path), o, fs);
    CreateDescent(h, c, target, path, o, fs);
    FaithfulCreateCall(h, dirs.cat, target, path, put, o, fs);
    assert Rows(dirs.cat, target) == Rows(c, target);
    CreateBranchSplits(h, c, target, path, opts, put, o, fs);
    var r := Execute(h, c, target, path, opts, fs, Create(put, o));
    AddObjectWellFormed(dirs.cat, r.cat, target);
  }

  /** With faithful hooks on a well-formed catalog, the create branch
      dispatches `on_data_obj_create` once when it is defined, transfers
      exactly once (an upload when `put` holds, a registration otherwise),
      and does so after every collection it created. */
  lemma CreateBranchTrace(h: HookModule, c: Catalog, target: Path, path: Path, opts: Options, put: bool, o: Options, fs: FileStat)
    requires WellFormed(c) && Faithful(h.onCollCreate) && Faithful(h.onDataObjCreate)
    requires target !in c.colls && ClearAncestry(c, target)
    ensures var r := Execute(h, c, target, path, opts, fs, Create(put, o));
            && |Transfers(r.trace)| == 1
            && Transfers(r.trace)[0].Put? == put
            && Transfers(r.trace)[0].target == target && Transfers(r.trace)[0].phys == path
            && CreationsPrecedeTransfers(r.trace)
            && Dispatches(r.trace, OnDataObjCreate) == (if h.onDataObjCreate.Some? then 1 else 0)
            && Dispatches(r.trace, OnDataObjModify) == 0
  {
    var dirs := CreateDirs(h, c, Dirname(target), Dirname(path), o, fs);
    CreateDescent(h, c, target, path, o, fs);
    var call := CreateCall(h, dirs.cat, target, path, put, o, fs);
    FaithfulCreateCall(h, dirs.cat, target, path, put, o, fs);
    CreateBranchSplits(h, c, target, path, opts, put, o, fs);
    TransfersAppend(dirs.trace, call.trace);
    DispatchesAppend(dirs.trace, call.trace, OnDataObjCreate);
    DispatchesAppend(dirs.trace, call.trace, OnDataObjModify);
    PhasesOrdered(dirs.trace, call.trace);
  }
}

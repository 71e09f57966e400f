/** The trace is a faithful log of the run: whatever the hooks do, replaying
    the remote writes of a completed run against the catalog it started
    from yields the catalog it ended with. */
module Audit {
  import opened Wrappers
  import opened Paths
  import opened Trace
  import opened Remote
  import opened Hooks
  import opened Writers
  import opened Dispatch
  import opened Ensurer
  import opened Engine

  /** Registration and its size update are both logged. */
  lemma RegisterFileLogged(h: HookModule, c: Catalog, a: Args, fs: FileStat)
    ensures Logged(c, RegisterFile(h, c, a, fs))
  {
    var opts := RegisterOptions(h, a.opts);
    var probe := Consult(h.toLeafResource, LeafResourcePolicy);
    var registered := Emit(c, Register(a.path, a.target, opts));
    EmitLogged(c, Register(a.path, a.target, opts));
    if registered.status.Completed? {
      var info := ObjInfo(a.target, None, Lookup(opts, DestRescName));
      var e := ModMeta(info, MetaUpdate(fs.size, None), opts);
      EmitLogged(registered.cat, e);
      SequenceLogged(c, registered, Emit(registered.cat, e));
      PrefixNoWritesLogged(c, probe, Prefix(registered.trace, Emit(registered.cat, e)));
    }
  }

  /** An upload is its one logged transfer. */
  lemma UploadFileLogged(h: HookModule, c: Catalog, a: Args)
    ensures Logged(c, UploadFile(h, c, a))
  {
    var e := Put(a.path, a.target, PutOptions(h, a.opts));
    EmitLogged(c, e);
    PrefixNoWritesLogged(c, Consult(h.toRootResource, RootResourcePolicy), Emit(c, e));
  }

  /** A metadata update replays to the unchanged catalog. */
  lemma UpdateMetadataLogged(h: HookModule, c: Catalog, a: Args, fs: FileStat)
    ensures Logged(c, UpdateMetadata(h, c, a, fs))
  {
    var r := UpdateMetadata(h, c, a, fs);
    if r.status.Completed? {
      var t := r.trace;
      var probes := t[..|t| - 1];
      var e := t[|t| - 1];
      assert t == probes + [e];
      assert a.target in c.objs;
      ReplayNoWrites(c, probes);
      ReplayAppend(c, probes, [e], c);
    }
  }

  /** Every default action is logged. */
  lemma RunActionLogged(h: HookModule, act: Action, a: Args, fs: FileStat, c: Catalog)
    ensures Logged(c, RunAction(h, act, a, fs, c))
  {
    match act {
      case CreateCollection => EmitLogged(c, CreateColl(a.target));
      case CreateObject(put) =>
        if put { UploadFileLogged(h, c, a); } else { RegisterFileLogged(h, c, a, fs); }
      case ModifyObject(put) =>
        if put { UploadFileLogged(h, c, a); } else { UpdateMetadataLogged(h, c, a, fs); }
      case SyncFileMeta =>
    }
  }

  /** A dispatch is logged whether the hook delegates, replaces the default
      with its own writes, or raises. */
  lemma CallLogged(h: HookModule, point: EventHook, act: Action, a: Args, fs: FileStat, c: Catalog)
    ensures Logged(c, Call(h, point, act, a, fs, c))
  {
    var called := [HookCalled(point, act, a)];
    assert NoWrites(called);
    match Handler(h, point) {
      case None => RunActionLogged(h, act, a, fs, c);
      case Some(o) =>
        match o {
          case Delegate =>
            RunActionLogged(h, act, a, fs, c);
            PrefixNoWritesLogged(c, called, RunAction(h, act, a, fs, c));
          case Replace(effects) =>
            ApplyAllLogged(c, effects(a));
            PrefixNoWritesLogged(c, called, ApplyAll(c, effects(a)));
          case Raise(_) =>
        }
    }
  }

  /** The ensurer's descent is logged, collection by collection. */
  lemma {:induction false} CreateDirsLogged(h: HookModule, c: Catalog, target: Path, path: Path, opts: Options, fs: FileStat)
    ensures Logged(c, CreateDirs(h, c, target, path, opts, fs))
    decreases |target|
  {
    if target !in c.colls && target != Root {
      var parent := CreateDirs(h, c, Dirname(target), Dirname(path), opts, fs);
      CreateDirsLogged(h, c, Dirname(target), Dirname(path), opts, fs);
      if parent.status.Completed? {
        var one := CreateOne(h, parent.cat, target, path, opts, fs);
        assert CreateDirs(h, c, target, path, opts, fs) == Prefix(parent.trace, one);
        CallLogged(h, OnCollCreate, CreateCollection, Args(target, path, opts), fs, parent.cat);
        SequenceLogged(c, parent, one);
      }
    }
  }

  /** Every decision's execution is logged. */
  lemma ExecuteLogged(h: HookModule, c: Catalog, target: Path, path: Path, opts: Options, fs: FileStat, d: Decision)
    ensures Logged(c, Execute(h, c, target, path, opts, fs, d))
  {
    match d {
      case Create(put, o) =>
        var dirs := CreateDirs(h, c, Dirname(target), Dirname(path), o, fs);
        CreateDirsLogged(h, c, Dirname(target), Dirname(path), o, fs);
        if dirs.status.Completed? {
          var a := Args(target, path, o);
          CallLogged(h, OnDataObjCreate, CreateObject(put), a, fs, dirs.cat);
          SequenceLogged(c, dirs, Call(h, OnDataObjCreate, CreateObject(put), a, fs, dirs.cat));
        }
      case Modify(put) => CallLogged(h, OnDataObjModify, ModifyObject(put), Args(target, path, opts), fs, c);
      case MetadataOnly => CallLogged(h, OnDataObjModify, SyncFileMeta, Args(target, path, opts), fs, c);
      case Vetoed =>
      case Refuse(_) =>
    }
  }

  /** Whatever the hooks do, a completed reconciliation's catalog is its
      starting catalog with the logged writes replayed in order. */
  lemma SyncDataFromFileLogged(h: HookModule, c: Catalog, target: Path, path: Path, content: bool, opts: Options, fs: FileStat)
    ensures Logged(c, SyncDataFromFile(h, c, target, path, content, opts, fs))
  {
    var plan := Decide(h, c, target, content, opts);
    ExecuteLogged(h, c, target, path, opts, fs, plan.decision);
    PrefixNoWritesLogged(c, plan.probes, Execute(h, c, target, path, opts, fs, plan.decision));
  }
}

/** The three object writers and the metadata updater of the sync module:
    `register_file`, `upload_file`, `sync_file` and `update_metadata`. */
module Writers {
  import opened Wrappers
  import opened Paths
  import opened Trace
  import opened Remote
  import opened Hooks

  /** What the local filesystem reports for the physical file: its size in
      bytes and its modification time, already truncated to whole seconds. */
  datatype FileStat = FileStat(size: nat, mtime: int)

  /** The options with `destRescName` set to the resolved resource, when a
      resource was resolved; every other option is kept as it is. */
  function WithResource(opts: Options, resource: Option<string>): (o: Options)
    ensures resource.Some? ==> Lookup(o, DestRescName) == resource
    ensures resource.None? ==> o == opts
    ensures forall k :: k != DestRescName ==> Lookup(o, k) == Lookup(opts, k)
  {
    if resource.Some? then opts[DestRescName := resource.value] else opts
  }

  /** The options `register_file` registers with. */
  function RegisterOptions(h: HookModule, opts: Options): Options
  {
    WithResource(opts, h.toLeafResource)
  }

  /** The options `upload_file` and `sync_file` transfer with. */
  function PutOptions(h: HookModule, opts: Options): Options
  {
    WithResource(opts, h.toRootResource)
  }

  /** Link the physical file into the catalog without copying it, then set
      the new object's size from the file. */
  function RegisterFile(h: HookModule, c: Catalog, a: Args, fs: FileStat): (r: Run)
    ensures Created(r.trace) == [] && NoDispatches(r.trace)
    ensures Transfers(r.trace) == [Register(a.path, a.target, RegisterOptions(h, a.opts))]
    ensures Lookup(RegisterOptions(h, a.opts), DestRescName)
            == (if h.toLeafResource.Some? then h.toLeafResource else Lookup(a.opts, DestRescName))
    ensures r.status.Failed? ==> r.status.error.RemoteFailure? && NoMetaWrites(r.trace)
    ensures r.status.Completed? <==> a.target !in c.colls && (RegRepl in a.opts <==> a.target in c.objs)
    ensures r.status.Completed? ==>
              && r.cat.colls == c.colls
              && r.cat.objs == c.objs[a.target := Rows(c, a.target) + [Replica(ResourceOf(RegisterOptions(h, a.opts)), a.path)]]
              && r.trace[|r.trace| - 1]
                 == ModMeta(ObjInfo(a.target, None, Lookup(RegisterOptions(h, a.opts), DestRescName)),
                            MetaUpdate(fs.size, None), RegisterOptions(h, a.opts))
              && (r.trace[|r.trace| - 1].info.rescName.Some?
                  <==> DestRescName in RegisterOptions(h, a.opts))
  {
    var opts := RegisterOptions(h, a.opts);
    var probe := Consult(h.toLeafResource, LeafResourcePolicy);
    var registered := Emit(c, Register(a.path, a.target, opts));
    if registered.status.Failed? then
      OneTransferTrace(probe, Register(a.path, a.target, opts), []);
      assert probe + registered.trace == probe + [Register(a.path, a.target, opts)] + [];
      Prefix(probe, registered)
    else
      var info := ObjInfo(a.target, None, Lookup(opts, DestRescName));
      var meta := Emit(registered.cat, ModMeta(info, MetaUpdate(fs.size, None), opts));
      OneTransferTrace(probe, Register(a.path, a.target, opts), meta.trace);
      assert probe + (registered.trace + meta.trace) == probe + [Register(a.path, a.target, opts)] + meta.trace;
      Prefix(probe, Prefix(registered.trace, meta))
  }

  /** Copy the file's bytes into catalog-managed storage at the target. */
  function UploadFile(h: HookModule, c: Catalog, a: Args): (r: Run)
    ensures Created(r.trace) == [] && NoDispatches(r.trace)
    ensures Transfers(r.trace) == [Put(a.path, a.target, PutOptions(h, a.opts))]
    ensures NoMetaWrites(r.trace)
    ensures r.status.Failed? ==> r.status.error.RemoteFailure? && r.cat == c
    ensures r.status.Completed? <==> a.target !in c.colls
    ensures r.status.Completed? ==> r.cat.objs.Keys == c.objs.Keys + {a.target} && r.cat.colls == c.colls
    ensures a.target in c.objs && a.target !in c.colls ==> r.cat == c
  {
    var probe := Consult(h.toRootResource, RootResourcePolicy);
    var e := Put(a.path, a.target, PutOptions(h, a.opts));
    var put := Emit(c, e);
    OneTransferTrace(probe, e, []);
    assert probe + put.trace == probe + [e] + [];
    Prefix(probe, put)
  }

  /** Refresh an existing object's bytes: the same transfer as an upload. */
  function SyncFile(h: HookModule, c: Catalog, a: Args): (r: Run)
    ensures Created(r.trace) == [] && NoDispatches(r.trace)
    ensures Transfers(r.trace) == [Put(a.path, a.target, PutOptions(h, a.opts))]
    ensures NoMetaWrites(r.trace)
    ensures a.target in c.objs && a.target !in c.colls ==> r.status.Completed? && r.cat == c
  {
    UploadFile(h, c, a)
  }

  /** One catalog row backs the physical file: its physical path is the
      file's, and its resource is the leaf resource when one is given. */
  predicate RowMatches(row: Replica, leaf: Option<string>, path: Path)
  {
    (leaf.None? || row.resource == leaf.value) && row.physPath == path
  }

  /** The scan over the query rows for one that backs the physical file. */
  function HasMatchingRow(rows: seq<Replica>, leaf: Option<string>, path: Path): (found: bool)
    ensures found <==> exists i :: 0 <= i < |rows| && RowMatches(rows[i], leaf, path)
    decreases |rows|
  {
    if rows == [] then false
    else if RowMatches(rows[0], leaf, path) then true
    else
      var rest := HasMatchingRow(rows[1..], leaf, path);
      assert forall i :: 1 <= i < |rows| ==> rows[i] == rows[1..][i - 1];
      rest
  }

  /** The rows the catalog query returns: one per replica of the target. */
  function Rows(c: Catalog, target: Path): seq<Replica>
  {
    if target in c.objs then c.objs[target] else []
  }

  /** The consistency condition guarding a metadata update. */
  ghost predicate Backed(c: Catalog, target: Path, leaf: Option<string>, path: Path)
  {
    exists i :: 0 <= i < |Rows(c, target)| && RowMatches(Rows(c, target)[i], leaf, path)
  }

  /** Update the size and modify time of an existing object, but only after
      checking that a replica on the selected resource is backed by this
      physical file. */
  function UpdateMetadata(h: HookModule, c: Catalog, a: Args, fs: FileStat): (r: Run)
    ensures Created(r.trace) == [] && Transfers(r.trace) == [] && NoDispatches(r.trace)
    ensures !Backed(c, a.target, h.toLeafResource, a.path) ==>
              r.status == Failed(WrongResourceOrPath) && NoWrites(r.trace) && r.cat == c
    ensures Backed(c, a.target, h.toLeafResource, a.path) ==>
              && r.status.Completed?
              && r.cat == c
              && |r.trace| >= 1
              && r.trace[|r.trace| - 1]
                 == ModMeta(ObjInfo(a.target, h.toResourceHier, h.toLeafResource),
                            MetaUpdate(fs.size, Some(fs.mtime)), a.opts)
              && NoWrites(r.trace[..|r.trace| - 1])
  {
    var probes := Consult(h.toResourceHier, ResourceHierPolicy) + Consult(h.toLeafResource, LeafResourcePolicy);
    NoWritesNothingWritten(probes);
    var found := HasMatchingRow(Rows(c, a.target), h.toLeafResource, a.path);
    assert found <==> Backed(c, a.target, h.toLeafResource, a.path);
    if found then
      var e := ModMeta(ObjInfo(a.target, h.toResourceHier, h.toLeafResource), MetaUpdate(fs.size, Some(fs.mtime)), a.opts);
      assert Apply(c, e) == Ok(c);
      var t := probes + [e];
      assert t[..|t| - 1] == probes;
      MetaOnlyTrace(t);
      Run(c, t, Completed)
    else
      MetaOnlyTrace(probes);
      Run(c, probes, Failed(WrongResourceOrPath))
  }

  /** A completed registration leaves a replica that passes the consistency
      check of a later metadata update on the same resource and file. */
  lemma RegisteredFileIsBacked(h: HookModule, c: Catalog, a: Args, fs: FileStat)
    requires RegisterFile(h, c, a, fs).status.Completed?
    ensures Backed(RegisterFile(h, c, a, fs).cat, a.target, h.toLeafResource, a.path)
  {
    var r := RegisterFile(h, c, a, fs);
    var rows := Rows(r.cat, a.target);
    assert rows == Rows(c, a.target) + [Replica(ResourceOf(RegisterOptions(h, a.opts)), a.path)];
    assert RowMatches(rows[|rows| - 1], h.toLeafResource, a.path);
  }

  /** The row scan as the source writes it: the flag starts unbound (`None`),
      is bound to true by the first matching row, and is never bound to
      false. */
  function ScanAsWritten(rows: seq<Replica>, leaf: Option<string>, path: Path, found: Option<bool>): (r: Option<bool>)
    ensures r == Some(true) <==> found == Some(true) || exists i :: 0 <= i < |rows| && RowMatches(rows[i], leaf, path)
    ensures found != Some(false) ==> r != Some(false)
    decreases |rows|
  {
    if rows == [] then found
    else if RowMatches(rows[0], leaf, path) then Some(true)
    else
      var rest := ScanAsWritten(rows[1..], leaf, path, found);
      assert forall i :: 1 <= i < |rows| ==> rows[i] == rows[1..][i - 1];
      rest
  }

  /** `update_metadata` as written: when no row matches, reading the unbound
      flag raises before the wrong-resource check can. */
  function UpdateMetadataAsWritten(h: HookModule, c: Catalog, a: Args, fs: FileStat): (r: Run)
    ensures !Backed(c, a.target, h.toLeafResource, a.path) ==>
              r.status == Failed(UnboundLocal("found")) && NoWrites(r.trace) && r.cat == c
    ensures Backed(c, a.target, h.toLeafResource, a.path) ==> r == UpdateMetadata(h, c, a, fs)
  {
    var probes := Consult(h.toResourceHier, ResourceHierPolicy) + Consult(h.toLeafResource, LeafResourcePolicy);
    NoWritesNothingWritten(probes);
    match ScanAsWritten(Rows(c, a.target), h.toLeafResource, a.path, None)
    case None => Run(c, probes, Failed(UnboundLocal("found")))
    case Some(found) =>
      if found then UpdateMetadata(h, c, a, fs)
      else Run(c, probes, Failed(WrongResourceOrPath))
  }

  /** An object whose only replica lies at another physical path: as written
      the update fails on the unbound flag, while the intended guard reports
      the wrong resource or path. */
  lemma FoundUnboundCounterexample()
    ensures var c := Catalog({[]}, map[["a"] := [Replica(DefaultResource, ["other"])]]);
            var a := Args(["a"], ["f"], map[]);
            && UpdateMetadataAsWritten(NoHooks, c, a, FileStat(0, 0)).status == Failed(UnboundLocal("found"))
            && UpdateMetadata(NoHooks, c, a, FileStat(0, 0)).status == Failed(WrongResourceOrPath)
  {
    var c := Catalog({[]}, map[["a"] := [Replica(DefaultResource, ["other"])]]);
    var a := Args(["a"], ["f"], map[]);
    assert !RowMatches(Rows(c, a.target)[0], None, a.path);
  }
}

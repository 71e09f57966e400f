/** The remote catalog as the engine sees it: collections, data objects
    with their replicas, and the effect of each remote write. The server's
    own behaviour is abstracted to the few rules the engine relies on. */
module Remote {
  import opened Wrappers
  import opened Paths
  import opened Trace

  /** A physical copy of a data object's bytes on one storage resource. */
  datatype Replica = Replica(resource: string, physPath: Path)

  datatype Catalog = Catalog(colls: set<Path>, objs: map<Path, seq<Replica>>)

  /** The resource a write lands on when no `destRescName` is given. */
  const DefaultResource: string := "demoResc"

  /** Where a resource stores uploaded bytes for a logical path. */
  function VaultPath(resource: string, target: Path): Path
  {
    ["Vault", resource] + target
  }

  /** The resource named by the options, or the default one. */
  function ResourceOf(opts: Options): string
  {
    Lookup(opts, DestRescName).GetOr(DefaultResource)
  }

  /** Collections are closed under taking parents. */
  ghost predicate AncestorClosed(c: Catalog)
  {
    forall p :: p in c.colls && p != Root ==> Dirname(p) in c.colls
  }

  /** In an ancestor-closed catalog every prefix of a collection is one. */
  lemma {:induction false} AncestorClosedPrefixes(c: Catalog, p: Path)
    requires AncestorClosed(c) && p in c.colls
    ensures forall j :: 0 <= j <= |p| ==> p[..j] in c.colls
    decreases |p|
  {
    if p != Root {
      AncestorClosedPrefixes(c, Dirname(p));
      forall j | 0 <= j <= |p|
        ensures p[..j] in c.colls
      {
        if j < |p| {
          assert p[..j] == Dirname(p)[..j];
        } else {
          assert p[..j] == p;
        }
      }
    }
  }

  /** The namespace invariant of the catalog: a path is never both a
      collection and a data object, the root exists, and every collection
      and data object other than the root sits in an existing collection. */
  ghost predicate WellFormed(c: Catalog)
  {
    && (forall p :: p in c.colls ==> p !in c.objs)
    && Root in c.colls
    && AncestorClosed(c)
    && (forall p :: p in c.objs ==> p != Root && Dirname(p) in c.colls)
  }

  /** Binding a data object inside an existing collection, at a path that
      is not a collection, keeps the namespace invariant. */
  lemma AddObjectWellFormed(c: Catalog, c': Catalog, target: Path)
    requires WellFormed(c)
    requires c'.colls == c.colls && c'.objs.Keys == c.objs.Keys + {target}
    requires target !in c.colls && target != Root && Dirname(target) in c.colls
    ensures WellFormed(c')
  {
  }

  /** The failures the engine can end with. */
  datatype Error =
    | CannotCreateRoot
    | TargetIsCollection
    | NoResourceName
    | WrongResourceOrPath
    | HookRaised(point: EventHook, reason: string)
    | RemoteFailure(reason: string)
    | UnboundLocal(name: string)

  datatype Status = Completed | Failed(error: Error)

  /** What an operation leaves behind: the catalog, everything it did in
      order (nothing is rolled back on failure), and how it ended. */
  datatype Run = Run(cat: Catalog, trace: Trace, status: Status)

  /** `r` preceded by the events of `t`. */
  function Prefix(t: Trace, r: Run): Run
  {
    r.(trace := t + r.trace)
  }

  /** The server's response to one event. Writes never delete anything. */
  function Apply(c: Catalog, e: Event): (r: Result<Catalog>)
    ensures !e.IsWrite() ==> r == Ok(c)
    ensures r.Ok? ==> c.colls <= r.value.colls && c.objs.Keys <= r.value.objs.Keys
    ensures e.CreateColl? ==>
              (r.Ok? <==> e.coll !in c.objs)
              && (r.Ok? ==> r.value == c.(colls := c.colls + {e.coll}))
    ensures e.IsTransfer() && r.Ok? ==>
              e.target !in c.colls && r.value.objs.Keys == c.objs.Keys + {e.target} && r.value.colls == c.colls
    ensures e.Put? && e.target !in c.colls && e.target in c.objs ==> r == Ok(c)
    ensures e.Put? ==> (r.Ok? <==> e.target !in c.colls)
    ensures e.Register? ==> (r.Ok? <==> e.target !in c.colls && (RegRepl in e.opts <==> e.target in c.objs))
    ensures e.Register? && r.Ok? ==>
              r.value.objs == c.objs[e.target := (if e.target in c.objs then c.objs[e.target] else [])
                                               + [Replica(ResourceOf(e.opts), e.phys)]]
    ensures e.ModMeta? ==> (r.Ok? <==> e.info.objPath in c.objs) && (r.Ok? ==> r.value == c)
  {
    match e
    case CreateColl(p) =>
      if p in c.objs then Err("a data object exists at this path")
      else Ok(c.(colls := c.colls + {p}))
    case Register(phys, t, o) =>
      if t in c.colls then Err("a collection exists at this path")
      else if RegRepl in o && t !in c.objs then Err("no data object to add a replica to")
      else if RegRepl !in o && t in c.objs then Err("the data object already exists")
      else
        var rows := if t in c.objs then c.objs[t] else [];
        Ok(c.(objs := c.objs[t := rows + [Replica(ResourceOf(o), phys)]]))
    case Put(phys, t, o) =>
      if t in c.colls then Err("a collection exists at this path")
      else if t in c.objs then Ok(c)
      else Ok(c.(objs := c.objs[t := [Replica(ResourceOf(o), VaultPath(ResourceOf(o), t))]]))
    case ModMeta(info, _, _) =>
      if info.objPath in c.objs then Ok(c) else Err("no such data object")
    case Consulted(_) => Ok(c)
    case HookCalled(_, _, _) => Ok(c)
  }

  /** Issue one event: it is recorded whether or not the server accepts it. */
  function Emit(c: Catalog, e: Event): (r: Run)
    ensures r.trace == [e]
    ensures r.status.Completed? <==> Apply(c, e).Ok?
    ensures r.status.Completed? ==> r.cat == Apply(c, e).value
    ensures r.status.Failed? ==> r.cat == c && r.status.error.RemoteFailure?
  {
    match Apply(c, e)
    case Ok(c') => Run(c', [e], Completed)
    case Err(m) => Run(c, [e], Failed(RemoteFailure(m)))
  }

  /** Issue events in order, stopping at the first the server refuses. */
  function ApplyAll(c: Catalog, es: Effects): (r: Run)
    ensures r.status.Failed? ==> r.status.error.RemoteFailure?
    ensures NoDispatches(r.trace)
    decreases |es|
  {
    if es == [] then Run(c, [], Completed)
    else
      var r1 := Emit(c, es[0]);
      if r1.status.Failed? then r1 else Prefix(r1.trace, ApplyAll(r1.cat, es[1..]))
  }

  /** The catalog obtained by replaying a trace from `c`. */
  function Replay(c: Catalog, t: Trace): Result<Catalog>
    decreases |t|
  {
    if t == [] then Ok(c)
    else
      match Apply(c, t[0])
      case Ok(c') => Replay(c', t[1..])
      case Err(m) => Err(m)
  }

  /** A completed run's catalog is exactly what its trace, replayed, makes. */
  ghost predicate Logged(c: Catalog, r: Run)
  {
    r.status.Completed? ==> Replay(c, r.trace) == Ok(r.cat)
  }

  lemma {:induction false} ReplayAppend(c: Catalog, a: Trace, b: Trace, mid: Catalog)
    requires Replay(c, a) == Ok(mid)
    ensures Replay(c, a + b) == Replay(mid, b)
    decreases |a|
  {
    if a == [] {
      assert a + b == b;
    } else {
      assert (a + b)[1..] == a[1..] + b;
      var c' := Apply(c, a[0]).value;
      ReplayAppend(c', a[1..], b, mid);
    }
  }

  /** Replaying events that write nothing leaves the catalog as it is. */
  lemma {:induction false} ReplayNoWrites(c: Catalog, t: Trace)
    requires NoWrites(t)
    ensures Replay(c, t) == Ok(c)
    decreases |t|
  {
    if t != [] {
      ReplayNoWrites(c, t[1..]);
    }
  }

  lemma EmitLogged(c: Catalog, e: Event)
    ensures Logged(c, Emit(c, e))
  {
  }

  /** Sequencing two logged runs gives a logged run. */
  lemma SequenceLogged(c: Catalog, r1: Run, r2: Run)
    requires r1.status.Completed? && Logged(c, r1) && Logged(r1.cat, r2)
    ensures Logged(c, Prefix(r1.trace, r2))
  {
    if r2.status.Completed? {
      ReplayAppend(c, r1.trace, r2.trace, r1.cat);
    }
  }

  /** Prefixing a run with events that write nothing keeps it logged. */
  lemma PrefixNoWritesLogged(c: Catalog, t: Trace, r: Run)
    requires NoWrites(t) && Logged(c, r)
    ensures Logged(c, Prefix(t, r))
  {
    if r.status.Completed? {
      ReplayNoWrites(c, t);
      ReplayAppend(c, t, r.trace, c);
    }
  }

  /** A hook's own effects are logged like any other writes. */
  lemma {:induction false} ApplyAllLogged(c: Catalog, es: Effects)
    ensures Logged(c, ApplyAll(c, es))
    decreases |es|
  {
    if es != [] {
      var r1 := Emit(c, es[0]);
      if r1.status.Completed? {
        ApplyAllLogged(r1.cat, es[1..]);
        SequenceLogged(c, r1, ApplyAll(r1.cat, es[1..]));
      }
    }
  }
}

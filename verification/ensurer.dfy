/** The collection ensurer `create_dirs`: make sure a collection and all
    its ancestors exist, creating the missing ones from the root down. */
module Ensurer {
  import opened Wrappers
  import opened Paths
  import opened Trace
  import opened Remote
  import opened Hooks
  import opened Writers
  import opened Dispatch

  /** No prefix of `target`, the target included, is a collection. */
  ghost predicate NoExistingPrefix(c: Catalog, target: Path)
  {
    forall j :: 0 <= j <= |target| ==> target[..j] !in c.colls
  }

  /** Ensure `target` exists. An existing collection ends the descent; the
      root missing is fatal; otherwise the parent is ensured first and then
      the target is created through the `on_coll_create` hook. The physical
      path is shortened alongside, since the hook is handed both. */
  function CreateDirs(h: HookModule, c: Catalog, target: Path, path: Path, opts: Options, fs: FileStat): (r: Run)
    ensures target in c.colls ==> r == Run(c, [], Completed)
    ensures r.status == Failed(CannotCreateRoot) ==> r.trace == [] && r.cat == c
    ensures r.status.Failed? ==> !r.status.error.TargetIsCollection? && !r.status.error.NoResourceName?
    decreases |target|
  {
    if target in c.colls then Run(c, [], Completed)
    else if target == Root then Run(c, [], Failed(CannotCreateRoot))
    else
      var parent := CreateDirs(h, c, Dirname(target), Dirname(path), opts, fs);
      if parent.status.Failed? then parent
      else Prefix(parent.trace, Call(h, OnCollCreate, CreateCollection, Args(target, path, opts), fs, parent.cat))
  }

  /** The `on_coll_create` dispatch for one level of the descent. */
  function CreateOne(h: HookModule, c: Catalog, target: Path, path: Path, opts: Options, fs: FileStat): Run
  {
    Call(h, OnCollCreate, CreateCollection, Args(target, path, opts), fs, c)
  }

  /** A faithful `on_coll_create` dispatch creates exactly the target. */
  lemma CreatedByOne(h: HookModule, c: Catalog, target: Path, path: Path, opts: Options, fs: FileStat)
    requires Faithful(h.onCollCreate)
    ensures var r := CreateOne(h, c, target, path, opts, fs);
            && Created(r.trace) == [target]
            && (r.status.Completed? <==> target !in c.objs)
            && (r.status.Completed? ==> r.cat == c.(colls := c.colls + {target}))
  {
    var a := Args(target, path, opts);
    var r := CreateOne(h, c, target, path, opts, fs);
    var d := CreateCollectionDefault(c, a);
    assert RunAction(h, CreateCollection, a, fs, c) == d;
    if h.onCollCreate.Some? {
      assert r == Prefix([HookCalled(OnCollCreate, CreateCollection, a)], d);
      CreatedAppend([HookCalled(OnCollCreate, CreateCollection, a)], d.trace);
    } else {
      assert r == d;
    }
  }

  /** The root missing is fatal exactly when no prefix of the target
      exists, whatever the hooks do, and then nothing at all is written. */
  lemma {:induction false} MissingRoot(h: HookModule, c: Catalog, target: Path, path: Path, opts: Options, fs: FileStat)
    ensures var r := CreateDirs(h, c, target, path, opts, fs);
            r.status == Failed(CannotCreateRoot) <==> NoExistingPrefix(c, target)
    ensures NoExistingPrefix(c, target) ==>
              CreateDirs(h, c, target, path, opts, fs) == Run(c, [], Failed(CannotCreateRoot))
    decreases |target|
  {
    var r := CreateDirs(h, c, target, path, opts, fs);
    if target in c.colls {
      assert target[..|target|] == target;
    } else if target != Root {
      var d := Dirname(target);
      MissingRoot(h, c, d, Dirname(path), opts, fs);
      forall j | 0 <= j <= |d|
        ensures target[..j] == d[..j]
      {
      }
      assert target[..|target|] == target;
    }
  }

  /** One level of the descent: the parent's run, then this level's dispatch. */
  lemma Step(h: HookModule, c: Catalog, target: Path, path: Path, opts: Options, fs: FileStat)
    requires target !in c.colls && target != Root
    requires CreateDirs(h, c, Dirname(target), Dirname(path), opts, fs).status.Completed?
    ensures var parent := CreateDirs(h, c, Dirname(target), Dirname(path), opts, fs);
            CreateDirs(h, c, target, path, opts, fs)
            == Prefix(parent.trace, CreateOne(h, parent.cat, target, path, opts, fs))
  {
  }

  /** A chain of strict prefixes stays one when extended by a path that
      strictly extends every member. */
  lemma ExtendChain(ps: seq<Path>, target: Path)
    requires forall i, j :: 0 <= i < j < |ps| ==> ps[i] < ps[j]
    requires forall i :: 0 <= i < |ps| ==> ps[i] < target
    ensures var cs := ps + [target];
            forall i, j :: 0 <= i < j < |cs| ==> cs[i] < cs[j]
  {
    var cs := ps + [target];
    forall i, j | 0 <= i < j < |cs|
      ensures cs[i] < cs[j]
    {
      if j < |ps| {
        assert cs[i] == ps[i] && cs[j] == ps[j];
      } else {
        assert cs[i] == ps[i] && cs[j] == target;
      }
    }
  }

  /** The collections created by a completed descent: the parent's, then
      the target. */
  lemma CreatedByStep(h: HookModule, c: Catalog, target: Path, path: Path, opts: Options, fs: FileStat)
    requires Faithful(h.onCollCreate)
    requires target !in c.colls && target != Root
    ensures var parent := CreateDirs(h, c, Dirname(target), Dirname(path), opts, fs);
            Created(CreateDirs(h, c, target, path, opts, fs).trace)
            == Created(parent.trace) + (if parent.status.Completed? then [target] else [])
  {
    var parent := CreateDirs(h, c, Dirname(target), Dirname(path), opts, fs);
    if parent.status.Completed? {
      Step(h, c, target, path, opts, fs);
      var one := CreateOne(h, parent.cat, target, path, opts, fs);
      CreatedByOne(h, parent.cat, target, path, opts, fs);
      CreatedAppend(parent.trace, one.trace);
    }
  }

  /** Every path of `cs` is a prefix of `target` missing from `c`. */
  ghost predicate MissingPrefixesOnly(cs: seq<Path>, c: Catalog, target: Path)
  {
    forall i :: 0 <= i < |cs| ==> cs[i] <= target && cs[i] !in c.colls
  }

  /** Each path of `cs` is a proper prefix of every later one. */
  ghost predicate RootDown(cs: seq<Path>)
  {
    forall i, j :: 0 <= i < j < |cs| ==> cs[i] < cs[j]
  }

  /** With a faithful `on_coll_create`, the ensurer creates only missing
      prefixes of the target. */
  lemma {:induction false} CreatesOnlyMissingPrefixes(h: HookModule, c: Catalog, target: Path, path: Path, opts: Options, fs: FileStat)
    requires Faithful(h.onCollCreate)
    ensures MissingPrefixesOnly(Created(CreateDirs(h, c, target, path, opts, fs).trace), c, target)
    decreases |target|
  {
    if target !in c.colls && target != Root {
      CreatesOnlyMissingPrefixes(h, c, Dirname(target), Dirname(path), opts, fs);
      CreatedByStep(h, c, target, path, opts, fs);
    }
  }

  /** With a faithful `on_coll_create`, every collection the ensurer
      creates is a strict prefix of each one it creates later. */
  lemma {:induction false} CreatesRootDown(h: HookModule, c: Catalog, target: Path, path: Path, opts: Options, fs: FileStat)
    requires Faithful(h.onCollCreate)
    ensures RootDown(Created(CreateDirs(h, c, target, path, opts, fs).trace))
    decreases |target|
  {
    if target !in c.colls && target != Root {
      var d := Dirname(target);
      var ps := Created(CreateDirs(h, c, d, Dirname(path), opts, fs).trace);
      CreatesRootDown(h, c, d, Dirname(path), opts, fs);
      CreatesOnlyMissingPrefixes(h, c, d, Dirname(path), opts, fs);
      CreatedByStep(h, c, target, path, opts, fs);
      assert forall i :: 0 <= i < |ps| ==> ps[i] < target;
      ExtendChain(ps, target);
    }
  }

  /** Root-down creation never creates the same collection twice. */
  lemma NoCollectionCreatedTwice(h: HookModule, c: Catalog, target: Path, path: Path, opts: Options, fs: FileStat)
    requires Faithful(h.onCollCreate)
    ensures var cs := Created(CreateDirs(h, c, target, path, opts, fs).trace);
            forall i, j :: 0 <= i < |cs| && 0 <= j < |cs| && i != j ==> cs[i] != cs[j]
  {
    CreatesRootDown(h, c, target, path, opts, fs);
  }

  /** With a faithful `on_coll_create` on an ancestor-closed catalog, a
      completed ensurer leaves the target and every ancestor present, stays
      ancestor-closed, and adds exactly the collections it created. */
  lemma {:induction false} EstablishesChain(h: HookModule, c: Catalog, target: Path, path: Path, opts: Options, fs: FileStat)
    requires Faithful(h.onCollCreate)
    requires AncestorClosed(c)
    ensures var r := CreateDirs(h, c, target, path, opts, fs);
            r.status.Completed? ==>
              && (forall j :: 0 <= j <= |target| ==> target[..j] in r.cat.colls)
              && AncestorClosed(r.cat)
              && r.cat.objs == c.objs
              && (forall p :: p in r.cat.colls <==> p in c.colls || p in Created(r.trace))
    decreases |target|
  {
    var r := CreateDirs(h, c, target, path, opts, fs);
    if target in c.colls {
      AncestorClosedPrefixes(c, target);
    } else if target != Root {
      var d := Dirname(target);
      var parent := CreateDirs(h, c, d, Dirname(path), opts, fs);
      EstablishesChain(h, c, d, Dirname(path), opts, fs);
      if parent.status.Completed? {
        var one := CreateOne(h, parent.cat, target, path, opts, fs);
        CreatedByOne(h, parent.cat, target, path, opts, fs);
        CreatedAppend(parent.trace, one.trace);
        if one.status.Completed? {
          assert r.cat.colls == parent.cat.colls + {target};
          forall j | 0 <= j <= |target|
            ensures target[..j] in r.cat.colls
          {
            if j < |target| {
              assert target[..j] == d[..j];
            } else {
              assert target[..j] == target;
            }
          }
        }
      }
    }
  }

  /** Running the ensurer again after it completed writes nothing. */
  lemma Idempotent(h: HookModule, c: Catalog, target: Path, path: Path, opts: Options, fs: FileStat)
    requires Faithful(h.onCollCreate)
    requires CreateDirs(h, c, target, path, opts, fs).status.Completed?
    ensures var c' := CreateDirs(h, c, target, path, opts, fs).cat;
            CreateDirs(h, c', target, path, opts, fs) == Run(c', [], Completed)
  {
    if target !in c.colls && target != Root {
      var parent := CreateDirs(h, c, Dirname(target), Dirname(path), opts, fs);
      Step(h, c, target, path, opts, fs);
      CreatedByOne(h, parent.cat, target, path, opts, fs);
    }
  }

  /** The events a faithful descent can produce. */
  predicate DescentEvent(e: Event)
  {
    e.CreateColl? || (e.HookCalled? && e.point == OnCollCreate)
  }

  predicate DescentTrace(t: Trace)
  {
    forall i :: 0 <= i < |t| ==> DescentEvent(t[i])
  }

  lemma DescentTraceAppend(a: Trace, b: Trace)
    requires DescentTrace(a) && DescentTrace(b)
    ensures DescentTrace(a + b)
  {
  }

  /** A faithful `on_coll_create` dispatch is a descent trace. */
  lemma OneIsDescent(h: HookModule, c: Catalog, target: Path, path: Path, opts: Options, fs: FileStat)
    requires Faithful(h.onCollCreate)
    ensures DescentTrace(CreateOne(h, c, target, path, opts, fs).trace)
  {
    var a := Args(target, path, opts);
    var d := CreateCollectionDefault(c, a);
    assert RunAction(h, CreateCollection, a, fs, c) == d;
    assert d.trace == [CreateColl(target)];
  }

  /** With a faithful `on_coll_create`, the descent only dispatches
      `on_coll_create` and creates collections. */
  lemma {:induction false} DescentOnlyCreates(h: HookModule, c: Catalog, target: Path, path: Path, opts: Options, fs: FileStat)
    requires Faithful(h.onCollCreate)
    ensures DescentTrace(CreateDirs(h, c, target, path, opts, fs).trace)
    decreases |target|
  {
    if target !in c.colls && target != Root {
      var parent := CreateDirs(h, c, Dirname(target), Dirname(path), opts, fs);
      DescentOnlyCreates(h, c, Dirname(target), Dirname(path), opts, fs);
      if parent.status.Completed? {
        Step(h, c, target, path, opts, fs);
        var one := CreateOne(h, parent.cat, target, path, opts, fs);
        OneIsDescent(h, parent.cat, target, path, opts, fs);
        DescentTraceAppend(parent.trace, one.trace);
      }
    }
  }

  /** A faithful descent transfers nothing, writes no metadata and
      dispatches through no other hook. */
  lemma DescentWritesOnlyCollections(h: HookModule, c: Catalog, target: Path, path: Path, opts: Options, fs: FileStat)
    requires Faithful(h.onCollCreate)
    ensures var t := CreateDirs(h, c, target, path, opts, fs).trace;
            && Transfers(t) == [] && NoMetaWrites(t)
            && Dispatches(t, OnDataObjCreate) == 0 && Dispatches(t, OnDataObjModify) == 0
  {
    var t := CreateDirs(h, c, target, path, opts, fs).trace;
    DescentOnlyCreates(h, c, target, path, opts, fs);
    CollectionEventsOnly(t);
  }

  lemma {:induction false} CollectionEventsOnly(t: Trace)
    requires DescentTrace(t)
    ensures Transfers(t) == [] && NoMetaWrites(t)
    ensures Dispatches(t, OnDataObjCreate) == 0 && Dispatches(t, OnDataObjModify) == 0
  {
    if t != [] {
      assert DescentTrace(t[1..]) by {
        assert forall i :: 0 <= i < |t[1..]| ==> t[1..][i] == t[i + 1];
      }
      CollectionEventsOnly(t[1..]);
    }
  }

  /** With a faithful `on_coll_create`, the descent never touches data objects. */
  lemma {:induction false} LeavesObjectsAlone(h: HookModule, c: Catalog, target: Path, path: Path, opts: Options, fs: FileStat)
    requires Faithful(h.onCollCreate)
    ensures CreateDirs(h, c, target, path, opts, fs).cat.objs == c.objs
    decreases |target|
  {
    if target !in c.colls && target != Root {
      var parent := CreateDirs(h, c, Dirname(target), Dirname(path), opts, fs);
      LeavesObjectsAlone(h, c, Dirname(target), Dirname(path), opts, fs);
      if parent.status.Completed? {
        Step(h, c, target, path, opts, fs);
        CreatedByOne(h, parent.cat, target, path, opts, fs);
      }
    }
  }

  /** With a faithful `on_coll_create`, the descent completes whenever the
      root exists and no prefix of the target is a data object. */
  lemma {:induction false} Completes(h: HookModule, c: Catalog, target: Path, path: Path, opts: Options, fs: FileStat)
    requires Faithful(h.onCollCreate)
    requires Root in c.colls
    requires forall j :: 0 <= j <= |target| ==> target[..j] !in c.objs
    ensures CreateDirs(h, c, target, path, opts, fs).status.Completed?
    decreases |target|
  {
    if target !in c.colls {
      var d := Dirname(target);
      forall j | 0 <= j <= |d|
        ensures d[..j] !in c.objs
      {
        assert d[..j] == target[..j];
      }
      Completes(h, c, d, Dirname(path), opts, fs);
      LeavesObjectsAlone(h, c, d, Dirname(path), opts, fs);
      var parent := CreateDirs(h, c, d, Dirname(path), opts, fs);
      Step(h, c, target, path, opts, fs);
      CreatedByOne(h, parent.cat, target, path, opts, fs);
      assert target[..|target|] == target;
    }
  }

  /** Whatever the hooks do, the descent dispatches through no hook other
      than `on_coll_create`. */
  lemma {:induction false} DispatchesOnlyCollCreate(h: HookModule, c: Catalog, target: Path, path: Path, opts: Options, fs: FileStat, q: EventHook)
    requires q != OnCollCreate
    ensures Dispatches(CreateDirs(h, c, target, path, opts, fs).trace, q) == 0
    decreases |target|
  {
    if target !in c.colls && target != Root {
      var parent := CreateDirs(h, c, Dirname(target), Dirname(path), opts, fs);
      DispatchesOnlyCollCreate(h, c, Dirname(target), Dirname(path), opts, fs, q);
      if parent.status.Completed? {
        var a := Args(target, path, opts);
        var one := CreateOne(h, parent.cat, target, path, opts, fs);
        assert CreateDirs(h, c, target, path, opts, fs) == Prefix(parent.trace, one);
        CallDispatchesOnce(h, OnCollCreate, CreateCollection, a, fs, parent.cat, q);
        DispatchesAppend(parent.trace, one.trace, q);
      }
    }
  }

  /** With a faithful `on_coll_create`, a completed descent never turns a
      data-object path into a collection: each new collection was free. */
  lemma {:induction false} CreatesOnlyFreePaths(h: HookModule, c: Catalog, target: Path, path: Path, opts: Options, fs: FileStat)
    requires Faithful(h.onCollCreate)
    ensures var r := CreateDirs(h, c, target, path, opts, fs);
            r.status.Completed? ==> forall p :: p in r.cat.colls ==> p in c.colls || p !in c.objs
    decreases |target|
  {
    if target !in c.colls && target != Root {
      var parent := CreateDirs(h, c, Dirname(target), Dirname(path), opts, fs);
      CreatesOnlyFreePaths(h, c, Dirname(target), Dirname(path), opts, fs);
      if parent.status.Completed? {
        LeavesObjectsAlone(h, c, Dirname(target), Dirname(path), opts, fs);
        Step(h, c, target, path, opts, fs);
        CreatedByOne(h, parent.cat, target, path, opts, fs);
      }
    }
  }

  /** A replacing `on_coll_create` hook is handed each level's target: a
      hook that creates that target itself ends every descent, from every
      catalog, exactly as the default does, creating the same collections. */
  lemma {:induction false} TargetAwareHook(h: HookModule, c: Catalog, target: Path, path: Path, opts: Options, fs: FileStat)
    requires h.onCollCreate.Some? && h.onCollCreate.value.Replace?
    requires forall a: Args :: h.onCollCreate.value.effects(a) == [CreateColl(a.target)]
    ensures var r := CreateDirs(h, c, target, path, opts, fs);
            var d := CreateDirs(h.(onCollCreate := None), c, target, path, opts, fs);
            r.cat == d.cat && r.status == d.status && Created(r.trace) == Created(d.trace)
    decreases |target|
  {
    var g := h.(onCollCreate := None);
    if target !in c.colls && target != Root {
      var rp := CreateDirs(h, c, Dirname(target), Dirname(path), opts, fs);
      var dp := CreateDirs(g, c, Dirname(target), Dirname(path), opts, fs);
      TargetAwareHook(h, c, Dirname(target), Dirname(path), opts, fs);
      if rp.status.Completed? {
        var a := Args(target, path, opts);
        var e := CreateColl(target);
        assert h.onCollCreate.value.effects(a) == [e];
        var own := ApplyAll(rp.cat, [e]);
        var dflt := Emit(dp.cat, e);
        assert rp.cat == dp.cat;
        if dflt.status.Completed? {
          assert [e][1..] == [];
          assert ApplyAll(dflt.cat, []) == Run(dflt.cat, [], Completed);
          assert own == Prefix(dflt.trace, Run(dflt.cat, [], Completed));
        } else {
          assert own == dflt;
        }
        assert own.cat == dflt.cat && own.status == dflt.status && Created(own.trace) == [target];
        var one := CreateOne(h, rp.cat, target, path, opts, fs);
        assert one == Prefix([HookCalled(OnCollCreate, CreateCollection, a)], own);
        assert CreateOne(g, dp.cat, target, path, opts, fs) == dflt;
        CreatedAppend([HookCalled(OnCollCreate, CreateCollection, a)], own.trace);
        CreatedAppend(rp.trace, one.trace);
        CreatedAppend(dp.trace, dflt.trace);
      }
    }
  }
}

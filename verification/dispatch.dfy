/** The hook dispatcher `call` and the default actions it falls back to. */
module Dispatch {
  import opened Wrappers
  import opened Trace
  import opened Remote
  import opened Hooks
  import opened Writers

  /** `ccfunc`: create the target collection. */
  function CreateCollectionDefault(c: Catalog, a: Args): (r: Run)
    ensures Created(r.trace) == [a.target] && Transfers(r.trace) == [] && NoDispatches(r.trace)
    ensures r.status.Completed? <==> a.target !in c.objs
    ensures r.status.Completed? ==> r.cat == c.(colls := c.colls + {a.target})
  {
    Emit(c, CreateColl(a.target))
  }

  /** `cfunc`: upload when the put policy holds, register otherwise. */
  function CreateObjectDefault(h: HookModule, put: bool, a: Args, fs: FileStat, c: Catalog): (r: Run)
    ensures Created(r.trace) == [] && NoDispatches(r.trace)
    ensures |Transfers(r.trace)| == 1
    ensures Transfers(r.trace)[0].Put? == put
    ensures Transfers(r.trace)[0].target == a.target && Transfers(r.trace)[0].phys == a.path
    ensures r.status.Failed? ==> r.status.error.RemoteFailure?
    ensures r.status.Completed? <==> a.target !in c.colls && (put || (RegRepl in a.opts <==> a.target in c.objs))
    ensures r.status.Completed? ==> r.cat.objs.Keys == c.objs.Keys + {a.target} && r.cat.colls == c.colls
    ensures !put && r.status.Completed? ==>
              r.cat.objs == c.objs[a.target := Rows(c, a.target) + [Replica(ResourceOf(RegisterOptions(h, a.opts)), a.path)]]
  {
    if put then UploadFile(h, c, a) else RegisterFile(h, c, a, fs)
  }

  /** `mfunc`: re-upload when the put policy holds, otherwise update the
      metadata after the consistency check. */
  function ModifyObjectDefault(h: HookModule, put: bool, a: Args, fs: FileStat, c: Catalog): (r: Run)
    ensures Created(r.trace) == [] && NoDispatches(r.trace)
    ensures put ==> Transfers(r.trace) == [Put(a.path, a.target, PutOptions(h, a.opts))] && NoMetaWrites(r.trace)
    ensures !put ==> Transfers(r.trace) == []
    ensures !put ==> (r.status.Completed? <==> Backed(c, a.target, h.toLeafResource, a.path))
    ensures r.status.Failed? ==> r.status.error.RemoteFailure? || r.status.error == WrongResourceOrPath
  {
    if put then SyncFile(h, c, a) else UpdateMetadata(h, c, a, fs)
  }

  /** Run a default action on its arguments; `sync_file_meta` does nothing. */
  function RunAction(h: HookModule, act: Action, a: Args, fs: FileStat, c: Catalog): (r: Run)
    ensures NoDispatches(r.trace)
    ensures r.status.Failed? ==> r.status.error.RemoteFailure? || r.status.error == WrongResourceOrPath
    ensures act == SyncFileMeta ==> r == Run(c, [], Completed)
  {
    match act
    case CreateCollection => CreateCollectionDefault(c, a)
    case CreateObject(put) => CreateObjectDefault(h, put, a, fs, c)
    case ModifyObject(put) => ModifyObjectDefault(h, put, a, fs, c)
    case SyncFileMeta => Run(c, [], Completed)
  }

  /** Dispatch a decision point: a defined hook is called and handed the
      default action, which is then not run by the dispatcher itself;
      otherwise the default runs on the same arguments. */
  function Call(h: HookModule, point: EventHook, act: Action, a: Args, fs: FileStat, c: Catalog): (r: Run)
    ensures Handler(h, point).None? ==> r == RunAction(h, act, a, fs, c)
    ensures Handler(h, point).Some? ==> |r.trace| >= 1 && r.trace[0] == HookCalled(point, act, a)
    ensures Handler(h, point).Some? && Handler(h, point).value.Delegate? ==>
              r == Prefix([HookCalled(point, act, a)], RunAction(h, act, a, fs, c))
    ensures Handler(h, point).Some? && Handler(h, point).value.Replace? ==>
              r == Prefix([HookCalled(point, act, a)], ApplyAll(c, Handler(h, point).value.effects(a)))
    ensures Handler(h, point).Some? && Handler(h, point).value.Raise? ==>
              r == Run(c, [HookCalled(point, act, a)], Failed(HookRaised(point, Handler(h, point).value.reason)))
    ensures r.status.Failed? ==> !r.status.error.CannotCreateRoot? && !r.status.error.TargetIsCollection?
                                 && !r.status.error.NoResourceName?
  {
    match Handler(h, point)
    case None => RunAction(h, act, a, fs, c)
    case Some(o) =>
      var called := HookCalled(point, act, a);
      match o
      case Delegate => Prefix([called], RunAction(h, act, a, fs, c))
      case Replace(effects) => Prefix([called], ApplyAll(c, effects(a)))
      case Raise(reason) => Run(c, [called], Failed(HookRaised(point, reason)))
  }

  /** A call dispatches through its own hook exactly once when that hook is
      defined and never otherwise, and through no other hook. */
  lemma CallDispatchesOnce(h: HookModule, point: EventHook, act: Action, a: Args, fs: FileStat, c: Catalog, q: EventHook)
    ensures Dispatches(Call(h, point, act, a, fs, c).trace, q)
            == (if q == point && Handler(h, point).Some? then 1 else 0)
  {
    var r := Call(h, point, act, a, fs, c);
    if Handler(h, point).Some? {
      var tail := r.trace[1..];
      assert r.trace == [HookCalled(point, act, a)] + tail;
      assert NoDispatches(tail);
      DispatchesAppend([HookCalled(point, act, a)], tail, q);
      NoDispatchesCount(tail, q);
    } else {
      NoDispatchesCount(r.trace, q);
    }
  }

  /** A faithful hook changes nothing but the dispatch event: the call ends
      as its default would, with the same catalog and the same writes. */
  lemma FaithfulCall(h: HookModule, point: EventHook, act: Action, a: Args, fs: FileStat, c: Catalog)
    requires Faithful(Handler(h, point))
    ensures var r := Call(h, point, act, a, fs, c);
            var d := RunAction(h, act, a, fs, c);
            && r.cat == d.cat && r.status == d.status
            && Created(r.trace) == Created(d.trace) && Transfers(r.trace) == Transfers(d.trace)
            && (NoWrites(d.trace) ==> NoWrites(r.trace))
            && (NoMetaWrites(d.trace) ==> NoMetaWrites(r.trace))
  {
    if Handler(h, point).Some? {
      HookEventPrefix(HookCalled(point, act, a), RunAction(h, act, a, fs, c).trace);
    }
  }

  /** A dispatch event in front of a trace adds no creation, transfer or
      write. */
  lemma HookEventPrefix(called: Event, t: Trace)
    requires called.HookCalled?
    ensures Created([called] + t) == Created(t) && Transfers([called] + t) == Transfers(t)
    ensures NoWrites(t) ==> NoWrites([called] + t)
    ensures NoMetaWrites(t) ==> NoMetaWrites([called] + t)
  {
    CreatedAppend([called], t);
    TransfersAppend([called], t);
    var ct := [called] + t;
    assert forall i :: 1 <= i < |ct| ==> ct[i] == t[i - 1];
  }
}

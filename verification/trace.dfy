/** The observable record of one reconciliation: every consultation of a
    policy hook, every dispatch through an event hook, and every remote
    write, in the order they happen. */
module Trace {
  import opened Wrappers
  import opened Paths

  /** The keyword options threaded through every call (`**options`). */
  type Options = map<string, string>

  /** Option key naming the destination resource. */
  const DestRescName: string := "destRescName"
  /** Option key asking the catalog to register an additional replica. */
  const RegRepl: string := "regRepl"

  /** The value under `key`, if the options carry one. */
  function Lookup(opts: Options, key: string): Option<string>
  {
    if key in opts then Some(opts[key]) else None
  }

  /** The three decision points routed through the hook dispatcher. */
  datatype EventHook = OnCollCreate | OnDataObjCreate | OnDataObjModify

  /** The hooks that only answer a policy question. */
  datatype PolicyHook =
    | PutPolicy | AsReplicaPolicy | LeafResourcePolicy
    | RootResourcePolicy | ResourceHierPolicy | SyncPolicy

  /** The default actions the engine hands to the dispatcher:
      `ccfunc`, `cfunc`, `mfunc` and `sync_file_meta`. */
  datatype Action =
    | CreateCollection
    | CreateObject(put: bool)
    | ModifyObject(put: bool)
    | SyncFileMeta

  /** The positional and keyword arguments handed on by the dispatcher. */
  datatype Args = Args(target: Path, path: Path, opts: Options)

  /** The data-object selector given to `modDataObjMeta`. */
  datatype ObjInfo = ObjInfo(objPath: Path, rescHier: Option<string>, rescName: Option<string>)

  /** The metadata fields written: `dataSize` and, optionally, `dataModify`. */
  datatype MetaUpdate = MetaUpdate(dataSize: nat, dataModify: Option<int>)

  datatype Event =
    | Consulted(policy: PolicyHook)
    | HookCalled(point: EventHook, fallback: Action, args: Args)
    | CreateColl(coll: Path)
    | Register(phys: Path, target: Path, opts: Options)
    | Put(phys: Path, target: Path, opts: Options)
    | ModMeta(info: ObjInfo, fields: MetaUpdate, opts: Options)
  {
    /** True of the events that change the remote catalog. */
    predicate IsWrite() {
      CreateColl? || Register? || Put? || ModMeta?
    }

    /** True of the two ways of binding bytes to a data object. */
    predicate IsTransfer() {
      Register? || Put?
    }
  }

  type Trace = seq<Event>

  /** What a hook may do to the catalog on its own: remote writes only. */
  type Effects = es: Trace | forall i :: 0 <= i < |es| ==> es[i].IsWrite()

  /** No event of the trace is a dispatch through an event hook. */
  predicate NoDispatches(t: Trace)
  {
    forall i :: 0 <= i < |t| ==> !t[i].HookCalled?
  }

  predicate NoWrites(t: Trace)
  {
    forall i :: 0 <= i < |t| ==> !t[i].IsWrite()
  }

  predicate NoMetaWrites(t: Trace)
  {
    forall i :: 0 <= i < |t| ==> !t[i].ModMeta?
  }

  /** The collections a trace creates, in order. */
  function Created(t: Trace): (cs: seq<Path>)
    ensures |cs| <= |t|
  {
    if t == [] then []
    else (if t[0].CreateColl? then [t[0].coll] else []) + Created(t[1..])
  }

  /** The Register and Put events of a trace, in order. */
  function Transfers(t: Trace): (ts: seq<Event>)
    ensures |ts| <= |t|
    ensures forall i :: 0 <= i < |ts| ==> ts[i].IsTransfer()
  {
    if t == [] then []
    else (if t[0].IsTransfer() then [t[0]] else []) + Transfers(t[1..])
  }

  /** How many times a trace dispatches through `point`. */
  function Dispatches(t: Trace, point: EventHook): (n: nat)
    ensures n <= |t|
  {
    if t == [] then 0
    else (if t[0].HookCalled? && t[0].point == point then 1 else 0) + Dispatches(t[1..], point)
  }

  lemma {:induction false} CreatedAppend(a: Trace, b: Trace)
    ensures Created(a + b) == Created(a) + Created(b)
  {
    if a == [] {
      assert a + b == b;
    } else {
      var ab := a + b;
      assert ab[0] == a[0];
      assert ab[1..] == a[1..] + b;
      CreatedAppend(a[1..], b);
      var head := if a[0].CreateColl? then [a[0].coll] else [];
      assert Created(ab) == head + Created(a[1..] + b);
      assert Created(a) == head + Created(a[1..]);
    }
  }

  lemma {:induction false} TransfersAppend(a: Trace, b: Trace)
    ensures Transfers(a + b) == Transfers(a) + Transfers(b)
  {
    if a == [] {
      assert a + b == b;
    } else {
      var ab := a + b;
      assert ab[0] == a[0];
      assert ab[1..] == a[1..] + b;
      TransfersAppend(a[1..], b);
      var head := if a[0].IsTransfer() then [a[0]] else [];
      assert Transfers(ab) == head + Transfers(a[1..] + b);
      assert Transfers(a) == head + Transfers(a[1..]);
    }
  }

  lemma {:induction false} DispatchesAppend(a: Trace, b: Trace, point: EventHook)
    ensures Dispatches(a + b, point) == Dispatches(a, point) + Dispatches(b, point)
  {
    if a == [] {
      assert a + b == b;
    } else {
      var ab := a + b;
      assert ab[0] == a[0];
      assert ab[1..] == a[1..] + b;
      DispatchesAppend(a[1..], b, point);
    }
  }

  /** A trace with no write creates nothing and transfers nothing. */
  lemma {:induction false} NoWritesNothingWritten(t: Trace)
    requires NoWrites(t)
    ensures Created(t) == [] && Transfers(t) == []
  {
    if t != [] {
      NoWritesNothingWritten(t[1..]);
    }
  }

  /** A trace of consultations and metadata writes creates nothing,
      transfers nothing and dispatches nothing. */
  lemma {:induction false} MetaOnlyTrace(t: Trace)
    requires forall i :: 0 <= i < |t| ==> t[i].Consulted? || t[i].ModMeta?
    ensures Created(t) == [] && Transfers(t) == [] && NoDispatches(t)
  {
    if t != [] {
      MetaOnlyTrace(t[1..]);
    }
  }

  /** Consultations, one transfer, then metadata writes: the shape of
      every writer's trace. */
  lemma OneTransferTrace(pre: Trace, e: Event, post: Trace)
    requires e.IsTransfer()
    requires forall i :: 0 <= i < |pre| ==> pre[i].Consulted?
    requires forall i :: 0 <= i < |post| ==> post[i].ModMeta?
    ensures var t := pre + [e] + post;
            Created(t) == [] && Transfers(t) == [e] && NoDispatches(t)
  {
    MetaOnlyTrace(pre);
    MetaOnlyTrace(post);
    CreatedAppend(pre, [e]);
    CreatedAppend(pre + [e], post);
    TransfersAppend(pre, [e]);
    TransfersAppend(pre + [e], post);
  }

  /** A trace without dispatch events counts no dispatches. */
  lemma {:induction false} NoDispatchesCount(t: Trace, point: EventHook)
    requires NoDispatches(t)
    ensures Dispatches(t, point) == 0
  {
    if t != [] {
      NoDispatchesCount(t[1..], point);
    }
  }

  /** Every collection creation comes before every transfer. */
  predicate CreationsPrecedeTransfers(t: Trace)
  {
    forall i, j :: 0 <= i < |t| && 0 <= j < |t| && t[i].CreateColl? && t[j].IsTransfer() ==> i < j
  }

  lemma {:induction false} CreatedEmpty(t: Trace)
    requires Created(t) == []
    ensures forall i :: 0 <= i < |t| ==> !t[i].CreateColl?
  {
    if t != [] {
      CreatedEmpty(t[1..]);
      assert forall i :: 1 <= i < |t| ==> t[i] == t[1..][i - 1];
    }
  }

  lemma {:induction false} TransfersEmpty(t: Trace)
    requires Transfers(t) == []
    ensures forall i :: 0 <= i < |t| ==> !t[i].IsTransfer()
  {
    if t != [] {
      TransfersEmpty(t[1..]);
      assert forall i :: 1 <= i < |t| ==> t[i] == t[1..][i - 1];
    }
  }

  /** A phase that transfers nothing followed by one that creates nothing. */
  lemma PhasesOrdered(a: Trace, b: Trace)
    requires Transfers(a) == [] && Created(b) == []
    ensures CreationsPrecedeTransfers(a + b)
  {
    TransfersEmpty(a);
    CreatedEmpty(b);
    var t := a + b;
    assert forall k :: 0 <= k < |a| ==> t[k] == a[k];
    assert forall k :: |a| <= k < |t| ==> t[k] == b[k - |a|];
  }

  /** Policy consultations in front of a trace change none of its counts. */
  lemma QuietPrefix(p: Trace, t: Trace)
    requires forall i :: 0 <= i < |p| ==> p[i].Consulted?
    ensures Created(p + t) == Created(t) && Transfers(p + t) == Transfers(t)
    ensures forall q :: Dispatches(p + t, q) == Dispatches(t, q)
    ensures NoWrites(t) ==> NoWrites(p + t)
    ensures NoMetaWrites(t) ==> NoMetaWrites(p + t)
    ensures CreationsPrecedeTransfers(t) ==> CreationsPrecedeTransfers(p + t)
  {
    MetaOnlyTrace(p);
    CreatedAppend(p, t);
    TransfersAppend(p, t);
    forall q
      ensures Dispatches(p + t, q) == Dispatches(t, q)
    {
      DispatchesAppend(p, t, q);
      NoDispatchesCount(p, q);
    }
    var pt := p + t;
    assert forall i :: |p| <= i < |pt| ==> pt[i] == t[i - |p|];
    if CreationsPrecedeTransfers(t) {
      assert forall k :: 0 <= k < |p| ==> pt[k] == p[k];
    }
  }
}

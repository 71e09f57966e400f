/** The reconciliation engine `sync_data_from_file`: classify the target,
    resolve the put / as-replica / sync policies, and drive the ensurer and
    the writers through the hook dispatcher. Session construction, identity
    selection and hook-module loading happen before this point. */
module Engine {
  import opened Wrappers
  import opened Paths
  import opened Trace
  import opened Remote
  import opened Hooks
  import opened Writers
  import opened Dispatch
  import opened Ensurer

  /** The target's state in the catalog, read fresh on every call. */
  datatype TargetState = Absent | IsCollection | IsDataObject

  /** The data-object check is made first, so a path recorded as both is
      treated as a data object. */
  function Classify(c: Catalog, target: Path): (s: TargetState)
    ensures s == IsDataObject <==> target in c.objs
    ensures s == IsCollection <==> target !in c.objs && target in c.colls
  {
    if target in c.objs then IsDataObject
    else if target in c.colls then IsCollection
    else Absent
  }

  /** The policy values, with the defaults used when a hook is undefined. */
  function PutPolicyOf(h: HookModule): bool { h.put.GetOr(false) }
  function AsReplicaOf(h: HookModule): bool { h.asReplica.GetOr(false) }

  /** The scan over the target's replicas for one on the given resource. */
  function HasReplicaOn(replicas: seq<Replica>, resource: string): (found: bool)
    ensures found <==> exists i :: 0 <= i < |replicas| && replicas[i].resource == resource
    decreases |replicas|
  {
    if replicas == [] then false
    else if replicas[0].resource == resource then true
    else
      var rest := HasReplicaOn(replicas[1..], resource);
      assert forall i :: 1 <= i < |replicas| ==> replicas[i] == replicas[1..][i - 1];
      rest
  }

  /** The existing object lacks a replica on the leaf resource, so under
      the as-replica policy a new replica is registered there. */
  ghost predicate MissingLeafReplica(h: HookModule, c: Catalog, target: Path)
  {
    && target in c.objs
    && h.toLeafResource.Some?
    && forall i :: 0 <= i < |c.objs[target]| ==> c.objs[target][i].resource != h.toLeafResource.value
  }

  /** What the engine decided to do with the target. */
  datatype Decision =
    | Refuse(error: Error)
    | Create(put: bool, opts: Options)
    | Modify(put: bool)
    | Vetoed
    | MetadataOnly

  /** A decision together with the policy consultations that led to it. */
  datatype Plan = Plan(decision: Decision, probes: Trace)

  /** The branch taken for an existing object that is not (re)created. */
  function Update(h: HookModule, content: bool, put: bool, probes: Trace): (p: Plan)
    ensures p.probes == probes + (if content && put && h.sync.Some? then [Consulted(SyncPolicy)] else [])
    ensures !content ==> p.decision == MetadataOnly
    ensures content ==> (p.decision == Vetoed <==> put && h.sync == Some(false))
    ensures content && p.decision != Vetoed ==> p.decision == Modify(put)
  {
    if content then
      if put && h.sync.Some? then
        Plan(if h.sync.value then Modify(put) else Vetoed, probes + [Consulted(SyncPolicy)])
      else Plan(Modify(put), probes)
    else Plan(MetadataOnly, probes)
  }

  /** The options of the additive-replica path: `regRepl` is set, every
      other option is kept. */
  function ReplicaOptions(opts: Options): (o: Options)
    ensures RegRepl in o && o.Keys == opts.Keys + {RegRepl}
    ensures forall k :: k in opts && k != RegRepl ==> o[k] == opts[k]
  {
    opts[RegRepl := ""]
  }

  /** The decision part of the engine: every branch the source takes before
      its first write, and the policy hooks it consults on the way. */
  function Decide(h: HookModule, c: Catalog, target: Path, content: bool, opts: Options): (p: Plan)
    ensures forall i :: 0 <= i < |p.probes| ==> p.probes[i].Consulted?
    ensures p.decision == Refuse(TargetIsCollection) <==> Classify(c, target) == IsCollection
    ensures Classify(c, target) == IsCollection ==> p.probes == []
    ensures Classify(c, target) == Absent ==> p.decision == Create(PutPolicyOf(h), opts)
    ensures p.decision == Refuse(NoResourceName) <==>
              target in c.objs && !PutPolicyOf(h) && AsReplicaOf(h) && h.toLeafResource.None?
    ensures p.decision.Refuse? ==> p.decision.error == TargetIsCollection || p.decision.error == NoResourceName
    ensures target in c.objs ==>
              (p.decision.Create? <==> !PutPolicyOf(h) && AsReplicaOf(h) && MissingLeafReplica(h, c, target))
    ensures target in c.objs && p.decision.Create? ==> p.decision == Create(false, ReplicaOptions(opts))
    ensures (Consulted(SyncPolicy) in p.probes) <==>
              target in c.objs && !p.decision.Create? && !p.decision.Refuse?
              && content && PutPolicyOf(h) && h.sync.Some?
    ensures p.decision == Vetoed <==> target in c.objs && content && PutPolicyOf(h) && h.sync == Some(false)
    ensures p.decision.Modify? ==> content && p.decision.put == PutPolicyOf(h)
    ensures p.decision == MetadataOnly <==>
              target in c.objs && !content && !p.decision.Create? && !p.decision.Refuse?
  {
    match Classify(c, target)
    case IsCollection => Plan(Refuse(TargetIsCollection), [])
    case Absent =>
      Plan(Create(PutPolicyOf(h), opts), Consult(h.put, PutPolicy) + Consult(h.asReplica, AsReplicaPolicy))
    case IsDataObject =>
      var put := PutPolicyOf(h);
      var policies := Consult(h.put, PutPolicy) + Consult(h.asReplica, AsReplicaPolicy);
      if !put && AsReplicaOf(h) then
        if h.toLeafResource.None? then Plan(Refuse(NoResourceName), policies)
        else
          var probes := policies + [Consulted(LeafResourcePolicy)];
          if !HasReplicaOn(c.objs[target], h.toLeafResource.value) then
            Plan(Create(false, ReplicaOptions(opts)), probes)
          else Update(h, content, put, probes)
      else Update(h, content, put, policies)
  }

  /** Carry out a decision. */
  function Execute(h: HookModule, c: Catalog, target: Path, path: Path, opts: Options, fs: FileStat, d: Decision): (r: Run)
    ensures d.Refuse? ==> r == Run(c, [], Failed(d.error))
    ensures d == Vetoed ==> r == Run(c, [], Completed)
    ensures !d.Refuse? && r.status.Failed? ==>
              !r.status.error.TargetIsCollection? && !r.status.error.NoResourceName?
  {
    match d
    case Refuse(e) => Run(c, [], Failed(e))
    case Create(put, o) =>
      var dirs := CreateDirs(h, c, Dirname(target), Dirname(path), o, fs);
      if dirs.status.Failed? then dirs
      else Prefix(dirs.trace, Call(h, OnDataObjCreate, CreateObject(put), Args(target, path, o), fs, dirs.cat))
    case Modify(put) => Call(h, OnDataObjModify, ModifyObject(put), Args(target, path, opts), fs, c)
    case Vetoed => Run(c, [], Completed)
    case MetadataOnly => Call(h, OnDataObjModify, SyncFileMeta, Args(target, path, opts), fs, c)
  }

  /** Reconcile one physical file with its logical path. */
  function SyncDataFromFile(h: HookModule, c: Catalog, target: Path, path: Path, content: bool, opts: Options, fs: FileStat): (r: Run)
    ensures Classify(c, target) == IsCollection ==> r == Run(c, [], Failed(TargetIsCollection))
    ensures r.status == Failed(TargetIsCollection) ==> Classify(c, target) == IsCollection && NoWrites(r.trace)
    ensures r.status == Failed(NoResourceName) <==>
              target in c.objs && !PutPolicyOf(h) && AsReplicaOf(h) && h.toLeafResource.None?
    ensures r.status == Failed(NoResourceName) ==> NoWrites(r.trace) && r.cat == c
  {
    var plan := Decide(h, c, target, content, opts);
    Prefix(plan.probes, Execute(h, c, target, path, opts, fs, plan.decision))
  }
}

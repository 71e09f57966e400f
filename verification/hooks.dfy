/** The optional hook module. The Python code probes it with `hasattr`;
    here every hook is an `Option`, absent meaning "not defined". */
module Hooks {
  import opened Wrappers
  import opened Trace

  /** What an event hook does with the default action it is handed:
      run it, do something else instead, or raise. A replacing hook's
      writes depend on the arguments it is handed, such as the target of
      the current level of a descent. */
  datatype Override = Delegate | Replace(effects: Args -> Effects) | Raise(reason: string)

  /** Policy hooks answer with one value per reconciliation; event hooks
      override a decision point. */
  datatype HookModule = HookModule(
    put: Option<bool>,
    asReplica: Option<bool>,
    toLeafResource: Option<string>,
    toRootResource: Option<string>,
    toResourceHier: Option<string>,
    sync: Option<bool>,
    onCollCreate: Option<Override>,
    onDataObjCreate: Option<Override>,
    onDataObjModify: Option<Override>)

  /** The module used when no handler module is named. */
  const NoHooks: HookModule := HookModule(None, None, None, None, None, None, None, None, None)

  /** The hook defined for an event point, if any. */
  function Handler(h: HookModule, point: EventHook): Option<Override>
  {
    match point
    case OnCollCreate => h.onCollCreate
    case OnDataObjCreate => h.onDataObjCreate
    case OnDataObjModify => h.onDataObjModify
  }

  /** An event hook that leaves the default behaviour in place. */
  predicate Faithful(o: Option<Override>)
  {
    o.None? || o.value.Delegate?
  }

  /** The consultation of a policy hook, recorded when it is defined. */
  function Consult<T>(v: Option<T>, policy: PolicyHook): (t: Trace)
    ensures NoWrites(t) && NoDispatches(t)
    ensures |t| <= 1 && (v.Some? <==> t == [Consulted(policy)])
  {
    if v.Some? then [Consulted(policy)] else []
  }
}

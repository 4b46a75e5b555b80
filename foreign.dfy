/**
 * The collaborators the reactivity core talks to but does not define:
 * watchers (subscribers), component instances, and the calls the core
 * makes into them.  A call into code outside the core is not executed by
 * the model; it is recorded, in order, as a `Call` in a trace.
 */
module Foreign {

  datatype Option<T> = None | Some(value: T)

  /** A component instance (`vm`) as the scheduler sees it. */
  class Component {
    /** Identity of the instance, used only to name it in the trace. */
    const cid: nat
    /** The id of `vm._watcher`, the instance's render watcher, if any. */
    var renderWatcher: Option<nat>
    /** `vm._isMounted` */
    var isMounted: bool
    /** `vm._inactive` */
    var inactive: bool

    constructor (cid: nat, renderWatcher: Option<nat>, isMounted: bool, inactive: bool)
      ensures this.cid == cid && this.renderWatcher == renderWatcher
      ensures this.isMounted == isMounted && this.inactive == inactive
    {
      this.cid := cid;
      this.renderWatcher := renderWatcher;
      this.isMounted := isMounted;
      this.inactive := inactive;
    }
  }

  /**
   * A watcher, seen from the core: its unique id, whether it is a user
   * watcher (`watcher.user`), whether it has a `before` hook, and its `vm`.
   * Watcher ids are unique, so two watchers with the same id are the same
   * watcher.
   */
  datatype Watcher = Watcher(id: nat, user: bool, hasBefore: bool, vm: nat)

  /** The warnings the core can raise through `warn`. */
  datatype Warning =
    | SetOnPrimitive          // set() on undefined, null or a primitive
    | DeleteOnPrimitive       // del() on undefined, null or a primitive
    | AddToRootOrInstance     // set() of a new key on a Vue instance or root $data
    | DeleteFromRootOrInstance
    | InfiniteUpdateLoop(inUserWatcher: bool)

  /** A call the core makes into code outside it. */
  datatype Call =
    | AddDep(watcher: Watcher, dep: nat)     // Dep.target.addDep(dep)
    | Update(watcher: Watcher)               // sub.update()
    | CustomSetter                           // customSetter() of a reactive slot
    | Warn(warning: Warning)                 // warn(...)
    | NextTick                               // nextTick(flushSchedulerQueue)
    | Before(watcher: Watcher)               // watcher.before()
    | Run(watcher: Watcher)                  // watcher.run()
    | ActivateChild(vm: nat)           // activateChildComponent(vm, true)
    | UpdatedHook(vm: nat)             // callHook(vm, 'updated')
    | DevtoolsFlush                          // devtools.emit('flush')
}

# Vue 2 reactivity core in Dafny

A model of the reactivity layer of a Vue 2 fork, with its properties proved
in Dafny. It covers four source files.

- `vue/src/core/observer/dep.js`: the dependency channel `Dep`.
  - The `uid` counter that gives each dep a larger id.
  - `Dep.target` and the `targetStack` of `pushTarget`/`popTarget`.
- `vue/src/core/observer/index.js`: `observe` and its guard chain, the
  `Observer` constructor with `walk` and `observeArray`, and the
  `defineReactive` getter and setter. Also `dependArray`, `set`, `del`
  and `toggleObserving`.
- `vue/src/core/observer/array.js`: the seven patched array methods and the
  `mutator` wrapper.
- `vue/src/core/observer/scheduler.js`: the update queue.
  - `queueWatcher`, with its sorted insertion during a flush.
  - `flushSchedulerQueue`, with its live-length loop and circular-update guard.
  - The reset, and the activated and updated hooks.

The modules, one per file:

- **`Foreign`** (foreign.dfy) describes what the core talks to and cannot see:
  - watchers, as records with an id, `user` and `before` flags and their component's id;
  - components, as objects with `_watcher`, `_isMounted` and `_inactive`;
  - warnings;
  - the calls the core makes into outside code. These calls are appended to a
    trace, so that order and multiplicity can be stated.
- **`JsValues`** (jsvalues.dfy) gives JavaScript values: `undefined`, `null`,
  booleans, integers, NaN, strings and object references. It also gives
  property keys, and a `Completion` that is either a value or the `TypeError`
  that strict-mode code throws.
- **`Deps`** (dep.dfy) has class `Globals` for the module state (`uid`,
  `Dep.target`, `targetStack`, the call trace) and class `Dep`.
- **`ArrayOps`** (arrayops.dfy) has the patched-method list, the
  inserted-argument selection, and the effect of each method as ECMA-262
  section 23.1.3 defines it.
- **`Reactivity`** (observer.dfy) has:
  - class `Observer`;
  - class `Closure`, the state a `defineReactive` getter/setter pair closes
    over (`dep`, `val`, `childOb`, and the accessor it delegates to);
  - class `Heap`, which holds the objects and runs `observe`, `defineReactive`,
    `set`, `del` and the mutator.

  Objects live in maps indexed by object id: their fixed shape, `__ob__`,
  own properties, key order and array elements.
- **`Scheduler`** (scheduler.dfy) has class `Scheduler`, whose fields are the
  module state of scheduler.js.

What `watcher.run()` does in turn is given to the flush as data: for each step
of the flush, the watchers it queues and the kept-alive components it
activates. The sort comparator of `Array.prototype.sort` is given the same way.

## Model

| member | source | states |
|---|---|---|
| `Deps.Dep.constructor` | vue/src/core/observer/dep.js:19-22 | the new dep takes `uid` as its id, `uid` grows by one, the id is larger than every id issued before, and `subs` is empty |
| `Deps.Dep.AddSub` | vue/src/core/observer/dep.js:24-26 | `subs` becomes the old list with the subscriber appended |
| `Deps.Dep.RemoveSub` | vue/src/core/observer/dep.js:28-30 | `subs` becomes the old list with the first occurrence of the subscriber removed |
| `Deps.FirstIndex` | vue/src/core/observer/dep.js:29 | `indexOf`: -1 exactly when absent, else the position of the first occurrence |
| `Deps.IndexOf` | vue/src/core/observer/dep.js:29 | the scan returns `FirstIndex` |
| `Deps.RemoveFirstCounts` | vue/src/core/observer/dep.js:28-30 | removal takes out exactly one occurrence when there is one (multiset difference, length one less) and changes nothing otherwise |
| `Deps.RemoveFirstKeepsOrder` | vue/src/core/observer/dep.js:28-30 | the result is the list with its first occurrence cut out, everything else in order |
| `Deps.RemoveUndoesAdd` | vue/src/core/observer/dep.js:24-30 | removing a subscriber just appended, and not there before, restores the list |
| `Deps.Dep.Depend` | vue/src/core/observer/dep.js:32-36 | one `addDep(this)` on the target when a target is set, no call otherwise |
| `Deps.Dep.Notify` | vue/src/core/observer/dep.js:38-45 | one `update()` per subscriber the dep had when `notify` began, in list order, however the updates add or remove subscribers; `subs` ends as that list with those edits applied in call order |
| `Deps.SnapshotDiffersFromLiveList` | vue/src/core/observer/dep.js:41-44 | the snapshot matters: when the first subscriber's `update()` subscribes another watcher, the live list holds it and the calls made do not |
| `Deps.Globals.constructor` | vue/src/core/observer/dep.js:51-52 | no target, empty stack, `uid` 0 |
| `Deps.Globals.PushTarget` | vue/src/core/observer/dep.js:54-58 | the previous target is pushed only when set; the new target is installed |
| `Deps.Globals.PopTarget` | vue/src/core/observer/dep.js:60-62 | the target becomes the popped top of the stack, or none when the stack is empty |
| `Deps.PushPopRestores` | vue/src/core/observer/dep.js:54-62 | with a target set, push then pop restores the target and the stack |
| `Deps.PushPopWithoutTarget` | vue/src/core/observer/dep.js:54-62 | with no target, push leaves the stack alone; push then pop acts as pop alone, and with an empty stack returns to no target |
| `ArrayOps.SevenMethodsPatched` | vue/src/core/observer/array.js:12-20 | exactly seven distinct names are patched, one per method |
| `ArrayOps.Intercepted` | vue/src/core/observer/array.js:12-20 | a name is intercepted exactly when it is on the list, and maps back to its method |
| `ArrayOps.Inserted` | vue/src/core/observer/array.js:32-41 | there are inserted arguments exactly for push, unshift and splice, drawn from the arguments |
| `ArrayOps.NewElementsAreInserted` | vue/src/core/observer/array.js:30 | every element after a call was in the array before or is an inserted argument |
| `ArrayOps.PopKeepsElements` | vue/src/core/observer/array.js:30 | pop adds no element |
| `ArrayOps.ShiftKeepsElements` | vue/src/core/observer/array.js:30 | shift adds no element |
| `ArrayOps.SpliceAddsArgs` | vue/src/core/observer/array.js:30-41 | splice adds only the arguments from the third on |
| `ArrayOps.ReversedElements` | vue/src/core/observer/array.js:30 | reverse keeps the elements and puts element `k` at `length - 1 - k` |
| `ArrayOps.ReverseTwice` | vue/src/core/observer/array.js:30 | reversing twice gives back the array |
| `ArrayOps.PopUndoesPush` | vue/src/core/observer/array.js:30 | pop after push of `x` restores the array and returns `x` |
| `ArrayOps.ShiftUndoesUnshift` | vue/src/core/observer/array.js:30 | shift after unshift of `x` restores the array and returns `x` |
| `ArrayOps.LengthEffects` | vue/src/core/observer/array.js:30 | the length after each method, and push/unshift return the new length |
| `Reactivity.Heap.ArrayCall` | vue/src/core/observer/array.js:29-48 | contents and result are those of the original method (sort: a permutation); on an observed array every inserted argument is settled by `observe`, the only calls before the end are `addDep` calls on the current target (none with no target), and one `update()` per subscriber of `ob.dep` ends the call; with no inserted argument `__ob__` and every object's properties and key order stay as they were; without an observer nothing else happens |
| `Reactivity.Heap.ObserveInserted` | vue/src/core/observer/array.js:43-46 | every inserted argument ends settled by `observe`; the trace is then only `addDep` calls on the current target, then one `update()` per subscriber of `ob.dep` |
| `Reactivity.Heap.ToggleObserving` | vue/src/core/observer/index.js:27-29 | `shouldObserve` takes the value |
| `Reactivity.Observer.constructor` | vue/src/core/observer/index.js:42-46 | a fresh dep with a new id, `vmCount` 0 |
| `Reactivity.Heap.NewObserver` | vue/src/core/observer/index.js:42-57 | `__ob__` is the fresh observer; an array's items all end settled; any other object keeps its key order and has each enumerable configurable key made reactive (`walk`), reading the value it read before, with that value settled by `observe` and the pair's `childOb` exactly that value's `__ob__`; the other properties stay; observers made along the way are only on objects the guard of `observe` allows; only `addDep` calls on the target are recorded |
| `Reactivity.Heap.InstallObserver` | vue/src/core/observer/index.js:42-48 | `__ob__` of the value is a fresh observer over it with `vmCount` 0; nothing else changes |
| `Reactivity.Heap.ObserveContents` | vue/src/core/observer/index.js:49-56 | an array has its items settled; any other object is walked: enumerable configurable keys become reactive pairs that read the value they read before, with that value settled and `childOb` its `__ob__`; the other properties and the key order stay; new observers pass the guard of `observe` |
| `Reactivity.Heap.Walk` | vue/src/core/observer/index.js:64-70 | every enumerable configurable key becomes an enumerable, configurable reactive pair that reads the value the key read before the walk; that value ends settled by `observe` and the pair's `childOb` is exactly its `__ob__`; every other property and the key order stay; observers made along the way pass the guard of `observe`; only `addDep` calls on the target are recorded |
| `Reactivity.Heap.WalkKey` | vue/src/core/observer/index.js:67-69 | one more key of the walk is made reactive when configurable, reading the value it read before the walk, observed with `childOb` its `__ob__`; the keys walked before stay observed although `__ob__` grew; the other properties and the key order stay |
| `Reactivity.Heap.DefineWalked` | vue/src/core/observer/index.js:68 | a locked key is left alone, any other becomes a reactive pair over a fresh closure that reads the value the key read, settled with `childOb` its `__ob__`; a new key goes to the end of the key order; what the walk keeps is kept |
| `Reactivity.EnumerableKeys` | vue/src/core/observer/index.js:65 | `Object.keys`: exactly the own enumerable keys |
| `Reactivity.Heap.ObserveArray` | vue/src/core/observer/index.js:75-79 | every item ends settled; `__ob__` only grows; observed objects keep their properties |
| `Reactivity.Heap.ObserveItem` | vue/src/core/observer/index.js:76-78 | one more item ends settled, and the items before it stay settled |
| `Reactivity.CreateExactlyWhen` | vue/src/core/observer/index.js:113-135 | a new observer is made exactly when the value is an object, not a VNode, has no `__ob__`, is an array or plain object, is extensible and is not a Vue instance, with `shouldObserve` on and not server rendering |
| `Reactivity.DecideIdempotent` | vue/src/core/observer/index.js:119-121 | a value that owns an observer gets that same observer, whatever the flags |
| `Reactivity.Heap.Observe` | vue/src/core/observer/index.js:113-141 | none for non-objects, VNodes and refused objects; the existing observer when there is one; otherwise a fresh one, and then an array's items are all settled, while any other object has each enumerable configurable key made reactive with its value observed and `childOb` set to that value's `__ob__`; a root use raises `vmCount` by exactly one; afterwards the value is settled and the result is exactly its `__ob__` (`ObserverOf`); observers made along the way are only on objects the guard allows; only `addDep` calls on the target are recorded |
| `Reactivity.Heap.ObserveNew` | vue/src/core/observer/index.js:134-139 | the fresh observer is `__ob__` with `vmCount` 1 for a root use and 0 otherwise; an array's items are settled, any other object is walked with every reactive key's value observed; observers made along the way pass the guard |
| `Reactivity.SettledStays` | vue/src/core/observer/index.js:119-135 | a settled value keeps its `__ob__` and stays settled while `__ob__` grows only on objects the guard allows |
| `Reactivity.Heap.DefineReactive` | vue/src/core/observer/index.js:146-172 | a non-configurable key is left alone; otherwise the key becomes an enumerable, configurable reactive pair over a fresh closure with a fresh dep with no subscribers, delegating to the previous accessor, whose getter reads the given value, or without one the value the key had; unless shallow that value ends settled and the child observer is exactly its `__ob__`; a new key goes to the end of the key order |
| `Reactivity.Heap.Reactify` | vue/src/core/observer/index.js:168-172 | installs the pair over a fresh closure holding the value and the prior accessor; unless shallow the value ends settled and `childOb` is exactly its `__ob__`, when shallow `childOb` is none |
| `Reactivity.Heap.ObserveUnlessShallow` | vue/src/core/observer/index.js:168 | when shallow: none, and `__ob__` unchanged; otherwise the value ends settled and the result is exactly its `__ob__` (none for a non-object, a VNode or a refused object) |
| `Reactivity.Heap.InstallReactive` | vue/src/core/observer/index.js:170-172 | `Object.defineProperty` with the getter/setter pair: only that key of that object changes |
| `Reactivity.Heap.ReadProp` | vue/src/core/observer/index.js:165 | `obj[key]`: a data value, an accessor's getter or undefined, a reactive getter's value |
| `Reactivity.Heap.ReactiveGet` | vue/src/core/observer/index.js:173-187 | returns the current value; with no target nothing is recorded, with one the closure's dep, the child observer's dep, and the deps of a nested array's elements register with it, in that order |
| `Reactivity.Heap.DependArray` | vue/src/core/observer/index.js:297-305 | `depend()` on the observer dep of each element in order, descending into element arrays |
| `Reactivity.Heap.DependElement` | vue/src/core/observer/index.js:299-303 | one element: its own observer dep, then the descent when it is an array |
| `Reactivity.ItemsDependsCovers` | vue/src/core/observer/index.js:297-305 | every element that has an observer has its dep registered |
| `Reactivity.SelfContainingArrayNeverFinishes` | vue/src/core/observer/index.js:297-305 | as written, the descent into an array that holds itself never finishes, however deep it is allowed to go |
| `Reactivity.ItemsDependsCoversNested` | vue/src/core/observer/index.js:297-305 | every observed value reached from the array through a chain of nested observed arrays has its dep registered |
| `Reactivity.ItemsDependsHasElement` | vue/src/core/observer/index.js:299-303 | the deps the descent registers for one element are among those registered for the whole array |
| `Reactivity.ItemsAsWrittenMore` | vue/src/core/observer/index.js:297-305 | a descent as written that finishes within some depth gives the same deps with any greater depth |
| `Reactivity.ItemsAsWrittenAgrees` | vue/src/core/observer/index.js:297-305 | when the descent as written finishes on elements inside the arrays `path`, none of which finishes with one level less, it registers exactly the deps the corrected descent registers |
| `Reactivity.ArrayDependsAsWrittenAgrees` | vue/src/core/observer/index.js:297-305 | whenever `dependArray` as written finishes on an array, its result is the corrected descent's, so the two differ only on arrays that hold themselves |
| `Reactivity.SetterSkips` | vue/src/core/observer/index.js:191-193 | the setter's early exit holds exactly when the new value equals the old, NaN included |
| `Reactivity.Heap.ReactiveSet` | vue/src/core/observer/index.js:188-207 | an equal value changes nothing; otherwise the custom setter call (development only), the store through the prior setter or into `val`, `childOb` exactly the new value's `__ob__` unless shallow (none when shallow), then only `addDep` calls on the target and one `update()` per subscriber of the closure's dep last; a read after it gives the value stored |
| `Reactivity.Heap.SetChanged` | vue/src/core/observer/index.js:195-206 | the custom setter call (development only), the store, `childOb` exactly the new value's `__ob__` unless shallow, then one `update()` per subscriber of the dep, with only `addDep` calls on the target before them |
| `Reactivity.Heap.StoreNotify` | vue/src/core/observer/index.js:198-206 | the store and `childOb` exactly the new value's `__ob__` unless shallow, then one `update()` per subscriber of the dep, with only `addDep` calls on the target before them |
| `Reactivity.Heap.Store` | vue/src/core/observer/index.js:198-204 | the store into the cell or `val`, then `childOb` is none when shallow and otherwise exactly the new value's `__ob__`, which ends settled |
| `Reactivity.Heap.ObserveChild` | vue/src/core/observer/index.js:204 | `childOb` is none when shallow (and `__ob__` unchanged), else exactly the new value's `__ob__` after `observe`, which settles it |
| `Reactivity.Heap.Set` | vue/src/core/observer/index.js:216-256 | per branch: a primitive warns and throws; an array index is written through splice, and the properties of other objects observed before, or still unobserved, stay; an own key is assigned, other objects observed before, or still unobserved, keep their properties, and for a non-reactive key `__ob__` and the key order stay too; a new key on a root `$data` or Vue instance is refused with a warning and nothing changes; a new key on an unobserved object becomes a data property; on an observed object it becomes an enumerable, configurable reactive pair holding the value, which ends settled with `childOb` its `__ob__`, other objects observed before, or still unobserved, keep their properties, and `ob.dep` is notified once; the value is returned |
| `Reactivity.Heap.SetArrayIndex` | vue/src/core/observer/index.js:226-231 | the elements become `SetIndex` of the old ones; on an observed array the value ends settled, then only `addDep` calls on the target and one `update()` per subscriber of `ob.dep`, and the properties of objects observed before, or still unobserved, stay; on an unobserved one nothing else changes |
| `Reactivity.Padded` | vue/src/core/observer/index.js:227 | the array keeps its elements and grows to `key` with undefined |
| `Reactivity.SetIndexElements` | vue/src/core/observer/index.js:226-231 | afterwards element `n` is the value, every other element is as before (undefined past the old end), the length is `max(old length, n + 1)` |
| `Reactivity.Heap.AssignOwn` | vue/src/core/observer/index.js:233-236 | a writable data property or an accessor with a setter takes the value; a reactive property runs the setter; a read-only property throws and changes nothing |
| `Reactivity.StoredReadsBack` | vue/src/core/observer/index.js:234 | after the assignment a read gives the value, and the attributes stay |
| `Reactivity.Heap.AddReactive` | vue/src/core/observer/index.js:252-255 | the new key is an enumerable, configurable reactive pair holding the value, at the end of the key order; the value ends settled and the pair's child observer is exactly its `__ob__`; then `ob.dep` is notified once |
| `Reactivity.Heap.Delete` | vue/src/core/observer/index.js:261-291 | per branch: a primitive warns (and throws on undefined, null, or a string's own index or length); an array index is spliced out, leaving `__ob__` and the properties as they were; a root `$data` or Vue instance is refused with a warning; an absent key changes nothing; an own configurable key is removed from the properties and the key order, then `ob.dep` is notified once when observed; a non-configurable key throws |
| `Reactivity.Heap.DeleteArrayIndex` | vue/src/core/observer/index.js:270-273 | the elements become `DeleteIndex` of the old ones; `__ob__` and every object's properties and key order stay; on an observed array the trace ends with one `update()` per subscriber of `ob.dep`, with only `addDep` calls on the target before them; on an unobserved one nothing else changes |
| `Reactivity.Heap.DeleteOwn` | vue/src/core/observer/index.js:285-290 | a configurable key leaves the properties and the key order, then the observer dep (if any) is notified; a non-configurable one throws and changes nothing |
| `Reactivity.DeleteIndexElements` | vue/src/core/observer/index.js:270-273 | the element at `n` is removed; past the end nothing changes |
| `Reactivity.DeleteUndoesSetAtEnd` | vue/src/core/observer/index.js:226-273 | deleting the element `set` appended gives back the array |
| `Reactivity.WithoutKey` | vue/src/core/observer/index.js:286 | the key order after `delete` holds every other key and not the deleted one |
| `Reactivity.WithoutAppended` | vue/src/core/observer/index.js:286 | deleting the key added last restores the key order before it was added |
| `Reactivity.NotifiedWithoutTarget` | vue/src/core/observer/dep.js:32-45 | with no target set, the trace of an operation that ends in `notify()` is the old trace plus exactly one `update()` per subscriber |
| `Scheduler.SortByIdSorted` | vue/src/core/observer/scheduler.js:51 | the sorted queue is in ascending id order |
| `Scheduler.SortByIdElements` | vue/src/core/observer/scheduler.js:51 | the sorted queue holds the same watchers |
| `Scheduler.SortByIdKeepsSorted` | vue/src/core/observer/scheduler.js:51 | an already sorted queue is left as it is |
| `Scheduler.FindSlot` | vue/src/core/observer/scheduler.js:146-151 | the backward scan stops after `index`; every entry it passed has a larger id, and the entry before the slot a smaller or equal one |
| `Scheduler.SlotUnique` | vue/src/core/observer/scheduler.js:146-151 | those conditions fix the slot |
| `Scheduler.SlotKeepsSorted` | vue/src/core/observer/scheduler.js:146-153 | inserting at the slot keeps the part after `index` sorted, keeps the part up to `index`, and puts the watcher at the slot |
| `Scheduler.StepCalls` | vue/src/core/observer/scheduler.js:57-64 | one flush step calls `before()` exactly when the watcher has it, then `run()` |
| `Scheduler.RunCallsRunWatchers` | vue/src/core/observer/scheduler.js:55-64 | the `run()` calls of a flush name exactly the watchers visited, in order |
| `Scheduler.UpdatedCallsAppend` | vue/src/core/observer/scheduler.js:99-109 | the updated hooks of a queue run in reverse order |
| `Scheduler.UpdatedCallsExactly` | vue/src/core/observer/scheduler.js:99-109 | an updated hook is called exactly for the watchers that are their component's render watcher with the component mounted |
| `Scheduler.Scheduler.constructor` | vue/src/core/observer/scheduler.js:11-17 | empty queues, sets and maps, flags false, `index` 0 |
| `Scheduler.Scheduler.ResetSchedulerState` | vue/src/core/observer/scheduler.js:23-30 | both lists empty, `has` empty, `circular` empty in development builds, `index` 0, both flags false |
| `Scheduler.Scheduler.StartFlush` | vue/src/core/observer/scheduler.js:35-55 | `flushing` is set, the queue becomes the old queue sorted by id, a permutation of it in ascending id order, and `index` is 0 |
| `Scheduler.Scheduler.QueueWatcher` | vue/src/core/observer/scheduler.js:134-163 | a known id changes nothing; otherwise the id is marked and the watcher goes at the end, or during a flush at the slot after `index`; `nextTick` is requested only when not already waiting, so at most once between resets |
| `Scheduler.Scheduler.QueueActivatedComponent` | vue/src/core/observer/scheduler.js:115-120 | the component is marked active and appended |
| `Scheduler.Scheduler.CallActivatedHooks` | vue/src/core/observer/scheduler.js:122-127 | forward order: every component is marked inactive and activated once |
| `Scheduler.Scheduler.CallUpdatedHooks` | vue/src/core/observer/scheduler.js:99-109 | the reverse-order updated hooks |
| `Scheduler.Scheduler.React` | vue/src/core/observer/scheduler.js:64 | what one `run()` may do: queue a watcher (keeping the rest of the queue sorted and the visited part fixed) or activate a component |
| `Scheduler.Scheduler.ReactQueue` | vue/src/core/observer/scheduler.js:134-163 | a watcher queued during a run is marked, and the queue past the cursor stays sorted while the visited part is kept |
| `Scheduler.Scheduler.ReactAll` | vue/src/core/observer/scheduler.js:64 | all reactions of one `run()`, with the same guarantees |
| `Scheduler.Scheduler.RunEntry` | vue/src/core/observer/scheduler.js:56-64 | `before()` when present, `has[id]` cleared, `run()`; the visited part of the queue is not touched |
| `Scheduler.Scheduler.RunEntryAt` | vue/src/core/observer/scheduler.js:55-64 | the trace of the flush so far grows by exactly the entry at the cursor |
| `Scheduler.Scheduler.CheckCircular` | vue/src/core/observer/scheduler.js:66-77 | in development builds a re-queued id has its count raised by one, and the loop stops exactly when it passes 100 |
| `Scheduler.Scheduler.FlushStep` | vue/src/core/observer/scheduler.js:55-79 | one step of the loop: the trace grows by that step, and the warning is logged on a stop |
| `Scheduler.Scheduler.RunQueue` | vue/src/core/observer/scheduler.js:55-79 | the loop visits the live queue in order to its end, or stops on the watcher whose count passed 100 (development builds only); the trace is exactly the calls of the visited watchers |
| `Scheduler.Scheduler.EmitFlush` | vue/src/core/observer/scheduler.js:94-96 | the devtools `flush` event when devtools are on |
| `Scheduler.Scheduler.FinishFlush` | vue/src/core/observer/scheduler.js:82-96 | snapshots of both lists, the reset, activated hooks forward, updated hooks in reverse, then devtools |
| `Scheduler.Scheduler.FlushSchedulerQueue` | vue/src/core/observer/scheduler.js:35-97 | the queue is sorted by id and drained; the state ends reset; the trace is the runs, the warning if the loop stopped, the activated hooks, the updated hooks in reverse, the devtools event; with no re-queueing the updated snapshot is the sorted old queue |

## Left out

- Calls into code outside the core are not executed. They are appended to a
  trace as records: `nextTick`, `warn`, `callHook`, `activateChildComponent`,
  `devtools.emit`, a `customSetter`, and a watcher's `addDep`, `update`,
  `before` and `run`. The bodies of these calls are not part of this model.
- What `watcher.run()` does is given as data: a finite list of
  reactions per flush step. So a production build's flush, which has no
  circular guard and never ends on a watcher that always re-queues itself,
  cannot be expressed. `before()` is taken to queue nothing.
- Warning messages are given as a kind; their text and the watcher
  expression are left out.
- The devtools condition `devtools && config.devtools` is one flag.
- `copyAugment` and `protoAugment` are not modelled as prototype changes. An
  observed array's patched methods go through the mutator branch of
  `Reactivity.Heap.ArrayCall`; other arrays get the plain method.
- The prototype chain is not modelled: `key in target` and `hasOwn` look
  only at own properties. An array's `length` is not a named property.
- Reactivity.Heap.Set: the test `!(key in Object.prototype)`
  (vue/src/core/observer/index.js:233) is taken as true. So an own key
  named like an `Object.prototype` member (`toString`, `valueOf`,
  `constructor`, …) is assigned. The code instead handles it as a new key:
  refused on a root `$data`, assigned on an unobserved object, and made
  reactive again by `defineReactive`, then notified, on an observed one. A
  key of that name that is only inherited takes the new-key path, as in the
  code.
- Reactivity.Heap.SetArrayIndex: array lengths are unbounded. For an index
  of 2^32 − 1 or more the code throws a `RangeError`
  (vue/src/core/observer/index.js:227-229): at `target.length = key` past
  2^32 − 1, or in `splice` when the length would pass it. The model grows
  the array instead.
- Reactivity.Heap.Set: on an array index it inherits the unbounded length of
  `Reactivity.Heap.SetArrayIndex`.
- An array hole reads as `undefined` and is stored as `undefined`.
- `Object.keys` gives keys in insertion order; JavaScript lists
  integer-like keys first.
- Extensibility is fixed for each object. A later `Object.freeze` or
  `Object.preventExtensions` is not modelled, and arrays are taken to keep a
  writable `length`.
- A pre-existing accessor is a getter/setter pair over a cell of its own. A
  reactive pair that replaces an earlier reactive pair reads and writes the
  earlier pair's value through such a cell. The earlier pair's own setter
  logic, such as its notification, does not run.
- Numbers are integers and NaN. Floating point, infinities, symbols and the
  conversion of strings and objects to numbers are left out.
- Sort's comparator is foreign code. The order it produces is a parameter,
  required to be a permutation of the elements.
- `flushSchedulerQueue` sorts with a functional stable insertion sort.
  `Array.prototype.sort` is built in, not a loop of the source.
- Reactivity.Heap.Set: for an own reactive key, its contract states the return value
  and the value read back afterwards. The notification is stated by
  `Reactivity.Heap.AssignOwn`.
- A `TypeError` is a `Throw` completion; the error object and its message
  are left out. index.js is an ES module and runs in strict mode, so misuse of `set` and `del`
  throws rather than only warning:
  - `set` on a primitive warns, then throws at `key in target`;
  - `del` on `undefined`, `null` or a string's own index or `length` throws;
  - an assignment to a read-only property throws, as does a delete of a
    non-configurable one.

## Findings

| source | as written | input that shows it | evidently intended | confidence | as-written member | corrected member |
|---|---|---|---|---|---|---|
| vue/src/core/observer/index.js:297-305 | `dependArray` enters every element that is an array, with no record of the arrays it is already inside | a reactive property holding an observed array `a` with `a[0] === a`, read while a watcher is the target: the descent never finishes (stack overflow) | the descent registers each element's observer dep once per nesting and stops at an array it is already inside | medium, not executed | `Reactivity.SelfContainingArrayNeverFinishes` | `Reactivity.Heap.DependArray` (with `Reactivity.ItemsDependsCovers`, `Reactivity.ItemsDependsCoversNested` and `Reactivity.ArrayDependsAsWrittenAgrees`) |

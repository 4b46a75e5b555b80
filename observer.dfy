/**
 * Observers and reactive properties (core/observer/index.js) and the array
 * mutator wrapper (core/observer/array.js).
 *
 * JavaScript objects live in a heap indexed by object id.  What never
 * changes about an object (its kind and flags) is its `Shape`; each
 * mutable aspect of the heap is a map of its own: the hidden `__ob__`
 * property, the own properties, their enumeration order and the array
 * elements.  An `Observer` instance is an object of class `Observer`, and
 * the state a `defineReactive` getter/setter pair closes over (`dep`,
 * `val`, `childOb`, and the pre-existing accessor it delegates to) is an
 * object of class `Closure`.
 */
module Reactivity {
  import opened Foreign
  import opened JsValues
  import opened Deps
  import opened ArrayOps
  import opened SeqFacts

  /** `getter ? getter.call(obj) : val`: a pre-existing getter reads its backing cell. */
  function ClosureValue(hasGetter: bool, val: Value, cell: Value): Value
  {
    if hasGetter then cell else val
  }

  /** What kind of object: `isPlainObject`, `Array.isArray`, a function, or any other object. */
  datatype Kind = PlainObject | ArrayObject | FunctionObject | OtherObject

  /** The parts of an object the core reads but never changes. */
  datatype Shape = Shape(
    kind: Kind,
    extensible: bool,         // Object.isExtensible
    isVue: bool,              // _isVue
    isVNode: bool)            // instanceof VNode

  /** An `Observer` instance. */
  class Observer {
    /** the observed object */
    const value: ObjId
    const dep: Dep
    /** the number of component instances that have this object as root `$data` */
    var vmCount: nat

    /** The part of `new Observer(value)` that sets its own fields: a fresh dep, `vmCount` 0. */
    constructor (value: ObjId, g: Globals)
      requires IdsIssued(g.uid, g.issued)
      modifies g`uid, g`issued
      ensures IdsIssued(g.uid, g.issued) && g.uid == old(g.uid) + 1 && g.issued == old(g.issued) + [dep.id]
      ensures this.value == value && fresh(dep) && dep.id == old(g.uid) && dep.subs == [] && vmCount == 0
    {
      this.value := value;
      dep := new Dep(g);
      vmCount := 0;
    }
  }

  /**
   * The state the getter/setter pair of one `defineReactive` call closes
   * over.  A pre-existing getter reads, and a pre-existing setter writes,
   * a backing `cell` of its own.
   */
  class Closure {
    const dep: Dep
    var val: Value
    var childOb: Option<Observer>
    const shallow: bool
    const customSetter: bool
    /** `property.get` was present */
    const hasGetter: bool
    /** `property.set` was present */
    const hasSetter: bool
    var cell: Value

    constructor (dep: Dep, val: Value, childOb: Option<Observer>, shallow: bool, customSetter: bool, prior: Prior)
      ensures this.dep == dep && this.val == val && this.childOb == childOb
      ensures this.shallow == shallow && this.customSetter == customSetter
      ensures hasGetter == prior.hasGetter && hasSetter == prior.hasSetter && cell == prior.cell
    {
      this.dep := dep;
      this.val := val;
      this.childOb := childOb;
      this.shallow := shallow;
      this.customSetter := customSetter;
      hasGetter := prior.hasGetter;
      hasSetter := prior.hasSetter;
      cell := prior.cell;
    }

    /** `getter ? getter.call(obj) : val` */
    function Current(): Value
      reads this
    {
      ClosureValue(hasGetter, val, cell)
    }
  }

  /**
   * A property: a data property, an accessor pair defined by code outside
   * the core (its getter reads and its setter writes a backing cell), or a
   * reactive getter/setter pair over a `Closure`.
   */
  datatype PropKind =
    | Data(value: Value, writable: bool)
    | Accessor(hasGet: bool, hasSet: bool, cell: Value)
    | Reactive(closure: Closure)

  datatype Prop = Prop(kind: PropKind, enumerable: bool, configurable: bool)

  /** The accessor a property already had: `property.get`, `property.set` and their shared state. */
  datatype Prior = Prior(hasGetter: bool, hasSetter: bool, cell: Value)

  /** How `observe(value)` decides, before it changes anything. */
  datatype Decision =
    | NotAnObject             // not an object, or a VNode: returns nothing
    | Reuse(ob: Observer)     // the value already owns an observer
    | Create                  // a new Observer is made for the value
    | Refuse                  // an object that is not to be observed

  /** The last four conditions of `observe`'s guard. */
  predicate MayCreate(sh: Shape, shouldObserve: bool, serverRendering: bool)
  {
    shouldObserve && !serverRendering && (sh.kind == ArrayObject || sh.kind == PlainObject) &&
    sh.extensible && !sh.isVue
  }

  /** The guard chain of `observe`. */
  function Decide(shapes: map<ObjId, Shape>, obOf: map<ObjId, Observer>, v: Value,
                  shouldObserve: bool, serverRendering: bool): Decision
  {
    if !v.Ref? || v.obj !in shapes || shapes[v.obj].kind == FunctionObject || shapes[v.obj].isVNode then NotAnObject
    else if v.obj in obOf then Reuse(obOf[v.obj])
    else if MayCreate(shapes[v.obj], shouldObserve, serverRendering) then Create
    else Refuse
  }

  /** A new observer is made exactly when every condition of the guard holds. */
  lemma CreateExactlyWhen(shapes: map<ObjId, Shape>, obOf: map<ObjId, Observer>, v: Value, so: bool, ssr: bool)
    ensures Decide(shapes, obOf, v, so, ssr) == Create <==>
            v.Ref? && v.obj in shapes && v.obj !in obOf &&
            shapes[v.obj].kind in {ArrayObject, PlainObject} && !shapes[v.obj].isVNode &&
            so && !ssr && shapes[v.obj].extensible && !shapes[v.obj].isVue
  {
  }

  /** Once a value owns an observer, observing it again finds that same observer, whatever the flags. */
  lemma DecideIdempotent(shapes: map<ObjId, Shape>, obOf: map<ObjId, Observer>, p: ObjId)
    requires p in shapes && p in obOf
    requires shapes[p].kind != FunctionObject && !shapes[p].isVNode
    ensures forall so: bool, ssr: bool :: Decide(shapes, obOf, Ref(p), so, ssr) == Reuse(obOf[p])
  {
  }

  /** `Object.keys(obj)`: the own enumerable keys, in order. */
  function EnumerableKeys(keys: seq<Key>, props: map<Key, Prop>): (r: seq<Key>)
    ensures forall k :: k in r <==> k in keys && k in props && props[k].enumerable
  {
    if keys == [] then []
    else (if keys[0] in props && props[keys[0]].enumerable then [keys[0]] else [])
         + EnumerableKeys(keys[1..], props)
  }

  /** `__ob__`, once set, stays: `obOf` only gains entries. */
  ghost predicate Extends(obOf0: map<ObjId, Observer>, obOf: map<ObjId, Observer>)
  {
    forall p {:trigger p in obOf0} :: p in obOf0 ==> p in obOf && obOf[p] == obOf0[p]
  }

  /**
   * The properties and key order of every object other than `except` that
   * was observed in `obOf0`, or is still unobserved in `obOf`, are as in
   * `props0`: only objects observed along the way are walked.
   */
  ghost predicate PropsKeptFrom(obOf0: map<ObjId, Observer>, props0: map<ObjId, map<Key, Prop>>, keys0: map<ObjId, seq<Key>>,
                                except: Option<ObjId>, obOf: map<ObjId, Observer>,
                                props: map<ObjId, map<Key, Prop>>, keys: map<ObjId, seq<Key>>)
  {
    forall p {:trigger p in props0} :: p in props0 && p in keys0 && Some(p) != except && (p in obOf0 || p !in obOf) ==>
      p in props && p in keys && props[p] == props0[p] && keys[p] == keys0[p]
  }

  /**
   * Every object has an entry in each of the property, key order and
   * element maps, and `__ob__` and `Observer.value` point at each other.
   */
  ghost predicate WellFormed(shapes: map<ObjId, Shape>, obOf: map<ObjId, Observer>, props: map<ObjId, map<Key, Prop>>,
                             keys: map<ObjId, seq<Key>>, items: map<ObjId, seq<Value>>)
  {
    && obOf.Keys <= shapes.Keys
    && (forall p {:trigger p in shapes} :: p in shapes ==> p in props && p in keys && p in items)
    && (forall p :: p in obOf ==> obOf[p].value == p)
    // `observe` only creates an observer for an extensible object, and extensibility is fixed
    && forall p {:trigger p in obOf} :: p in obOf ==> shapes[p].extensible
  }

  /**
   * `observe` has nothing left to do for the value: it is not an object
   * that would get a new observer now.  Once true, it stays true while
   * `__ob__` only grows.
   */
  predicate Settled(shapes: map<ObjId, Shape>, obOf: map<ObjId, Observer>, v: Value, so: bool, ssr: bool)
  {
    !Decide(shapes, obOf, v, so, ssr).Create?
  }

  /**
   * What `observe(v)` returns once it has run: the value's `__ob__`,
   * unless the value is not an object or is a VNode.
   */
  function ObserverOf(shapes: map<ObjId, Shape>, obOf: map<ObjId, Observer>, v: Value): (r: Option<Observer>)
    ensures r.Some? ==> v.Ref? && v.obj in obOf && obOf[v.obj] == r.value
  {
    if Decide(shapes, obOf, v, true, false).Reuse? then Some(obOf[v.obj]) else None
  }

  /** `Settled` survives a growth of `__ob__`, so `observeArray` keeps what it has done. */
  lemma SettledStep(shapes: map<ObjId, Shape>, vals: seq<Value>, i: nat, obOf0: map<ObjId, Observer>,
                    obOf1: map<ObjId, Observer>, so: bool, ssr: bool)
    requires i < |vals| && Extends(obOf0, obOf1)
    requires forall j :: 0 <= j < i ==> Settled(shapes, obOf0, vals[j], so, ssr)
    requires Settled(shapes, obOf1, vals[i], so, ssr)
    ensures forall j :: 0 <= j < i + 1 ==> Settled(shapes, obOf1, vals[j], so, ssr)
  {
  }

  /**
   * Every observer added since `obOf0` is on an object the guard of
   * `observe` allows one for: `new Observer` is only reached through it.
   */
  ghost predicate CreatedAsAllowed(shapes: map<ObjId, Shape>, obOf0: map<ObjId, Observer>, obOf: map<ObjId, Observer>,
                                   so: bool, ssr: bool)
  {
    forall q {:trigger q in obOf} :: q in obOf && q !in obOf0 ==> q in shapes && MayCreate(shapes[q], so, ssr)
  }

  /** `__ob__` only grows, so growing it twice is growing it. */
  lemma ExtendsTrans(obOf0: map<ObjId, Observer>, obOf1: map<ObjId, Observer>, obOf2: map<ObjId, Observer>)
    requires Extends(obOf0, obOf1) && Extends(obOf1, obOf2)
    ensures Extends(obOf0, obOf2)
  {
  }

  /** Observers created as allowed in two steps were created as allowed. */
  lemma CreatedAsAllowedTrans(shapes: map<ObjId, Shape>, obOf0: map<ObjId, Observer>, obOf1: map<ObjId, Observer>,
                              obOf2: map<ObjId, Observer>, so: bool, ssr: bool)
    requires CreatedAsAllowed(shapes, obOf0, obOf1, so, ssr) && CreatedAsAllowed(shapes, obOf1, obOf2, so, ssr)
    ensures CreatedAsAllowed(shapes, obOf0, obOf2, so, ssr)
  {
  }

  /**
   * A settled value keeps its observer while `__ob__` grows as `observe`
   * allows: an object it refused is not given an observer later.
   */
  lemma SettledStays(shapes: map<ObjId, Shape>, obOf0: map<ObjId, Observer>, obOf1: map<ObjId, Observer>,
                     v: Value, so: bool, ssr: bool)
    requires Extends(obOf0, obOf1) && CreatedAsAllowed(shapes, obOf0, obOf1, so, ssr)
    requires Settled(shapes, obOf0, v, so, ssr)
    ensures Settled(shapes, obOf1, v, so, ssr) && ObserverOf(shapes, obOf1, v) == ObserverOf(shapes, obOf0, v)
  {
  }

  /** The heap of JavaScript objects and their observers. */
  class Heap {
    const g: Globals
    /** `process.env.NODE_ENV !== 'production'` */
    const dev: bool
    /** `isServerRendering()` */
    const serverRendering: bool
    const shapes: map<ObjId, Shape>
    /** `shouldObserve` */
    var shouldObserve: bool
    /** `__ob__` of each observed object */
    var obOf: map<ObjId, Observer>
    var props: map<ObjId, map<Key, Prop>>
    var keys: map<ObjId, seq<Key>>
    var items: map<ObjId, seq<Value>>

    /** A heap of objects none of which is observed yet. */
    constructor (g: Globals, dev: bool, serverRendering: bool, shapes: map<ObjId, Shape>,
                 props: map<ObjId, map<Key, Prop>>, keys: map<ObjId, seq<Key>>, items: map<ObjId, seq<Value>>)
      requires IdsIssued(g.uid, g.issued)
      requires props.Keys == shapes.Keys && keys.Keys == shapes.Keys && items.Keys == shapes.Keys
      ensures IdsIssued(g.uid, g.issued) && WellFormed(shapes, obOf, props, keys, items) && fresh(this)
      ensures this.g == g && this.dev == dev && this.serverRendering == serverRendering
      ensures this.shapes == shapes && this.props == props && this.keys == keys && this.items == items
      ensures shouldObserve && obOf == map[]
    {
      this.g := g;
      this.dev := dev;
      this.serverRendering := serverRendering;
      this.shapes := shapes;
      this.props := props;
      this.keys := keys;
      this.items := items;
      shouldObserve := true;
      obOf := map[];
    }

    /** `toggleObserving(value)` */
    method ToggleObserving(value: bool)
      modifies this`shouldObserve
      ensures shouldObserve == value
    {
      shouldObserve := value;
    }

    /**
     * `observe(value, asRootData)`: the existing observer, a new one, or
     * none, following `Decide`; a root use raises `vmCount` by one.
     */
    method Observe(v: Value, asRoot: bool) returns (r: Option<Observer>)
      requires IdsIssued(g.uid, g.issued) && WellFormed(shapes, obOf, props, keys, items)
      modifies this`obOf, this`props, this`keys, g`uid, g`issued, g`trace
      modifies if asRoot && v.Ref? && v.obj in obOf then {obOf[v.obj]} else {}
      decreases shapes.Keys - obOf.Keys, 3
      ensures IdsIssued(g.uid, g.issued) && WellFormed(shapes, obOf, props, keys, items) && Extends(old(obOf), obOf)
      ensures PropsKeptFrom(old(obOf), old(props), old(keys), None, obOf, props, keys)
      ensures shapes.Keys - obOf.Keys <= old(shapes.Keys - obOf.Keys)
      ensures DependsOnly(old(g.trace), g.trace, g.target)
      ensures CreatedAsAllowed(shapes, old(obOf), obOf, shouldObserve, serverRendering)
      ensures Settled(shapes, obOf, v, shouldObserve, serverRendering)
      ensures r == ObserverOf(shapes, obOf, v)
      ensures var d := Decide(shapes, old(obOf), v, shouldObserve, serverRendering);
              && ((d.NotAnObject? || d.Refuse?) ==>
                    r == None && obOf == old(obOf) && props == old(props) && keys == old(keys) && unchanged(g))
              && (d.Reuse? ==>
                    && r == Some(d.ob) && obOf == old(obOf) && props == old(props) && keys == old(keys) && unchanged(g)
                    && d.ob.vmCount == old(d.ob.vmCount) + (if asRoot then 1 else 0))
              && (d.Create? ==>
                    && r.Some? && fresh(r.value) && r.value.vmCount == (if asRoot then 1 else 0)
                    && (shapes[v.obj].kind == ArrayObject ==>
                          forall i :: 0 <= i < |items[v.obj]| ==> Settled(shapes, obOf, items[v.obj][i], shouldObserve, serverRendering))
                    && (shapes[v.obj].kind != ArrayObject ==>
                          && keys[v.obj] == old(keys[v.obj])
                          && WalkedOn(old(props[v.obj]), EnumerableKeys(old(keys[v.obj]), old(props[v.obj])), props[v.obj])
                          && KeysObserved(shapes, obOf, shouldObserve, serverRendering, old(Values(props[v.obj])), old(props[v.obj]),
                                          EnumerableKeys(old(keys[v.obj]), old(props[v.obj])), props[v.obj])))
    {
      var d := Decide(shapes, obOf, v, shouldObserve, serverRendering);
      if d.NotAnObject? || d.Refuse? {
        return None;
      }
      var ob;
      if d.Reuse? {
        ob := d.ob;
        if asRoot {
          ob.vmCount := ob.vmCount + 1;
        }
      } else {
        ob := ObserveNew(v.obj, asRoot);
      }
      r := Some(ob);
    }

    /** The `Create` branch of `observe`: `new Observer(value)`, then `vmCount++` for a root use. */
    method ObserveNew(p: ObjId, asRoot: bool) returns (ob: Observer)
      requires IdsIssued(g.uid, g.issued) && WellFormed(shapes, obOf, props, keys, items)
      requires p in shapes && p !in obOf && shapes[p].extensible
      modifies this`obOf, this`props, this`keys, g`uid, g`issued, g`trace
      decreases shapes.Keys - obOf.Keys, 2
      ensures IdsIssued(g.uid, g.issued) && WellFormed(shapes, obOf, props, keys, items) && Extends(old(obOf), obOf)
      ensures PropsKeptFrom(old(obOf), old(props), old(keys), None, obOf, props, keys)
      ensures shapes.Keys - obOf.Keys < old(shapes.Keys - obOf.Keys)
      ensures DependsOnly(old(g.trace), g.trace, g.target)
      ensures CreatedAsAllowed(shapes, old(obOf)[p := ob], obOf, shouldObserve, serverRendering)
      ensures p in obOf && obOf[p] == ob && fresh(ob) && ob.vmCount == (if asRoot then 1 else 0)
      ensures shapes[p].kind == ArrayObject ==> forall i :: 0 <= i < |items[p]| ==> Settled(shapes, obOf, items[p][i], shouldObserve, serverRendering)
      ensures shapes[p].kind != ArrayObject ==>
                keys[p] == old(keys[p]) &&
                WalkedOn(old(props[p]), EnumerableKeys(old(keys[p]), old(props[p])), props[p]) &&
                KeysObserved(shapes, obOf, shouldObserve, serverRendering, old(Values(props[p])), old(props[p]), EnumerableKeys(old(keys[p]), old(props[p])), props[p])
    {
      ob := NewObserver(p);
      if asRoot {
        ob.vmCount := ob.vmCount + 1;
      }
    }

    /**
     * `new Observer(value)`: a fresh dep, `vmCount` 0, `__ob__` installed;
     * an array gets the intercepting methods and its items observed,
     * any other object has every enumerable key made reactive.
     */
    method NewObserver(p: ObjId) returns (ob: Observer)
      requires IdsIssued(g.uid, g.issued) && WellFormed(shapes, obOf, props, keys, items)
      requires p in shapes && p !in obOf && shapes[p].extensible
      modifies this`obOf, this`props, this`keys, g`uid, g`issued, g`trace
      decreases shapes.Keys - obOf.Keys, 1
      ensures IdsIssued(g.uid, g.issued) && WellFormed(shapes, obOf, props, keys, items) && Extends(old(obOf), obOf)
      ensures PropsKeptFrom(old(obOf), old(props), old(keys), None, obOf, props, keys)
      ensures shapes.Keys - obOf.Keys < old(shapes.Keys - obOf.Keys)
      ensures DependsOnly(old(g.trace), g.trace, g.target)
      ensures CreatedAsAllowed(shapes, old(obOf)[p := ob], obOf, shouldObserve, serverRendering)
      ensures p in obOf && obOf[p] == ob && fresh(ob) && ob.vmCount == 0
      ensures shapes[p].kind == ArrayObject ==> forall i :: 0 <= i < |items[p]| ==> Settled(shapes, obOf, items[p][i], shouldObserve, serverRendering)
      ensures shapes[p].kind != ArrayObject ==>
                keys[p] == old(keys[p]) &&
                WalkedOn(old(props[p]), EnumerableKeys(old(keys[p]), old(props[p])), props[p]) &&
                KeysObserved(shapes, obOf, shouldObserve, serverRendering, old(Values(props[p])), old(props[p]), EnumerableKeys(old(keys[p]), old(props[p])), props[p])
    {
      ob := InstallObserver(p);
      ghost var obOf1 := obOf;
      assert shapes.Keys - obOf.Keys == old(shapes.Keys - obOf.Keys) - {p};
      ObserveContents(p);
      ExtendsTrans(old(obOf), obOf1, obOf);
      PropsKeptNarrow(old(obOf), obOf1, old(props), old(keys), Some(p), obOf, props, keys);
    }

    /** The second half of `new Observer(value)`: `observeArray(value)` for an array, `walk(value)` otherwise. */
    method ObserveContents(p: ObjId)
      requires IdsIssued(g.uid, g.issued) && WellFormed(shapes, obOf, props, keys, items)
      requires p in obOf && shapes[p].extensible
      modifies this`obOf, this`props, this`keys, g`uid, g`issued, g`trace
      decreases shapes.Keys - obOf.Keys, 10
      ensures IdsIssued(g.uid, g.issued) && WellFormed(shapes, obOf, props, keys, items) && Extends(old(obOf), obOf)
      ensures CreatedAsAllowed(shapes, old(obOf), obOf, shouldObserve, serverRendering)
      ensures PropsKeptFrom(old(obOf), old(props), old(keys), Some(p), obOf, props, keys)
      ensures shapes.Keys - obOf.Keys <= old(shapes.Keys - obOf.Keys)
      ensures DependsOnly(old(g.trace), g.trace, g.target)
      ensures shapes[p].kind == ArrayObject ==> forall i :: 0 <= i < |items[p]| ==> Settled(shapes, obOf, items[p][i], shouldObserve, serverRendering)
      ensures shapes[p].kind != ArrayObject ==>
                keys[p] == old(keys[p]) &&
                WalkedOn(old(props[p]), EnumerableKeys(old(keys[p]), old(props[p])), props[p]) &&
                KeysObserved(shapes, obOf, shouldObserve, serverRendering, old(Values(props[p])), old(props[p]), EnumerableKeys(old(keys[p]), old(props[p])), props[p])
    {
      if shapes[p].kind == ArrayObject {
        ObserveArray(items[p]);
      } else {
        Walk(p);
      }
    }

    /** The first half of `new Observer(value)`: a fresh dep, `vmCount` 0, and `def(value, '__ob__', this)`. */
    method InstallObserver(p: ObjId) returns (ob: Observer)
      requires IdsIssued(g.uid, g.issued) && WellFormed(shapes, obOf, props, keys, items)
      requires p in shapes && p !in obOf && shapes[p].extensible
      modifies this`obOf, g`uid, g`issued
      ensures IdsIssued(g.uid, g.issued) && WellFormed(shapes, obOf, props, keys, items)
      ensures obOf == old(obOf)[p := ob] && fresh(ob) && ob.vmCount == 0 && ob.value == p
      ensures p in props ==> Values(props[p]) == old(Values(props[p]))
    {
      ob := new Observer(p, g);
      obOf := obOf[p := ob];
    }

    /** `observer.walk(obj)`: `defineReactive` on each of `Object.keys(obj)`, in order. */
    method Walk(p: ObjId)
      requires IdsIssued(g.uid, g.issued) && WellFormed(shapes, obOf, props, keys, items)
      requires p in obOf && shapes[p].extensible
      modifies this`obOf, this`props, this`keys, g`uid, g`issued, g`trace
      decreases shapes.Keys - obOf.Keys, 9
      ensures IdsIssued(g.uid, g.issued) && WellFormed(shapes, obOf, props, keys, items) && Extends(old(obOf), obOf)
      ensures PropsKeptFrom(old(obOf), old(props), old(keys), Some(p), obOf, props, keys)
      ensures shapes.Keys - obOf.Keys <= old(shapes.Keys - obOf.Keys)
      ensures DependsOnly(old(g.trace), g.trace, g.target)
      ensures CreatedAsAllowed(shapes, old(obOf), obOf, shouldObserve, serverRendering)
      ensures keys[p] == old(keys[p])
      ensures WalkedOn(old(props[p]), EnumerableKeys(old(keys[p]), old(props[p])), props[p]) &&
                KeysObserved(shapes, obOf, shouldObserve, serverRendering, old(Values(props[p])), old(props[p]), EnumerableKeys(old(keys[p]), old(props[p])), props[p])
    {
      var ks := EnumerableKeys(keys[p], props[p]);
      ghost var vals0 := Values(props[p]);
      var i := 0;
      while i < |ks|
        invariant 0 <= i <= |ks|
        invariant IdsIssued(g.uid, g.issued) && WellFormed(shapes, obOf, props, keys, items) && Extends(old(obOf), obOf)
        invariant PropsKeptFrom(old(obOf), old(props), old(keys), Some(p), obOf, props, keys)
        invariant shapes.Keys - obOf.Keys <= old(shapes.Keys - obOf.Keys)
        invariant DependsOnly(old(g.trace), g.trace, g.target)
        invariant CreatedAsAllowed(shapes, old(obOf), obOf, shouldObserve, serverRendering)
        invariant keys[p] == old(keys[p])
        invariant WalkedOn(old(props[p]), ks[..i], props[p])
        invariant KeysObserved(shapes, obOf, shouldObserve, serverRendering, vals0, old(props[p]), ks[..i], props[p])
      {
        if !Walked(old(props[p]), ks[..i], props[p], ks[i]) {
          assert props[p][ks[i]] == old(props[p])[ks[i]];
          assert ReadValue(old(props[p]), ks[i]) == vals0[ks[i]];
        }
        WalkKey(p, ks[i], vals0, old(props[p]), ks[..i], old(obOf), old(props), old(keys), old(shapes.Keys - obOf.Keys), old(g.trace));
        TakeNext(ks, i);
        i := i + 1;
      }
      TakeAll(ks, i);
    }

    /**
     * One `defineReactive(obj, key)` of the walk, after the keys `done`;
     * the ghost parameters are the state the walk started from, `vals0`
     * what each key read then.
     */
    method WalkKey(p: ObjId, key: Key, ghost vals0: map<Key, Value>, ghost own0: map<Key, Prop>, ghost done: seq<Key>,
                   ghost obOf0: map<ObjId, Observer>, ghost props0: map<ObjId, map<Key, Prop>>, ghost keys0: map<ObjId, seq<Key>>,
                   ghost unobserved0: set<ObjId>, ghost trace0: seq<Call>)
      requires IdsIssued(g.uid, g.issued) && WellFormed(shapes, obOf, props, keys, items) && Extends(obOf0, obOf)
      requires p in obOf && shapes[p].extensible && key in own0
      requires key in vals0 && ReadValue(props[p], key) == vals0[key]
      requires WalkedOn(own0, done, props[p])
      requires forall k :: Walked(own0, done, props[p], k) ==>
                 && k in vals0 && props[p][k].kind.closure.Current() == vals0[k]
                 && ObservedChild(shapes, obOf, props[p][k].kind.closure.val, props[p][k].kind.closure.childOb, shouldObserve, serverRendering)
      requires CreatedAsAllowed(shapes, obOf0, obOf, shouldObserve, serverRendering)
      requires PropsKeptFrom(obOf0, props0, keys0, Some(p), obOf, props, keys)
      requires shapes.Keys - obOf.Keys <= unobserved0
      requires DependsOnly(trace0, g.trace, g.target)
      modifies this`obOf, this`props, this`keys, g`uid, g`issued, g`trace
      decreases shapes.Keys - obOf.Keys, 8
      ensures IdsIssued(g.uid, g.issued) && WellFormed(shapes, obOf, props, keys, items) && Extends(obOf0, obOf)
      ensures PropsKeptFrom(obOf0, props0, keys0, Some(p), obOf, props, keys)
      ensures shapes.Keys - obOf.Keys <= unobserved0
      ensures DependsOnly(trace0, g.trace, g.target)
      ensures CreatedAsAllowed(shapes, obOf0, obOf, shouldObserve, serverRendering)
      ensures keys[p] == old(keys[p])
      ensures WalkedOn(own0, done + [key], props[p])
      ensures forall k :: Walked(own0, done + [key], props[p], k) ==>
                && k in vals0 && props[p][k].kind.closure.Current() == vals0[k]
                && ObservedChild(shapes, obOf, props[p][k].kind.closure.val, props[p][k].kind.closure.childOb, shouldObserve, serverRendering)
    {
      var c := DefineWalked(p, key, obOf0, props0, keys0, unobserved0, trace0);
      WalkStep(own0, done, old(props[p]), key, props[p], c);
      ObservedStays(shapes, old(obOf), obOf, shouldObserve, serverRendering);
      forall k | Walked(own0, done + [key], props[p], k)
        ensures k in vals0 && props[p][k].kind.closure.Current() == vals0[k]
        ensures ObservedChild(shapes, obOf, props[p][k].kind.closure.val, props[p][k].kind.closure.childOb, shouldObserve, serverRendering)
      {
        if c.None? || k != key {
          assert props[p][k] == old(props[p][k]) && Walked(own0, done, old(props[p]), k);
        }
      }
    }

    /**
     * The `defineReactive(obj, key)` call itself, with no value, setter or
     * shallow flag: what it does to the property, and that it keeps what
     * the walk keeps.
     */
    method DefineWalked(p: ObjId, key: Key,
                   ghost obOf0: map<ObjId, Observer>, ghost props0: map<ObjId, map<Key, Prop>>, ghost keys0: map<ObjId, seq<Key>>,
                   ghost unobserved0: set<ObjId>, ghost trace0: seq<Call>)
      returns (c: Option<Closure>)
      requires IdsIssued(g.uid, g.issued) && WellFormed(shapes, obOf, props, keys, items) && Extends(obOf0, obOf)
      requires p in obOf && shapes[p].extensible
      requires CreatedAsAllowed(shapes, obOf0, obOf, shouldObserve, serverRendering)
      requires PropsKeptFrom(obOf0, props0, keys0, Some(p), obOf, props, keys)
      requires shapes.Keys - obOf.Keys <= unobserved0
      requires DependsOnly(trace0, g.trace, g.target)
      modifies this`obOf, this`props, this`keys, g`uid, g`issued, g`trace
      decreases shapes.Keys - obOf.Keys, 7
      ensures IdsIssued(g.uid, g.issued) && WellFormed(shapes, obOf, props, keys, items) && Extends(obOf0, obOf)
      ensures PropsKeptFrom(obOf0, props0, keys0, Some(p), obOf, props, keys)
      ensures shapes.Keys - obOf.Keys <= unobserved0
      ensures DependsOnly(trace0, g.trace, g.target)
      ensures CreatedAsAllowed(shapes, obOf0, obOf, shouldObserve, serverRendering)
      ensures Extends(old(obOf), obOf) && CreatedAsAllowed(shapes, old(obOf), obOf, shouldObserve, serverRendering)
      ensures c.None? <==> Locked(old(props[p]), key)
      ensures keys[p] == old(keys[p]) + (if c.None? || key in old(props[p]) then [] else [key])
      ensures props[p] == if c.None? then old(props[p]) else old(props[p])[key := Prop(Reactive(c.value), true, true)]
      ensures c.Some? ==> && c.value.Current() == old(ReadValue(props[p], key))
                          && ObservedChild(shapes, obOf, c.value.val, c.value.childOb, shouldObserve, serverRendering)
    {
      ghost var obOf1, props1, keys1 := obOf, props, keys;
      c := DefineReactive(p, key, None, false, false);
      PropsKeptTrans(obOf0, props0, keys0, props1, keys1, props, keys, Some(p), obOf1, obOf);
      DependsOnlyTrans(trace0, old(g.trace), g.trace, g.target);
      CreatedAsAllowedTrans(shapes, obOf0, old(obOf), obOf, shouldObserve, serverRendering);
    }

    /** `observer.observeArray(items)`: `observe` on each item, in order. */
    method ObserveArray(vals: seq<Value>)
      requires IdsIssued(g.uid, g.issued) && WellFormed(shapes, obOf, props, keys, items)
      modifies this`obOf, this`props, this`keys, g`uid, g`issued, g`trace
      decreases shapes.Keys - obOf.Keys, 8
      ensures IdsIssued(g.uid, g.issued) && WellFormed(shapes, obOf, props, keys, items) && Extends(old(obOf), obOf)
      ensures PropsKeptFrom(old(obOf), old(props), old(keys), None, obOf, props, keys)
      ensures shapes.Keys - obOf.Keys <= old(shapes.Keys - obOf.Keys)
      ensures DependsOnly(old(g.trace), g.trace, g.target)
      ensures forall i :: 0 <= i < |vals| ==> Settled(shapes, obOf, vals[i], shouldObserve, serverRendering)
      ensures CreatedAsAllowed(shapes, old(obOf), obOf, shouldObserve, serverRendering)
      ensures vals == [] ==> obOf == old(obOf) && props == old(props) && keys == old(keys) && g.trace == old(g.trace)
    {
      var i := 0;
      while i < |vals|
        invariant 0 <= i <= |vals|
        invariant IdsIssued(g.uid, g.issued) && WellFormed(shapes, obOf, props, keys, items) && Extends(old(obOf), obOf)
        invariant PropsKeptFrom(old(obOf), old(props), old(keys), None, obOf, props, keys)
        invariant shapes.Keys - obOf.Keys <= old(shapes.Keys - obOf.Keys)
        invariant DependsOnly(old(g.trace), g.trace, g.target)
        invariant forall j :: 0 <= j < i ==> Settled(shapes, obOf, vals[j], shouldObserve, serverRendering)
        invariant CreatedAsAllowed(shapes, old(obOf), obOf, shouldObserve, serverRendering)
        invariant i == 0 ==> obOf == old(obOf) && props == old(props) && keys == old(keys) && g.trace == old(g.trace)
      {
        ObserveItem(vals, i, old(obOf), old(props), old(keys), old(shapes.Keys - obOf.Keys), old(g.trace));
        i := i + 1;
      }
    }

    /**
     * One `observe(items[i])` of `observeArray`; the ghost parameters are
     * the state the loop started from.
     */
    method ObserveItem(vals: seq<Value>, i: nat,
                       ghost obOf0: map<ObjId, Observer>, ghost props0: map<ObjId, map<Key, Prop>>, ghost keys0: map<ObjId, seq<Key>>,
                       ghost unobserved0: set<ObjId>, ghost trace0: seq<Call>)
      requires IdsIssued(g.uid, g.issued) && WellFormed(shapes, obOf, props, keys, items) && Extends(obOf0, obOf)
      requires i < |vals| && forall j :: 0 <= j < i ==> Settled(shapes, obOf, vals[j], shouldObserve, serverRendering)
      requires PropsKeptFrom(obOf0, props0, keys0, None, obOf, props, keys)
      requires shapes.Keys - obOf.Keys <= unobserved0
      requires DependsOnly(trace0, g.trace, g.target)
      requires CreatedAsAllowed(shapes, obOf0, obOf, shouldObserve, serverRendering)
      modifies this`obOf, this`props, this`keys, g`uid, g`issued, g`trace
      decreases shapes.Keys - obOf.Keys, 7
      ensures IdsIssued(g.uid, g.issued) && WellFormed(shapes, obOf, props, keys, items) && Extends(obOf0, obOf)
      ensures CreatedAsAllowed(shapes, obOf0, obOf, shouldObserve, serverRendering)
      ensures forall j :: 0 <= j < i + 1 ==> Settled(shapes, obOf, vals[j], shouldObserve, serverRendering)
      ensures PropsKeptFrom(obOf0, props0, keys0, None, obOf, props, keys)
      ensures shapes.Keys - obOf.Keys <= unobserved0
      ensures DependsOnly(trace0, g.trace, g.target)
    {
      ghost var obOf1, props1, keys1 := obOf, props, keys;
      var _ := Observe(vals[i], false);
      PropsKeptTrans(obOf0, props0, keys0, props1, keys1, props, keys, None, obOf1, obOf);
      SettledStep(shapes, vals, i, obOf1, obOf, shouldObserve, serverRendering);
      DependsOnlyTrans(trace0, old(g.trace), g.trace, g.target);
    }

    /**
     * `defineReactive(obj, key, val?, customSetter, shallow)`: unless the
     * existing property is non-configurable, the key becomes an enumerable,
     * configurable reactive pair over a fresh closure with a fresh dep,
     * delegating to a pre-existing getter/setter.  `val == None` is the
     * two-argument call, which reads the current value of the key.
     */
    method DefineReactive(p: ObjId, key: Key, val: Option<Value>, customSetter: bool, shallow: bool)
      returns (c: Option<Closure>)
      requires IdsIssued(g.uid, g.issued) && WellFormed(shapes, obOf, props, keys, items)
      requires p in shapes && (shapes[p].extensible || key in props[p])
      modifies this`obOf, this`props, this`keys, g`uid, g`issued, g`trace
      decreases shapes.Keys - obOf.Keys, 6
      ensures IdsIssued(g.uid, g.issued) && WellFormed(shapes, obOf, props, keys, items) && Extends(old(obOf), obOf)
      ensures CreatedAsAllowed(shapes, old(obOf), obOf, shouldObserve, serverRendering)
      ensures PropsKeptFrom(old(obOf), old(props), old(keys), Some(p), obOf, props, keys)
      ensures shapes.Keys - obOf.Keys <= old(shapes.Keys - obOf.Keys)
      ensures DependsOnly(old(g.trace), g.trace, g.target)
      ensures c.None? <==> Locked(old(props[p]), key)
      ensures c.None? ==> obOf == old(obOf) && props == old(props) && keys == old(keys) && g.trace == old(g.trace)
      ensures c.Some? ==>
                && fresh(c.value) && fresh(c.value.dep) && c.value.dep.subs == []
                && key in props[p] && props[p][key] == Prop(Reactive(c.value), true, true)
                && NewClosure(c.value, old(props[p]), key, val, customSetter, shallow)
                && c.value.Current() == (if val.Some? && !c.value.hasGetter then val.value else old(ReadValue(props[p], key)))
                && (!shallow ==> Settled(shapes, obOf, c.value.val, shouldObserve, serverRendering))
                && c.value.childOb == (if shallow then None else ObserverOf(shapes, obOf, c.value.val))
      ensures p in old(obOf) ==>
                && props[p] == (if c.None? then old(props[p]) else old(props[p])[key := Prop(Reactive(c.value), true, true)])
                && keys[p] == old(keys[p]) + (if c.None? || key in old(props[p]) then [] else [key])
    {
      var dep := new Dep(g);
      if Locked(props[p], key) {
        return None;
      }
      var prior := PriorAccessors(props[p], key);
      var v := Undefined;
      if val.Some? {
        v := val.value;
      } else if !prior.hasGetter || prior.hasSetter {
        v := ReadProp(p, key);
      }
      var closure := Reactify(p, key, dep, v, prior, customSetter, shallow);
      c := Some(closure);
    }

    /**
     * The second half of `defineReactive`: observe the value unless
     * shallow, then install the getter/setter pair over a fresh closure.
     */
    method Reactify(p: ObjId, key: Key, dep: Dep, v: Value, prior: Prior, customSetter: bool, shallow: bool)
      returns (c: Closure)
      requires IdsIssued(g.uid, g.issued) && WellFormed(shapes, obOf, props, keys, items)
      requires p in shapes
      modifies this`obOf, this`props, this`keys, g`uid, g`issued, g`trace
      decreases shapes.Keys - obOf.Keys, 5
      ensures IdsIssued(g.uid, g.issued) && WellFormed(shapes, obOf, props, keys, items) && Extends(old(obOf), obOf)
      ensures CreatedAsAllowed(shapes, old(obOf), obOf, shouldObserve, serverRendering)
      ensures PropsKeptFrom(old(obOf), old(props), old(keys), Some(p), obOf, props, keys)
      ensures shapes.Keys - obOf.Keys <= old(shapes.Keys - obOf.Keys)
      ensures DependsOnly(old(g.trace), g.trace, g.target)
      ensures fresh(c) && c.dep == dep && c.val == v && c.shallow == shallow && c.customSetter == customSetter
      ensures c.hasGetter == prior.hasGetter && c.hasSetter == prior.hasSetter && c.cell == prior.cell
      ensures !shallow ==> Settled(shapes, obOf, v, shouldObserve, serverRendering)
      ensures c.childOb == if shallow then None else ObserverOf(shapes, obOf, v)
      ensures key in props[p] && props[p][key] == Prop(Reactive(c), true, true)
      ensures p in old(obOf) ==>
                && props[p] == old(props[p])[key := Prop(Reactive(c), true, true)]
                && keys[p] == old(keys[p]) + (if key in old(props[p]) then [] else [key])
    {
      var childOb := ObserveUnlessShallow(v, shallow);
      ghost var props1, keys1 := props, keys;
      c := InstallReactive(p, key, dep, v, childOb, shallow, customSetter, prior);
      PropsKeptUpdate(old(obOf), old(props), old(keys), props1, keys1, p, props[p], keys[p], obOf);
    }

    /** `Object.defineProperty(obj, key, { enumerable: true, configurable: true, get, set })` */
    method InstallReactive(p: ObjId, key: Key, dep: Dep, v: Value, childOb: Option<Observer>, shallow: bool, customSetter: bool, prior: Prior)
      returns (c: Closure)
      requires WellFormed(shapes, obOf, props, keys, items) && p in shapes
      modifies this`props, this`keys
      ensures WellFormed(shapes, obOf, props, keys, items)
      ensures fresh(c) && c.dep == dep && c.val == v && c.childOb == childOb && c.shallow == shallow && c.customSetter == customSetter
      ensures c.hasGetter == prior.hasGetter && c.hasSetter == prior.hasSetter && c.cell == prior.cell
      ensures props == old(props)[p := old(props[p])[key := Prop(Reactive(c), true, true)]]
      ensures keys == old(keys)[p := old(keys[p]) + (if key in old(props[p]) then [] else [key])]
    {
      c := new Closure(dep, v, childOb, shallow, customSetter, prior);
      var newKeys := if key in props[p] then keys[p] else keys[p] + [key];
      assert newKeys == old(keys[p]) + (if key in old(props[p]) then [] else [key]);
      props := props[p := props[p][key := Prop(Reactive(c), true, true)]];
      keys := keys[p := newKeys];
    }

    /**
     * `obj[key]` on an own property, as `defineReactive` reads it; a
     * reactive property is read through its getter.
     */
    method ReadProp(p: ObjId, key: Key) returns (v: Value)
      requires IdsIssued(g.uid, g.issued) && WellFormed(shapes, obOf, props, keys, items)
      requires p in shapes
      modifies g`trace
      ensures DependsOnly(old(g.trace), g.trace, g.target)
      ensures v == ReadValue(props[p], key)
    {
      if key !in props[p] {
        return Undefined;
      }
      match props[p][key].kind
      case Data(d, _) => v := d;
      case Accessor(hg, _, cell) => v := if hg then cell else Undefined;
      case Reactive(c) => v := ReactiveGet(c);
    }

    /** The calls the reactive getter over `c` makes with `t` as the target. */
    function GetterCalls(t: Watcher, c: Closure): seq<Call>
      reads c, this`items, this`obOf
    {
      [AddDep(t, c.dep.id)] +
      (if c.childOb.Some? then
         var v := c.Current();
         [AddDep(t, c.childOb.value.dep.id)] +
         (if v.Ref? && v.obj in shapes && v.obj in items && shapes[v.obj].kind == ArrayObject
          then AddDepCalls(t, ArrayDepends(shapes, items, obOf, v.obj, {v.obj})) else [])
       else [])
    }

    /**
     * The reactive getter: returns the current value; with a target set,
     * registers the closure's dep, and the child observer's dep, and the
     * deps of the observed elements of a nested array value.
     */
    method ReactiveGet(c: Closure) returns (v: Value)
      requires WellFormed(shapes, obOf, props, keys, items)
      modifies g`trace
      ensures v == c.Current()
      ensures DependsOnly(old(g.trace), g.trace, g.target)
      ensures g.target.Some? ==> g.trace == old(g.trace) + GetterCalls(g.target.value, c)
    {
      v := c.Current();
      if g.target.Some? {
        c.dep.Depend(g);
        if c.childOb.Some? {
          c.childOb.value.dep.Depend(g);
          if v.Ref? && v.obj in shapes && shapes[v.obj].kind == ArrayObject {
            DependArray(v.obj, {v.obj});
          }
        }
      }
    }

    /**
     * `dependArray(value)`: `depend()` on the observer dep of each element
     * that has one, descending into nested arrays; an array already on the
     * current descent path is not entered again.
     */
    method DependArray(p: ObjId, path: set<ObjId>)
      requires p in items && g.target.Some?
      modifies g`trace
      decreases items.Keys - path, 1
      ensures g.trace == old(g.trace) + AddDepCalls(g.target.value, ArrayDepends(shapes, items, obOf, p, path))
    {
      var vals := items[p];
      var i := 0;
      while i < |vals|
        invariant 0 <= i <= |vals|
        invariant g.trace == old(g.trace) + AddDepCalls(g.target.value, ItemsDepends(shapes, items, obOf, vals[..i], path))
      {
        DependElement(vals[i], path);
        ItemsDependsSnoc(shapes, items, obOf, vals[..i], vals[i], path);
        AddDepCallsAppend(g.target.value, ItemsDepends(shapes, items, obOf, vals[..i], path), ElementDepends(shapes, items, obOf, vals[i], path));
        TakeNext(vals, i);
        i := i + 1;
      }
      TakeAll(vals, i);
    }

    /** One element of `dependArray`'s loop. */
    method DependElement(e: Value, path: set<ObjId>)
      requires g.target.Some?
      modifies g`trace
      decreases items.Keys - path, 0
      ensures g.trace == old(g.trace) + AddDepCalls(g.target.value, ElementDepends(shapes, items, obOf, e, path))
    {
      if e.Ref? && e.obj in items && e.obj in shapes {
        if e.obj in obOf {
          obOf[e.obj].dep.Depend(g);
        }
        if shapes[e.obj].kind == ArrayObject && e.obj !in path {
          DependArray(e.obj, path + {e.obj});
        }
        ghost var first := if e.obj in obOf then [obOf[e.obj].dep.id] else [];
        ghost var rest := if shapes[e.obj].kind == ArrayObject && e.obj !in path then ArrayDepends(shapes, items, obOf, e.obj, path + {e.obj}) else [];
        AddDepCallsAppend(g.target.value, first, rest);
      }
    }

    /**
     * The reactive setter over `c`: nothing when the value is unchanged;
     * otherwise the custom setter (development builds only), the store
     * through the pre-existing setter or into `val`, a fresh `observe` of
     * the new value unless shallow, and `dep.notify()`.
     */
    method ReactiveSet(c: Closure, newVal: Value)
      requires IdsIssued(g.uid, g.issued) && WellFormed(shapes, obOf, props, keys, items)
      modifies c`val, c`cell, c`childOb, this`obOf, this`props, this`keys, g`uid, g`issued, g`trace
      ensures IdsIssued(g.uid, g.issued) && WellFormed(shapes, obOf, props, keys, items) && Extends(old(obOf), obOf)
      ensures PropsKeptFrom(old(obOf), old(props), old(keys), None, obOf, props, keys)
      ensures old(g.trace) <= g.trace
      ensures c.hasGetter == c.hasSetter ==> c.Current() == newVal
      ensures SetterSkips(newVal, old(c.Current())) ==>
                unchanged(c) && obOf == old(obOf) && props == old(props) && keys == old(keys) && g.trace == old(g.trace)
      ensures !SetterSkips(newVal, old(c.Current())) ==>
                && c.val == (if c.hasSetter then old(c.val) else newVal)
                && c.cell == (if c.hasSetter then newVal else old(c.cell))
                && (c.shallow ==> obOf == old(obOf))
                && (!c.shallow ==> Settled(shapes, obOf, newVal, shouldObserve, serverRendering))
                && c.childOb == (if c.shallow then None else ObserverOf(shapes, obOf, newVal))
                && Notified(old(g.trace) + (if dev && c.customSetter then [CustomSetter] else []), g.trace, g.target, c.dep.subs)
    {
      var value := c.Current();
      if SetterSkips(newVal, value) {
        PropsKeptRefl(obOf, obOf, props, keys);
        return;
      }
      SetChanged(c, newVal);
    }

    /** The reactive setter past its early return: custom setter, store, observe, notify. */
    method SetChanged(c: Closure, newVal: Value)
      requires IdsIssued(g.uid, g.issued) && WellFormed(shapes, obOf, props, keys, items)
      modifies c`val, c`cell, c`childOb, this`obOf, this`props, this`keys, g`uid, g`issued, g`trace
      ensures IdsIssued(g.uid, g.issued) && WellFormed(shapes, obOf, props, keys, items) && Extends(old(obOf), obOf)
      ensures PropsKeptFrom(old(obOf), old(props), old(keys), None, obOf, props, keys)
      ensures old(g.trace) <= g.trace
      ensures c.hasGetter == c.hasSetter ==> c.Current() == newVal
      ensures c.val == (if c.hasSetter then old(c.val) else newVal)
      ensures c.cell == (if c.hasSetter then newVal else old(c.cell))
      ensures c.shallow ==> obOf == old(obOf)
      ensures !c.shallow ==> Settled(shapes, obOf, newVal, shouldObserve, serverRendering)
      ensures c.childOb == if c.shallow then None else ObserverOf(shapes, obOf, newVal)
      ensures Notified(old(g.trace) + (if dev && c.customSetter then [CustomSetter] else []), g.trace, g.target, c.dep.subs)
    {
      if dev && c.customSetter {
        g.trace := g.trace + [CustomSetter];
      }
      assert g.trace == old(g.trace) + (if dev && c.customSetter then [CustomSetter] else []);
      StoreNotify(c, newVal);
    }

    /** The store of the new value, then `dep.notify()`. */
    method StoreNotify(c: Closure, newVal: Value)
      requires IdsIssued(g.uid, g.issued) && WellFormed(shapes, obOf, props, keys, items)
      modifies c`val, c`cell, c`childOb, this`obOf, this`props, this`keys, g`uid, g`issued, g`trace
      ensures IdsIssued(g.uid, g.issued) && WellFormed(shapes, obOf, props, keys, items) && Extends(old(obOf), obOf)
      ensures PropsKeptFrom(old(obOf), old(props), old(keys), None, obOf, props, keys)
      ensures old(g.trace) <= g.trace
      ensures c.val == (if c.hasSetter then old(c.val) else newVal)
      ensures c.cell == (if c.hasSetter then newVal else old(c.cell))
      ensures c.shallow ==> obOf == old(obOf)
      ensures !c.shallow ==> Settled(shapes, obOf, newVal, shouldObserve, serverRendering)
      ensures c.childOb == if c.shallow then None else ObserverOf(shapes, obOf, newVal)
      ensures Notified(old(g.trace), g.trace, g.target, c.dep.subs)
    {
      Store(c, newVal);
      NotifiedAfter(old(g.trace), g.trace, g.target, c.dep.subs);
      c.dep.Notify(g, []);
    }

    /** The middle of the reactive setter: the store, then `childOb = !shallow && observe(newVal)`. */
    method Store(c: Closure, newVal: Value)
      requires IdsIssued(g.uid, g.issued) && WellFormed(shapes, obOf, props, keys, items)
      modifies c`val, c`cell, c`childOb, this`obOf, this`props, this`keys, g`uid, g`issued, g`trace
      ensures IdsIssued(g.uid, g.issued) && WellFormed(shapes, obOf, props, keys, items) && Extends(old(obOf), obOf)
      ensures PropsKeptFrom(old(obOf), old(props), old(keys), None, obOf, props, keys)
      ensures DependsOnly(old(g.trace), g.trace, g.target)
      ensures c.val == (if c.hasSetter then old(c.val) else newVal)
      ensures c.cell == (if c.hasSetter then newVal else old(c.cell))
      ensures c.shallow ==> obOf == old(obOf)
      ensures !c.shallow ==> Settled(shapes, obOf, newVal, shouldObserve, serverRendering)
      ensures c.childOb == if c.shallow then None else ObserverOf(shapes, obOf, newVal)
    {
      if c.hasSetter {
        c.cell := newVal;
      } else {
        c.val := newVal;
      }
      ObserveChild(c, newVal);
    }

    /** `childOb = !shallow && observe(newVal)` */
    method ObserveChild(c: Closure, newVal: Value)
      requires IdsIssued(g.uid, g.issued) && WellFormed(shapes, obOf, props, keys, items)
      modifies c`childOb, this`obOf, this`props, this`keys, g`uid, g`issued, g`trace
      ensures IdsIssued(g.uid, g.issued) && WellFormed(shapes, obOf, props, keys, items) && Extends(old(obOf), obOf)
      ensures PropsKeptFrom(old(obOf), old(props), old(keys), None, obOf, props, keys)
      ensures DependsOnly(old(g.trace), g.trace, g.target)
      ensures c.shallow ==> obOf == old(obOf)
      ensures !c.shallow ==> Settled(shapes, obOf, newVal, shouldObserve, serverRendering)
      ensures c.childOb == if c.shallow then None else ObserverOf(shapes, obOf, newVal)
    {
      c.childOb := ObserveUnlessShallow(newVal, c.shallow);
    }

    /** `!shallow && observe(val)`: the child observer of a reactive property. */
    method ObserveUnlessShallow(v: Value, shallow: bool) returns (childOb: Option<Observer>)
      requires IdsIssued(g.uid, g.issued) && WellFormed(shapes, obOf, props, keys, items)
      modifies this`obOf, this`props, this`keys, g`uid, g`issued, g`trace
      decreases shapes.Keys - obOf.Keys, 4
      ensures IdsIssued(g.uid, g.issued) && WellFormed(shapes, obOf, props, keys, items) && Extends(old(obOf), obOf)
      ensures CreatedAsAllowed(shapes, old(obOf), obOf, shouldObserve, serverRendering)
      ensures PropsKeptFrom(old(obOf), old(props), old(keys), None, obOf, props, keys)
      ensures shapes.Keys - obOf.Keys <= old(shapes.Keys - obOf.Keys)
      ensures DependsOnly(old(g.trace), g.trace, g.target)
      ensures shallow ==> obOf == old(obOf)
      ensures !shallow ==> Settled(shapes, obOf, v, shouldObserve, serverRendering)
      ensures childOb == if shallow then None else ObserverOf(shapes, obOf, v)
    {
      if !shallow {
        childOb := Observe(v, false);
      } else {
        childOb := None;
        PropsKeptRefl(obOf, obOf, props, keys);
      }
    }

    /**
     * A call of one of the seven methods on array `p`.  On an observed
     * array it is the mutator: the original method, then `observeArray` on
     * the inserted arguments, then `ob.dep.notify()`, returning what the
     * original returned.  An array without an observer has the plain method.
     * `sorted` is the order sort's comparator produces.
     */
    method ArrayCall(p: ObjId, m: ArrayMethod, args: seq<Value>, sorted: seq<Value>) returns (result: ArrayResult)
      requires IdsIssued(g.uid, g.issued) && WellFormed(shapes, obOf, props, keys, items)
      requires p in shapes && shapes[p].kind == ArrayObject
      requires m == Sort ==> multiset(sorted) == multiset(items[p])
      modifies this`obOf, this`props, this`keys, this`items, g`uid, g`issued, g`trace
      ensures IdsIssued(g.uid, g.issued) && WellFormed(shapes, obOf, props, keys, items) && Extends(old(obOf), obOf)
      ensures PropsKeptFrom(old(obOf), old(props), old(keys), None, obOf, props, keys)
      ensures var o := CallOutcome(m, old(items[p]), args, sorted);
              items == old(items)[p := o.items] && result == o.result
      ensures m == Sort ==> multiset(items[p]) == multiset(old(items[p]))
      ensures p !in old(obOf) ==> obOf == old(obOf) && props == old(props) && keys == old(keys) && g.trace == old(g.trace)
      ensures InsertedArgs(m, args) == [] ==> obOf == old(obOf) && props == old(props) && keys == old(keys)
      ensures p in old(obOf) ==>
                && (forall i :: 0 <= i < |InsertedArgs(m, args)| ==>
                      Settled(shapes, obOf, InsertedArgs(m, args)[i], shouldObserve, serverRendering))
                && Notified(old(g.trace), g.trace, g.target, old(obOf)[p].dep.subs)
    {
      var o := CallOutcome(m, items[p], args, sorted);
      items := items[p := o.items];
      result := o.result;
      if p in obOf {
        ObserveInserted(p, InsertedArgs(m, args));
      } else {
        PropsKeptRefl(obOf, obOf, props, keys);
      }
    }

    /** The mutator's tail on an observed array: `ob.observeArray(inserted)`, then `ob.dep.notify()`. */
    method ObserveInserted(p: ObjId, inserted: seq<Value>)
      requires IdsIssued(g.uid, g.issued) && WellFormed(shapes, obOf, props, keys, items)
      requires p in obOf
      modifies this`obOf, this`props, this`keys, g`uid, g`issued, g`trace
      ensures IdsIssued(g.uid, g.issued) && WellFormed(shapes, obOf, props, keys, items) && Extends(old(obOf), obOf)
      ensures PropsKeptFrom(old(obOf), old(props), old(keys), None, obOf, props, keys)
      ensures forall i :: 0 <= i < |inserted| ==> Settled(shapes, obOf, inserted[i], shouldObserve, serverRendering)
      ensures inserted == [] ==> obOf == old(obOf) && props == old(props) && keys == old(keys)
      ensures Notified(old(g.trace), g.trace, g.target, old(obOf)[p].dep.subs)
    {
      var ob := obOf[p];
      ObserveArray(inserted);
      NotifiedAfter(old(g.trace), g.trace, g.target, ob.dep.subs);
      ob.dep.Notify(g, []);
    }

    /**
     * `target[key] = val` on an own property, in strict mode: a writable
     * data property takes the value, an accessor passes it to its setter,
     * a reactive property runs the reactive setter; a read-only property
     * throws.
     */
    method AssignOwn(p: ObjId, key: Key, v: Value) returns (r: Completion<Value>)
      requires IdsIssued(g.uid, g.issued) && WellFormed(shapes, obOf, props, keys, items)
      requires p in shapes && key in props[p]
      modifies this`obOf, this`props, this`keys, g`uid, g`issued, g`trace
      modifies if props[p][key].kind.Reactive? then {props[p][key].kind.closure} else {}
      ensures IdsIssued(g.uid, g.issued) && WellFormed(shapes, obOf, props, keys, items) && Extends(old(obOf), obOf)
      ensures PropsKeptFrom(old(obOf), old(props), old(keys), Some(p), obOf, props, keys)
      ensures old(g.trace) <= g.trace
      ensures var pr := old(props[p][key]);
              && r == (if Assignable(pr) then Normal(v) else Throw)
              && (!pr.kind.Reactive? ==>
                    && obOf == old(obOf) && keys == old(keys) && g.trace == old(g.trace)
                    && props == (if Assignable(pr) then old(props)[p := old(props[p])[key := Stored(pr, v)]] else old(props)))
              && (pr.kind.Reactive? ==>
                    var c := pr.kind.closure;
                    && (c.hasGetter == c.hasSetter ==> c.Current() == v)
                    && (SetterSkips(v, old(c.Current())) ==> obOf == old(obOf) && props == old(props) && g.trace == old(g.trace))
                    && (!SetterSkips(v, old(c.Current())) ==>
                          Notified(old(g.trace) + (if dev && c.customSetter then [CustomSetter] else []), g.trace, g.target, c.dep.subs)))
    {
      var pr := props[p][key];
      if !Assignable(pr) {
        PropsKeptRefl(obOf, obOf, props, keys);
        return Throw;
      }
      match pr.kind {
        case Reactive(c) =>
          ReactiveSet(c, v);
          PropsKeptNarrow(old(obOf), old(obOf), old(props), old(keys), None, obOf, props, keys);
        case _ =>
          props := props[p := props[p][key := Stored(pr, v)]];
      }
      r := Normal(v);
    }

    /**
     * `set(target, key, val)`: on an array and a valid index, lengthen the
     * array and `splice` the value in; on an own key, assign; a new key on
     * a Vue instance or a root `$data` is refused with a warning; on an
     * object without an observer, a plain assignment; otherwise
     * `defineReactive` on the new key and `ob.dep.notify()`.  Returns the
     * value, or throws as strict-mode code does.
     */
    method Set(t: Value, key: Key, v: Value) returns (r: Completion<Value>)
      requires IdsIssued(g.uid, g.issued) && WellFormed(shapes, obOf, props, keys, items)
      requires t.Ref? ==> t.obj in shapes
      modifies this`obOf, this`props, this`keys, this`items, g`uid, g`issued, g`trace
      modifies if t.Ref? && t.obj in props && key in props[t.obj] && props[t.obj][key].kind.Reactive?
               then {props[t.obj][key].kind.closure} else {}
      ensures IdsIssued(g.uid, g.issued) && WellFormed(shapes, obOf, props, keys, items) && Extends(old(obOf), obOf)
      ensures old(g.trace) <= g.trace
      ensures var path := old(SetPathOf(t, key));
              && (path == SetPrimitive ==>
                    r == Throw && unchanged(this) && g.trace == old(g.trace) + WarnIf(dev, SetOnPrimitive))
              && (path == SetRefused ==>
                    r == Normal(v) && unchanged(this) && g.trace == old(g.trace) + WarnIf(dev, AddToRootOrInstance))
              && (path == SetIndexed ==>
                    && r == Normal(v)
                    && items == old(items)[t.obj := SetIndex(old(items[t.obj]), key.n, v)]
                    && PropsKeptFrom(old(obOf), old(props), old(keys), None, obOf, props, keys)
                    && (t.obj !in old(obOf) ==> obOf == old(obOf) && props == old(props) && keys == old(keys) && g.trace == old(g.trace))
                    && (t.obj in old(obOf) ==>
                          Settled(shapes, obOf, v, shouldObserve, serverRendering) &&
                          Notified(old(g.trace), g.trace, g.target, old(obOf)[t.obj].dep.subs)))
              && (path == SetOwnKey ==>
                    var pr := old(props[t.obj][key]);
                    && r == (if Assignable(pr) then Normal(v) else Throw)
                    && items == old(items)
                    && PropsKeptFrom(old(obOf), old(props), old(keys), Some(t.obj), obOf, props, keys)
                    && (!pr.kind.Reactive? ==>
                          && obOf == old(obOf) && keys == old(keys) && g.trace == old(g.trace)
                          && props == (if Assignable(pr) then old(props)[t.obj := old(props[t.obj])[key := Stored(pr, v)]] else old(props)))
                    && (pr.kind.Reactive? && pr.kind.closure.hasGetter == pr.kind.closure.hasSetter ==>
                          pr.kind.closure.Current() == v))
              && (path == SetNewPlain ==>
                    && obOf == old(obOf) && items == old(items) && g.trace == old(g.trace)
                    && if shapes[t.obj].extensible then
                         && r == Normal(v)
                         && props == old(props)[t.obj := old(props[t.obj])[key := Prop(Data(v, true), true, true)]]
                         && keys == old(keys)[t.obj := old(keys[t.obj]) + [key]]
                       else r == Throw && props == old(props) && keys == old(keys))
              && (path == SetNewReactive ==>
                    && r == Normal(v) && items == old(items)
                    && key in props[t.obj] && props[t.obj][key].kind.Reactive?
                    && props[t.obj] == old(props[t.obj])[key := props[t.obj][key]]
                    && keys[t.obj] == old(keys[t.obj]) + [key]
                    && PropsKeptFrom(old(obOf), old(props), old(keys), Some(t.obj), obOf, props, keys)
                    && props[t.obj][key].enumerable && props[t.obj][key].configurable
                    && (var c := props[t.obj][key].kind.closure;
                          && fresh(c) && c.val == v && c.dep.subs == [] && !c.hasGetter && !c.hasSetter
                          && !c.shallow && !c.customSetter
                          && Settled(shapes, obOf, v, shouldObserve, serverRendering) && c.childOb == ObserverOf(shapes, obOf, v))
                    && Notified(old(g.trace), g.trace, g.target, old(obOf)[t.obj].dep.subs))
    {
      if !t.Ref? {
        g.trace := g.trace + WarnIf(dev, SetOnPrimitive);
        // `key in target` on a primitive
        return Throw;
      }
      var p := t.obj;
      if shapes[p].kind == ArrayObject && key.IsValidArrayIndex() {
        SetArrayIndex(p, key.n, v);
        return Normal(v);
      }
      if key in props[p] {
        r := AssignOwn(p, key, v);
        return;
      }
      if shapes[p].isVue || (p in obOf && obOf[p].vmCount > 0) {
        g.trace := g.trace + WarnIf(dev, AddToRootOrInstance);
        return Normal(v);
      }
      if p !in obOf {
        if !shapes[p].extensible {
          return Throw;
        }
        props := props[p := props[p][key := Prop(Data(v, true), true, true)]];
        keys := keys[p := keys[p] + [key]];
        return Normal(v);
      }
      AddReactive(p, key, v);
      r := Normal(v);
    }

    /** `target.length = Math.max(target.length, key)`, then `target.splice(key, 1, val)`. */
    method SetArrayIndex(p: ObjId, n: nat, v: Value)
      requires IdsIssued(g.uid, g.issued) && WellFormed(shapes, obOf, props, keys, items)
      requires p in shapes && shapes[p].kind == ArrayObject
      modifies this`obOf, this`props, this`keys, this`items, g`uid, g`issued, g`trace
      ensures IdsIssued(g.uid, g.issued) && WellFormed(shapes, obOf, props, keys, items) && Extends(old(obOf), obOf)
      ensures old(g.trace) <= g.trace
      ensures items == old(items)[p := SetIndex(old(items[p]), n, v)]
      ensures PropsKeptFrom(old(obOf), old(props), old(keys), None, obOf, props, keys)
      ensures p !in old(obOf) ==> obOf == old(obOf) && props == old(props) && keys == old(keys) && g.trace == old(g.trace)
      ensures p in old(obOf) ==>
                Settled(shapes, obOf, v, shouldObserve, serverRendering) &&
                Notified(old(g.trace), g.trace, g.target, old(obOf)[p].dep.subs)
    {
      SetIndexBySplice(items[p], n, v);
      items := items[p := Padded(items[p], n)];
      var _ := ArrayCall(p, Splice, [Num(n), Num(1), v], []);
    }

    /** `defineReactive(ob.value, key, val)` on a new key of an observed object, then `ob.dep.notify()`. */
    method AddReactive(p: ObjId, key: Key, v: Value)
      requires IdsIssued(g.uid, g.issued) && WellFormed(shapes, obOf, props, keys, items)
      requires p in obOf && key !in props[p]
      modifies this`obOf, this`props, this`keys, g`uid, g`issued, g`trace
      ensures IdsIssued(g.uid, g.issued) && WellFormed(shapes, obOf, props, keys, items) && Extends(old(obOf), obOf)
      ensures PropsKeptFrom(old(obOf), old(props), old(keys), Some(p), obOf, props, keys)
      ensures old(g.trace) <= g.trace
      ensures key in props[p] && props[p] == old(props[p])[key := props[p][key]] && keys[p] == old(keys[p]) + [key]
      ensures props[p][key].kind.Reactive? && props[p][key].enumerable && props[p][key].configurable
      ensures var c := props[p][key].kind.closure;
              && fresh(c) && c.val == v && c.dep.subs == [] && !c.hasGetter && !c.hasSetter
              && !c.shallow && !c.customSetter
              && Settled(shapes, obOf, v, shouldObserve, serverRendering) && c.childOb == ObserverOf(shapes, obOf, v)
      ensures Notified(old(g.trace), g.trace, g.target, old(obOf)[p].dep.subs)
    {
      var ob := obOf[p];
      var c := DefineReactive(ob.value, key, Some(v), false, false);
      NotifiedAfter(old(g.trace), g.trace, g.target, ob.dep.subs);
      ob.dep.Notify(g, []);
    }

    /**
     * `del(target, key)`: on an array and a valid index, `splice` the
     * element out; a Vue instance or a root `$data` is refused with a
     * warning; an own key is deleted and, on an observed object,
     * `ob.dep.notify()` follows.  Throws as strict-mode code does.
     */
    method Delete(t: Value, key: Key) returns (r: Completion<()>)
      requires IdsIssued(g.uid, g.issued) && WellFormed(shapes, obOf, props, keys, items)
      requires t.Ref? ==> t.obj in shapes
      modifies this`obOf, this`props, this`keys, this`items, g`uid, g`issued, g`trace
      ensures IdsIssued(g.uid, g.issued) && WellFormed(shapes, obOf, props, keys, items) && Extends(old(obOf), obOf)
      ensures old(g.trace) <= g.trace
      ensures var path := old(DelPathOf(t, key));
              && (path == DelPrimitive ==>
                    && r == (if t.Undefined? || t.Null? || PrimitiveHasOwn(t, key) then Throw else Normal(()))
                    && unchanged(this) && g.trace == old(g.trace) + WarnIf(dev, DeleteOnPrimitive))
              && (path == DelIndexed ==>
                    && r == Normal(())
                    && items == old(items)[t.obj := DeleteIndex(old(items[t.obj]), key.n)]
                    && PropsKeptFrom(old(obOf), old(props), old(keys), None, obOf, props, keys)
                    && obOf == old(obOf) && props == old(props) && keys == old(keys)
                    && (t.obj !in old(obOf) ==> obOf == old(obOf) && props == old(props) && keys == old(keys) && g.trace == old(g.trace))
                    && (t.obj in old(obOf) ==> Notified(old(g.trace), g.trace, g.target, old(obOf)[t.obj].dep.subs)))
              && (path == DelRefused ==>
                    r == Normal(()) && unchanged(this) && g.trace == old(g.trace) + WarnIf(dev, DeleteFromRootOrInstance))
              && (path == DelAbsent ==> r == Normal(()) && unchanged(this) && g.trace == old(g.trace))
              && (path == DelOwnKey ==>
                    && obOf == old(obOf) && items == old(items)
                    && if old(props[t.obj][key]).configurable then
                         && r == Normal(())
                         && props == old(props)[t.obj := old(props[t.obj]) - {key}]
                         && keys == old(keys)[t.obj := WithoutKey(old(keys[t.obj]), key)]
                         && g.trace == old(g.trace) + (if t.obj in obOf then UpdateCalls(obOf[t.obj].dep.subs) else [])
                       else r == Throw && unchanged(this) && g.trace == old(g.trace))
    {
      if !t.Ref? {
        g.trace := g.trace + WarnIf(dev, DeleteOnPrimitive);
        // `target.__ob__` throws on undefined and null; a string's own index or length cannot be deleted
        if t.Undefined? || t.Null? || PrimitiveHasOwn(t, key) {
          return Throw;
        }
        return Normal(());
      }
      var p := t.obj;
      if shapes[p].kind == ArrayObject && key.IsValidArrayIndex() {
        DeleteArrayIndex(p, key.n);
        return Normal(());
      }
      if shapes[p].isVue || (p in obOf && obOf[p].vmCount > 0) {
        g.trace := g.trace + WarnIf(dev, DeleteFromRootOrInstance);
        return Normal(());
      }
      if key !in props[p] {
        return Normal(());
      }
      r := DeleteOwn(p, key);
    }

    /** `target.splice(key, 1)` on an array. */
    method DeleteArrayIndex(p: ObjId, n: nat)
      requires IdsIssued(g.uid, g.issued) && WellFormed(shapes, obOf, props, keys, items)
      requires p in shapes && shapes[p].kind == ArrayObject
      modifies this`obOf, this`props, this`keys, this`items, g`uid, g`issued, g`trace
      ensures IdsIssued(g.uid, g.issued) && WellFormed(shapes, obOf, props, keys, items) && Extends(old(obOf), obOf)
      ensures old(g.trace) <= g.trace
      ensures items == old(items)[p := DeleteIndex(old(items[p]), n)]
      ensures PropsKeptFrom(old(obOf), old(props), old(keys), None, obOf, props, keys)
      ensures obOf == old(obOf) && props == old(props) && keys == old(keys)
      ensures p !in old(obOf) ==> obOf == old(obOf) && props == old(props) && keys == old(keys) && g.trace == old(g.trace)
      ensures p in old(obOf) ==> Notified(old(g.trace), g.trace, g.target, old(obOf)[p].dep.subs)
    {
      var _ := ArrayCall(p, Splice, [Num(n), Num(1)], []);
    }

    /**
     * `delete target[key]` on an own property, then `ob.dep.notify()` when
     * observed; a non-configurable property throws in strict mode.
     */
    method DeleteOwn(p: ObjId, key: Key) returns (r: Completion<()>)
      requires WellFormed(shapes, obOf, props, keys, items)
      requires p in shapes && key in props[p]
      modifies this`props, this`keys, g`trace
      ensures WellFormed(shapes, obOf, props, keys, items)
      ensures if old(props[p][key]).configurable then
                && r == Normal(())
                && props == old(props)[p := old(props[p]) - {key}]
                && keys == old(keys)[p := WithoutKey(old(keys[p]), key)]
                && g.trace == old(g.trace) + (if p in obOf then UpdateCalls(obOf[p].dep.subs) else [])
              else r == Throw && unchanged(this) && g.trace == old(g.trace)
    {
      if !props[p][key].configurable {
        return Throw;
      }
      props := props[p := props[p] - {key}];
      keys := keys[p := WithoutKey(keys[p], key)];
      if p in obOf {
        obOf[p].dep.Notify(g, []);
      }
      r := Normal(());
    }

    /** Which branch of `set(target, key, val)` a call takes. */
    function SetPathOf(t: Value, key: Key): SetPath
      requires t.Ref? ==> t.obj in shapes && t.obj in props
      reads this, if t.Ref? && t.obj in obOf then {obOf[t.obj]} else {}
    {
      if !t.Ref? then SetPrimitive
      else if shapes[t.obj].kind == ArrayObject && key.IsValidArrayIndex() then SetIndexed
      else if key in props[t.obj] then SetOwnKey
      else if shapes[t.obj].isVue || (t.obj in obOf && obOf[t.obj].vmCount > 0) then SetRefused
      else if t.obj !in obOf then SetNewPlain
      else SetNewReactive
    }

    /** Which branch of `del(target, key)` a call takes. */
    function DelPathOf(t: Value, key: Key): DelPath
      requires t.Ref? ==> t.obj in shapes && t.obj in props
      reads this, if t.Ref? && t.obj in obOf then {obOf[t.obj]} else {}
    {
      if !t.Ref? then DelPrimitive
      else if shapes[t.obj].kind == ArrayObject && key.IsValidArrayIndex() then DelIndexed
      else if shapes[t.obj].isVue || (t.obj in obOf && obOf[t.obj].vmCount > 0) then DelRefused
      else if key !in props[t.obj] then DelAbsent
      else DelOwnKey
    }
  }

  /**
   * The ids of the deps whose `depend()` is called by `dependArray(value)`
   * on array `p`: the observer dep of each element that has one, and, for
   * each element that is itself an array, the same again inside it.
   * `path` holds the arrays the descent is currently inside; an element
   * array already on it is not entered again.
   */
  function ArrayDepends(shapes: map<ObjId, Shape>, items: map<ObjId, seq<Value>>, obOf: map<ObjId, Observer>,
                        p: ObjId, path: set<ObjId>): seq<nat>
    requires p in items
    decreases items.Keys - path, 1, 0
  {
    ItemsDepends(shapes, items, obOf, items[p], path)
  }

  function ItemsDepends(shapes: map<ObjId, Shape>, items: map<ObjId, seq<Value>>, obOf: map<ObjId, Observer>,
                        vals: seq<Value>, path: set<ObjId>): seq<nat>
    decreases items.Keys - path, 0, |vals|
  {
    if vals == [] then []
    else ElementDepends(shapes, items, obOf, vals[0], path) + ItemsDepends(shapes, items, obOf, vals[1..], path)
  }

  function ElementDepends(shapes: map<ObjId, Shape>, items: map<ObjId, seq<Value>>, obOf: map<ObjId, Observer>,
                          e: Value, path: set<ObjId>): seq<nat>
    decreases items.Keys - path, 0, 0
  {
    if e.Ref? && e.obj in items && e.obj in shapes then
      var q := e.obj;
      (if q in obOf then [obOf[q].dep.id] else []) +
      (if shapes[q].kind == ArrayObject && q !in path then ArrayDepends(shapes, items, obOf, q, path + {q}) else [])
    else []
  }

  /** Every element that has an observer of its own has its dep among those `dependArray` reaches. */
  lemma {:induction false} ItemsDependsCovers(shapes: map<ObjId, Shape>, items: map<ObjId, seq<Value>>, obOf: map<ObjId, Observer>,
                                              vals: seq<Value>, path: set<ObjId>)
    ensures forall i :: 0 <= i < |vals| && vals[i].Ref? && vals[i].obj in items && vals[i].obj in shapes && vals[i].obj in obOf ==>
              obOf[vals[i].obj].dep.id in ItemsDepends(shapes, items, obOf, vals, path)
    decreases |vals|
  {
    if vals != [] {
      ItemsDependsCovers(shapes, items, obOf, vals[1..], path);
      forall i | 0 <= i < |vals| && vals[i].Ref? && vals[i].obj in items && vals[i].obj in shapes && vals[i].obj in obOf
        ensures obOf[vals[i].obj].dep.id in ItemsDepends(shapes, items, obOf, vals, path)
      {
        if i > 0 {
          assert vals[1..][i - 1] == vals[i];
        }
      }
    }
  }

  /**
   * `e` is reached from `vals` by descending through the element arrays
   * `chain`, in order: each one an element of the list before it, none on
   * `path` and none twice.
   */
  ghost predicate Reaches(shapes: map<ObjId, Shape>, items: map<ObjId, seq<Value>>,
                          vals: seq<Value>, path: set<ObjId>, chain: seq<ObjId>, e: Value)
    decreases |chain|
  {
    if chain == [] then e in vals
    else
      var a := chain[0];
      && Ref(a) in vals && a in items && a in shapes && shapes[a].kind == ArrayObject && a !in path
      && Reaches(shapes, items, items[a], path + {a}, chain[1..], e)
  }

  /** The deps registered for one element are among those registered for the list. */
  lemma {:induction false} ItemsDependsHasElement(shapes: map<ObjId, Shape>, items: map<ObjId, seq<Value>>, obOf: map<ObjId, Observer>,
                                                  vals: seq<Value>, path: set<ObjId>, i: nat)
    requires i < |vals|
    ensures forall d :: d in ElementDepends(shapes, items, obOf, vals[i], path) ==> d in ItemsDepends(shapes, items, obOf, vals, path)
    decreases |vals|
  {
    if i > 0 {
      assert vals[1..][i - 1] == vals[i];
      ItemsDependsHasElement(shapes, items, obOf, vals[1..], path, i - 1);
    }
  }

  /**
   * `dependArray` registers the observer dep of every element at any
   * depth that it reaches through nested arrays.
   */
  lemma {:induction false} ItemsDependsCoversNested(shapes: map<ObjId, Shape>, items: map<ObjId, seq<Value>>, obOf: map<ObjId, Observer>,
                                                    vals: seq<Value>, path: set<ObjId>, chain: seq<ObjId>, e: Value)
    requires Reaches(shapes, items, vals, path, chain, e)
    requires e.Ref? && e.obj in items && e.obj in shapes && e.obj in obOf
    ensures obOf[e.obj].dep.id in ItemsDepends(shapes, items, obOf, vals, path)
    decreases |chain|
  {
    if chain == [] {
      var i :| 0 <= i < |vals| && vals[i] == e;
      ItemsDependsCovers(shapes, items, obOf, vals, path);
    } else {
      var a := chain[0];
      ItemsDependsCoversNested(shapes, items, obOf, items[a], path + {a}, chain[1..], e);
      var i :| 0 <= i < |vals| && vals[i] == Ref(a);
      assert ArrayDepends(shapes, items, obOf, a, path + {a}) == ItemsDepends(shapes, items, obOf, items[a], path + {a});
      assert obOf[e.obj].dep.id in ElementDepends(shapes, items, obOf, vals[i], path);
      ItemsDependsHasElement(shapes, items, obOf, vals, path, i);
    }
  }

  /**
   * `dependArray` as the source writes it, with no guard against an array
   * that contains itself.  `fuel` bounds how deep the descent may go; the
   * result is `None` when the descent needs to go deeper.
   */
  function ArrayDependsAsWritten(shapes: map<ObjId, Shape>, items: map<ObjId, seq<Value>>, obOf: map<ObjId, Observer>,
                                 p: ObjId, fuel: nat): Option<seq<nat>>
    requires p in items
    decreases fuel, 1, 0
  {
    ItemsDependsAsWritten(shapes, items, obOf, items[p], fuel)
  }

  function ItemsDependsAsWritten(shapes: map<ObjId, Shape>, items: map<ObjId, seq<Value>>, obOf: map<ObjId, Observer>,
                                 vals: seq<Value>, fuel: nat): Option<seq<nat>>
    decreases fuel, 0, |vals|
  {
    if vals == [] then Some([])
    else
      var first := ElementDependsAsWritten(shapes, items, obOf, vals[0], fuel);
      var rest := ItemsDependsAsWritten(shapes, items, obOf, vals[1..], fuel);
      if first.None? || rest.None? then None else Some(first.value + rest.value)
  }

  function ElementDependsAsWritten(shapes: map<ObjId, Shape>, items: map<ObjId, seq<Value>>, obOf: map<ObjId, Observer>,
                                   e: Value, fuel: nat): Option<seq<nat>>
    decreases fuel, 0, 0
  {
    if e.Ref? && e.obj in items && e.obj in shapes then
      var q := e.obj;
      var own := if q in obOf then [obOf[q].dep.id] else [];
      if shapes[q].kind != ArrayObject then Some(own)
      else if fuel == 0 then None
      else
        var inner := ArrayDependsAsWritten(shapes, items, obOf, q, fuel - 1);
        if inner.None? then None else Some(own + inner.value)
    else Some([])
  }

  /** One element whose descent does not finish keeps the whole list from finishing. */
  lemma {:induction false} ItemsAsWrittenStuck(shapes: map<ObjId, Shape>, items: map<ObjId, seq<Value>>, obOf: map<ObjId, Observer>,
                                               vals: seq<Value>, fuel: nat, i: nat)
    requires i < |vals| && ElementDependsAsWritten(shapes, items, obOf, vals[i], fuel).None?
    ensures ItemsDependsAsWritten(shapes, items, obOf, vals, fuel).None?
    decreases |vals|
  {
    if i > 0 {
      assert vals[1..][i - 1] == vals[i];
      ItemsAsWrittenStuck(shapes, items, obOf, vals[1..], fuel, i - 1);
    }
  }

  /**
   * As written, `dependArray` on an array that holds itself never
   * finishes: no depth of descent is enough.
   */
  lemma {:induction false} SelfContainingArrayNeverFinishes(shapes: map<ObjId, Shape>, items: map<ObjId, seq<Value>>,
                                                            obOf: map<ObjId, Observer>, p: ObjId, i: nat, fuel: nat)
    requires p in items && p in shapes && shapes[p].kind == ArrayObject
    requires i < |items[p]| && items[p][i] == Ref(p)
    ensures ArrayDependsAsWritten(shapes, items, obOf, p, fuel).None?
    decreases fuel
  {
    if fuel > 0 {
      SelfContainingArrayNeverFinishes(shapes, items, obOf, p, i, fuel - 1);
    }
    ItemsAsWrittenStuck(shapes, items, obOf, items[p], fuel, i);
  }

  /** The `ItemsDepends` of a list grows element by element. */
  lemma ItemsDependsSnoc(shapes: map<ObjId, Shape>, items: map<ObjId, seq<Value>>, obOf: map<ObjId, Observer>,
                         vals: seq<Value>, e: Value, path: set<ObjId>)
    ensures ItemsDepends(shapes, items, obOf, vals + [e], path)
            == ItemsDepends(shapes, items, obOf, vals, path) + ElementDepends(shapes, items, obOf, e, path)
    decreases |vals|
  {
    if vals == [] {
      assert [e][1..] == [];
    } else {
      assert (vals + [e])[1..] == vals[1..] + [e];
      ItemsDependsSnoc(shapes, items, obOf, vals[1..], e, path);
    }
  }

  /** With more fuel, a descent that finished finishes with the same result. */
  lemma {:induction false} ItemsAsWrittenMore(shapes: map<ObjId, Shape>, items: map<ObjId, seq<Value>>, obOf: map<ObjId, Observer>,
                                              vals: seq<Value>, fuel: nat, more: nat)
    requires fuel <= more
    ensures ItemsDependsAsWritten(shapes, items, obOf, vals, fuel).Some? ==>
              ItemsDependsAsWritten(shapes, items, obOf, vals, more) == ItemsDependsAsWritten(shapes, items, obOf, vals, fuel)
    decreases fuel, |vals|
  {
    if vals != [] && ItemsDependsAsWritten(shapes, items, obOf, vals, fuel).Some? {
      var e := vals[0];
      assert ElementDependsAsWritten(shapes, items, obOf, e, fuel).Some?;
      if e.Ref? && e.obj in items && e.obj in shapes && shapes[e.obj].kind == ArrayObject {
        assert ArrayDependsAsWritten(shapes, items, obOf, e.obj, fuel - 1).Some?;
        ItemsAsWrittenMore(shapes, items, obOf, items[e.obj], fuel - 1, more - 1);
      }
      assert ElementDependsAsWritten(shapes, items, obOf, e, more) == ElementDependsAsWritten(shapes, items, obOf, e, fuel);
      ItemsAsWrittenMore(shapes, items, obOf, vals[1..], fuel, more);
    }
  }

  /** The least fuel with which the descent finishes, with the same result. */
  lemma {:induction false} ItemsAsWrittenLeastFuel(shapes: map<ObjId, Shape>, items: map<ObjId, seq<Value>>, obOf: map<ObjId, Observer>,
                                                   vals: seq<Value>, fuel: nat)
    returns (least: nat)
    requires ItemsDependsAsWritten(shapes, items, obOf, vals, fuel).Some?
    ensures least <= fuel
    ensures ItemsDependsAsWritten(shapes, items, obOf, vals, least) == ItemsDependsAsWritten(shapes, items, obOf, vals, fuel)
    ensures least > 0 ==> ItemsDependsAsWritten(shapes, items, obOf, vals, least - 1).None?
    decreases fuel
  {
    if fuel > 0 && ItemsDependsAsWritten(shapes, items, obOf, vals, fuel - 1).Some? {
      ItemsAsWrittenMore(shapes, items, obOf, vals, fuel - 1, fuel);
      least := ItemsAsWrittenLeastFuel(shapes, items, obOf, vals, fuel - 1);
    } else {
      least := fuel;
    }
  }

  /**
   * Where the unguarded descent finishes, with no array of `path` able to
   * finish on one less fuel, the guarded descent gives the same deps.
   */
  lemma {:induction false} ItemsAsWrittenAgrees(shapes: map<ObjId, Shape>, items: map<ObjId, seq<Value>>, obOf: map<ObjId, Observer>,
                                                vals: seq<Value>, fuel: nat, path: set<ObjId>)
    requires ItemsDependsAsWritten(shapes, items, obOf, vals, fuel).Some?
    requires fuel > 0 ==> forall q :: q in path && q in items ==> ArrayDependsAsWritten(shapes, items, obOf, q, fuel - 1).None?
    ensures ItemsDependsAsWritten(shapes, items, obOf, vals, fuel) == Some(ItemsDepends(shapes, items, obOf, vals, path))
    decreases fuel, |vals|
  {
    if vals != [] {
      var e := vals[0];
      assert ElementDependsAsWritten(shapes, items, obOf, e, fuel).Some?;
      if e.Ref? && e.obj in items && e.obj in shapes && shapes[e.obj].kind == ArrayObject {
        var q := e.obj;
        // the unguarded descent entered `q`, so `q` is not an array it is already inside
        assert ArrayDependsAsWritten(shapes, items, obOf, q, fuel - 1).Some?;
        assert q !in path;
        var least := ItemsAsWrittenLeastFuel(shapes, items, obOf, items[q], fuel - 1);
        forall r | r in path && r in items
          ensures least > 0 ==> ArrayDependsAsWritten(shapes, items, obOf, r, least - 1).None?
        {
          if least > 0 {
            ItemsAsWrittenMore(shapes, items, obOf, items[r], least - 1, fuel - 1);
          }
        }
        ItemsAsWrittenAgrees(shapes, items, obOf, items[q], least, path + {q});
        assert ArrayDependsAsWritten(shapes, items, obOf, q, fuel - 1) == Some(ArrayDepends(shapes, items, obOf, q, path + {q}));
      } else if e.Ref? && e.obj in items && e.obj in shapes {
        var own := if e.obj in obOf then [obOf[e.obj].dep.id] else [];
        assert own + [] == own;
      }
      assert ElementDependsAsWritten(shapes, items, obOf, e, fuel) == Some(ElementDepends(shapes, items, obOf, e, path));
      ItemsAsWrittenAgrees(shapes, items, obOf, vals[1..], fuel, path);
    }
  }

  /**
   * Wherever `dependArray` as written finishes, it registers exactly the
   * deps the guarded descent does: the guard changes only the inputs on
   * which the source never finishes.
   */
  lemma ArrayDependsAsWrittenAgrees(shapes: map<ObjId, Shape>, items: map<ObjId, seq<Value>>, obOf: map<ObjId, Observer>,
                                    p: ObjId, fuel: nat)
    requires p in items
    ensures ArrayDependsAsWritten(shapes, items, obOf, p, fuel).Some? ==>
              ArrayDependsAsWritten(shapes, items, obOf, p, fuel) == Some(ArrayDepends(shapes, items, obOf, p, {p}))
  {
    if ArrayDependsAsWritten(shapes, items, obOf, p, fuel).Some? {
      var least := ItemsAsWrittenLeastFuel(shapes, items, obOf, items[p], fuel);
      ItemsAsWrittenAgrees(shapes, items, obOf, items[p], least, {p});
    }
  }

  /** What `Object.getOwnPropertyDescriptor(obj, key)` gives `defineReactive` as `getter`/`setter`. */
  function PriorAccessors(own: map<Key, Prop>, key: Key): (r: Prior)
    reads if key in own && own[key].kind.Reactive? then {own[key].kind.closure} else {}
    ensures key !in own || own[key].kind.Data? ==> r == Prior(false, false, Undefined)
  {
    if key !in own then Prior(false, false, Undefined)
    else match own[key].kind
      case Data(_, _) => Prior(false, false, Undefined)
      case Accessor(hg, hs, c) => Prior(hg, hs, c)
      // an earlier reactive pair: a getter and a setter over its current value
      case Reactive(c) => Prior(true, true, c.Current())
  }

  /** The closure `defineReactive` creates: its options, and the value it starts from. */
  ghost predicate NewClosure(c: Closure, own0: map<Key, Prop>, key: Key, val: Option<Value>, customSetter: bool, shallow: bool)
    reads c
  {
    && c.shallow == shallow && c.customSetter == customSetter
    && (val.Some? ==> c.val == val.value)
    && (shallow ==> c.childOb.None?)
    && (key !in own0 || own0[key].kind.Data? ==> !c.hasGetter && !c.hasSetter)
    && (key in own0 && own0[key].kind.Accessor? ==>
          c.hasGetter == own0[key].kind.hasGet && c.hasSetter == own0[key].kind.hasSet && c.cell == own0[key].kind.cell)
  }

  /**
   * `walk` over the keys `done` so far, as far as the properties go: every
   * configurable one of them is now an enumerable, configurable reactive
   * pair, every other property is as it was.
   */
  ghost predicate WalkedOn(own0: map<Key, Prop>, done: seq<Key>, own: map<Key, Prop>)
  {
    own.Keys == own0.Keys &&
    forall key :: key in own0 ==>
      if key in done && own0[key].configurable
      then own[key].kind.Reactive? && own[key].enumerable && own[key].configurable
      else own[key] == own0[key]
  }

  /** A key among `done` that the walk has made reactive. */
  predicate Walked(own0: map<Key, Prop>, done: seq<Key>, own: map<Key, Prop>, key: Key)
  {
    key in done && key in own0 && own0[key].configurable && key in own && own[key].kind.Reactive?
  }

  /**
   * Every key the walk has made reactive reads the value it read before,
   * in `vals0`, and that value has been observed.
   */
  ghost predicate KeysObserved(shapes: map<ObjId, Shape>, obOf: map<ObjId, Observer>, so: bool, ssr: bool,
                               vals0: map<Key, Value>, own0: map<Key, Prop>, done: seq<Key>, own: map<Key, Prop>)
    reads Closures(own)
  {
    forall key :: Walked(own0, done, own, key) ==>
      && key in vals0 && own[key].kind.closure.Current() == vals0[key]
      && ObservedChild(shapes, obOf, own[key].kind.closure.val, own[key].kind.closure.childOb, so, ssr)
  }

  /** `childOb = !shallow && observe(val)` has run for a non-shallow closure: the value is settled and `childOb` is its `__ob__`. */
  ghost predicate ObservedChild(shapes: map<ObjId, Shape>, obOf: map<ObjId, Observer>, val: Value, childOb: Option<Observer>,
                                so: bool, ssr: bool)
  {
    Settled(shapes, obOf, val, so, ssr) && childOb == ObserverOf(shapes, obOf, val)
  }

  /** An observed value stays observed while `__ob__` grows as `observe` allows. */
  lemma ObservedStays(shapes: map<ObjId, Shape>, obOf0: map<ObjId, Observer>, obOf1: map<ObjId, Observer>, so: bool, ssr: bool)
    requires Extends(obOf0, obOf1) && CreatedAsAllowed(shapes, obOf0, obOf1, so, ssr)
    ensures forall v, ob {:trigger ObservedChild(shapes, obOf1, v, ob, so, ssr)} ::
              ObservedChild(shapes, obOf0, v, ob, so, ssr) ==> ObservedChild(shapes, obOf1, v, ob, so, ssr)
  {
    forall v, ob | ObservedChild(shapes, obOf0, v, ob, so, ssr) ensures ObservedChild(shapes, obOf1, v, ob, so, ssr) {
      SettledStays(shapes, obOf0, obOf1, v, so, ssr);
    }
  }

  /** One more key walked: `defineReactive` left it alone exactly when it is locked. */
  lemma WalkStep(own0: map<Key, Prop>, done: seq<Key>, own: map<Key, Prop>, key: Key, own': map<Key, Prop>, c: Option<Closure>)
    requires WalkedOn(own0, done, own) && key in own0
    requires c.None? <==> Locked(own, key)
    requires own' == if c.None? then own else own[key := Prop(Reactive(c.value), true, true)]
    ensures WalkedOn(own0, done + [key], own')
  {
  }

  /** What each key of `own` reads. */
  ghost function Values(own: map<Key, Prop>): (r: map<Key, Value>)
    reads Closures(own)
    ensures r.Keys == own.Keys
  {
    map key | key in own :: ReadValue(own, key)
  }

  /** The closures of the reactive properties among `own`. */
  ghost function Closures(own: map<Key, Prop>): set<Closure>
  {
    set key | key in own && own[key].kind.Reactive? :: own[key].kind.closure
  }

  /** Keeping all observed objects but `p` is kept when `p` was not observed to begin with. */
  lemma PropsKeptNarrow(obOf0: map<ObjId, Observer>, obOf1: map<ObjId, Observer>,
                        props0: map<ObjId, map<Key, Prop>>, keys0: map<ObjId, seq<Key>>, except: Option<ObjId>,
                        obOf: map<ObjId, Observer>, props: map<ObjId, map<Key, Prop>>, keys: map<ObjId, seq<Key>>)
    requires obOf0.Keys <= obOf1.Keys
    requires except.Some? ==> except.value !in obOf0 && except.value in obOf
    requires PropsKeptFrom(obOf1, props0, keys0, except, obOf, props, keys)
    ensures PropsKeptFrom(obOf0, props0, keys0, None, obOf, props, keys)
  {
  }

  /** A property `defineReactive` must leave alone: an own, non-configurable one. */
  predicate Locked(own: map<Key, Prop>, key: Key)
  {
    key in own && !own[key].configurable
  }

  lemma PropsKeptRefl(obOf0: map<ObjId, Observer>, obOf: map<ObjId, Observer>,
                       props: map<ObjId, map<Key, Prop>>, keys: map<ObjId, seq<Key>>)
    ensures PropsKeptFrom(obOf0, props, keys, None, obOf, props, keys)
  {
  }

  /** Changing the properties of `p` alone keeps the other observed objects' properties. */
  lemma PropsKeptUpdate(obOf0: map<ObjId, Observer>, props0: map<ObjId, map<Key, Prop>>, keys0: map<ObjId, seq<Key>>,
                        props1: map<ObjId, map<Key, Prop>>, keys1: map<ObjId, seq<Key>>,
                        p: ObjId, own: map<Key, Prop>, ks: seq<Key>, obOf: map<ObjId, Observer>)
    requires PropsKeptFrom(obOf0, props0, keys0, None, obOf, props1, keys1)
    ensures PropsKeptFrom(obOf0, props0, keys0, Some(p), obOf, props1[p := own], keys1[p := ks])
  {
  }

  /** Keeping the observed objects' properties is transitive along a growing `__ob__`. */
  lemma PropsKeptTrans(obOf0: map<ObjId, Observer>, props0: map<ObjId, map<Key, Prop>>, keys0: map<ObjId, seq<Key>>,
                       props1: map<ObjId, map<Key, Prop>>, keys1: map<ObjId, seq<Key>>,
                       props2: map<ObjId, map<Key, Prop>>, keys2: map<ObjId, seq<Key>>,
                       except: Option<ObjId>, obOf1: map<ObjId, Observer>, obOf2: map<ObjId, Observer>)
    requires Extends(obOf0, obOf1) && Extends(obOf1, obOf2)
    requires PropsKeptFrom(obOf0, props0, keys0, except, obOf1, props1, keys1)
    requires PropsKeptFrom(obOf1, props1, keys1, except, obOf2, props2, keys2)
    ensures PropsKeptFrom(obOf0, props0, keys0, except, obOf2, props2, keys2)
  {
  }

  /** The `addDep` calls made on `t` for a list of dep ids. */
  function AddDepCalls(t: Watcher, ids: seq<nat>): (r: seq<Call>)
    ensures |r| == |ids| && forall i :: 0 <= i < |ids| ==> r[i] == AddDep(t, ids[i])
  {
    seq(|ids|, i requires 0 <= i < |ids| => AddDep(t, ids[i]))
  }

  lemma AddDepCallsAppend(t: Watcher, a: seq<nat>, b: seq<nat>)
    ensures AddDepCalls(t, a + b) == AddDepCalls(t, a) + AddDepCalls(t, b)
  {
  }

  /**
   * The reactive setter's early exit, `newVal === value || (newVal !== newVal
   * && value !== value)`: on the values of this model it is plain equality,
   * two NaNs included.
   */
  function SetterSkips(newVal: Value, value: Value): (r: bool)
    ensures r <==> newVal == value
  {
    StrictEquals(newVal, value) || (newVal.SelfUnequal() && value.SelfUnequal())
  }

  /** `warn(...)`, which only development builds reach. */
  function WarnIf(dev: bool, w: Warning): seq<Call>
  {
    if dev then [Warn(w)] else []
  }

  /**
   * Since `trace0` the only calls recorded are `addDep` calls on the
   * target, made by reactive getters; with no target set, none at all.
   */
  ghost predicate DependsOnly(trace0: seq<Call>, trace: seq<Call>, target: Option<Watcher>)
  {
    && trace0 <= trace
    && (target.None? ==> trace == trace0)
    && forall i :: |trace0| <= i < |trace| ==> trace[i].AddDep? && target == Some(trace[i].watcher)
  }

  /**
   * `dep.notify()` on a dep with subscribers `subs` was the last thing done
   * after `trace0`: the trace is `trace0`, then `addDep` calls on the
   * target only, then one `update()` per subscriber.
   */
  ghost predicate Notified(trace0: seq<Call>, trace: seq<Call>, target: Option<Watcher>, subs: seq<Watcher>)
  {
    var k := |trace| - |subs|;
    && |trace0| <= k
    && DependsOnly(trace0, trace[..k], target)
    && trace[k..] == UpdateCalls(subs)
  }

  /** `Notified` holds of a trace that is `trace0`, the getter calls observing made, then the updates. */
  lemma NotifiedAfter(trace0: seq<Call>, trace1: seq<Call>, target: Option<Watcher>, subs: seq<Watcher>)
    requires DependsOnly(trace0, trace1, target)
    ensures Notified(trace0, trace1 + UpdateCalls(subs), target, subs)
  {
    var t := trace1 + UpdateCalls(subs);
    assert t[..|trace1|] == trace1;
    assert t[|trace1|..] == UpdateCalls(subs);
  }

  /** With no target set, a notification adds the updates and nothing else. */
  lemma NotifiedWithoutTarget(trace0: seq<Call>, trace: seq<Call>, subs: seq<Watcher>)
    requires Notified(trace0, trace, None, subs)
    ensures trace == trace0 + UpdateCalls(subs)
  {
    var k := |trace| - |subs|;
    assert trace[..k] == trace0;
    assert trace == trace[..k] + trace[k..];
  }

  /** `addDep`-only stretches of the trace join up. */
  lemma DependsOnlyTrans(trace0: seq<Call>, trace1: seq<Call>, trace2: seq<Call>, target: Option<Watcher>)
    requires DependsOnly(trace0, trace1, target) && DependsOnly(trace1, trace2, target)
    ensures DependsOnly(trace0, trace2, target)
  {
    forall i | |trace0| <= i < |trace2|
      ensures trace2[i].AddDep? && target == Some(trace2[i].watcher)
    {
      if i < |trace1| {
        assert trace2[i] == trace1[i];
      }
    }
  }

  /** The arguments the mutator passes to `observeArray`, or none. */
  function InsertedArgs(m: ArrayMethod, args: seq<Value>): seq<Value>
  {
    if Inserted(m, args).Some? then Inserted(m, args).value else []
  }

  /** The effect of one of the seven methods; sort's reordering comes from its (foreign) comparator. */
  function CallOutcome(m: ArrayMethod, s: seq<Value>, args: seq<Value>, sorted: seq<Value>): Outcome
  {
    if m == Sort then Outcome(sorted, ThisArray) else Apply(m, s, args)
  }

  /**
   * `target.length = Math.max(target.length, key)`: the array grows to
   * `n` elements; the new positions are holes, which read as `undefined`.
   */
  function Padded(s: seq<Value>, n: nat): (r: seq<Value>)
    ensures |r| == (if n <= |s| then |s| else n)
    ensures r[..|s|] == s && forall i :: |s| <= i < |r| ==> r[i] == Undefined
  {
    if n <= |s| then s else s + seq(n - |s|, _ => Undefined)
  }

  /** The elements after `set(array, n, v)`: the padding, then `splice(n, 1, v)`. */
  function SetIndex(s: seq<Value>, n: nat, v: Value): seq<Value>
  {
    Apply(Splice, Padded(s, n), [Num(n), Num(1), v]).items
  }

  /** `SetIndex` is the mutator's splice on the padded array, and inserts just the value. */
  lemma SetIndexBySplice(s: seq<Value>, n: nat, v: Value)
    ensures CallOutcome(Splice, Padded(s, n), [Num(n), Num(1), v], []).items == SetIndex(s, n, v)
    ensures InsertedArgs(Splice, [Num(n), Num(1), v]) == [v]
  {
  }

  /**
   * `set(array, n, v)` writes `v` at `n`, leaves every other element, and
   * lengthens the array to `n + 1` when it was shorter, with `undefined`
   * in between.
   */
  lemma SetIndexElements(s: seq<Value>, n: nat, v: Value)
    ensures var r := SetIndex(s, n, v);
            && |r| == (if n < |s| then |s| else n + 1)
            && r[n] == v
            && forall i :: 0 <= i < |r| && i != n ==> r[i] == (if i < |s| then s[i] else Undefined)
  {
    var t := Padded(s, n);
    assert SpliceStart([Num(n), Num(1), v], |t|) == n;
    var r := SetIndex(s, n, v);
    assert r == t[..n] + [v] + t[n + SpliceDeleteCount([Num(n), Num(1), v], |t|, n)..];
    forall i | 0 <= i < |r| && i != n
      ensures r[i] == (if i < |s| then s[i] else Undefined)
    {
      if i < |s| {
        assert t[..|s|][i] == s[i];
      }
    }
  }

  /** The elements after `del(array, n)`: `splice(n, 1)`. */
  function DeleteIndex(s: seq<Value>, n: nat): seq<Value>
  {
    Apply(Splice, s, [Num(n), Num(1)]).items
  }

  /** `del(array, n)` removes the element at `n`, and does nothing past the end. */
  lemma DeleteIndexElements(s: seq<Value>, n: nat)
    ensures n < |s| ==> DeleteIndex(s, n) == s[..n] + s[n + 1..]
    ensures n >= |s| ==> DeleteIndex(s, n) == s
  {
    if n >= |s| {
      assert s[..|s|] + [] + s[|s|..] == s;
    }
  }

  /** Deleting the element that `set` appended gives back the array. */
  lemma DeleteUndoesSetAtEnd(s: seq<Value>, v: Value)
    ensures DeleteIndex(SetIndex(s, |s|, v), |s|) == s
  {
    SetIndexElements(s, |s|, v);
    var r := SetIndex(s, |s|, v);
    DeleteIndexElements(r, |s|);
    assert r[..|s|] == s;
  }

  /** The key order once `delete` has removed `key`. */
  function WithoutKey(ks: seq<Key>, key: Key): (r: seq<Key>)
    ensures forall k :: k in r <==> k in ks && k != key
  {
    if ks == [] then []
    else (if ks[0] == key then [] else [ks[0]]) + WithoutKey(ks[1..], key)
  }

  /** Removing a key that was appended last restores the order before it was added. */
  lemma {:induction false} WithoutAppended(ks: seq<Key>, key: Key)
    requires key !in ks
    ensures WithoutKey(ks + [key], key) == ks
  {
    if ks == [] {
      assert WithoutKey([key], key) == [] + WithoutKey([], key);
    } else {
      assert (ks + [key])[1..] == ks[1..] + [key];
      WithoutAppended(ks[1..], key);
      assert ks == [ks[0]] + ks[1..];
    }
  }

  /** What strict-mode assignment to an own, non-reactive property can store into. */
  predicate Assignable(pr: Prop)
  {
    match pr.kind
    case Data(_, w) => w
    case Accessor(_, hasSet, _) => hasSet
    case Reactive(_) => true
  }

  /** An own property after `obj[key] = v`: a data value, or an accessor's cell through its setter. */
  function Stored(pr: Prop, v: Value): Prop
  {
    match pr.kind
    case Data(_, w) => pr.(kind := Data(v, w))
    case Accessor(hg, hs, _) => pr.(kind := Accessor(hg, hs, v))
    case Reactive(_) => pr
  }

  /** The value `obj[key]` reads from a property other than a reactive one. */
  function PlainValue(pr: Prop): Value
  {
    match pr.kind
    case Data(d, _) => d
    case Accessor(hg, _, cell) => if hg then cell else Undefined
    case Reactive(_) => Undefined
  }

  /** What `obj[key]` reads from an own property: through the getter of a reactive one; `undefined` when there is none. */
  function ReadValue(own: map<Key, Prop>, key: Key): Value
    reads if key in own && own[key].kind.Reactive? then {own[key].kind.closure} else {}
  {
    if key !in own then Undefined
    else if own[key].kind.Reactive? then own[key].kind.closure.Current()
    else PlainValue(own[key])
  }

  /**
   * After an assignment to a data property, or to an accessor with both a
   * getter and a setter, reading the property gives the value assigned;
   * its attributes are unchanged.
   */
  lemma StoredReadsBack(pr: Prop, v: Value)
    requires Assignable(pr) && (pr.kind.Data? || (pr.kind.Accessor? && pr.kind.hasGet))
    ensures PlainValue(Stored(pr, v)) == v && Assignable(Stored(pr, v))
    ensures Stored(pr, v).enumerable == pr.enumerable && Stored(pr, v).configurable == pr.configurable
  {
  }

  /** `hasOwn(target, key)` on a primitive: only a string has own properties, its indices and `length`. */
  predicate PrimitiveHasOwn(t: Value, key: Key)
  {
    t.Str? && ((key.IndexKey? && key.n < |t.s|) || key == NameKey("length"))
  }

  /** The branches of `set(target, key, val)`. */
  datatype SetPath =
    | SetPrimitive    // undefined, null or a primitive: `key in target` throws
    | SetIndexed        // an array and a valid index: lengthen, then splice
    | SetOwnKey            // an own key: plain assignment
    | SetRefused        // a new key on a Vue instance or a root `$data`
    | SetNewPlain          // a new key on an object that is not observed
    | SetNewReactive       // a new key on an observed object: defineReactive, then notify

  /** The branches of `del(target, key)`. */
  datatype DelPath =
    | DelPrimitive    // undefined, null or a primitive
    | DelIndexed        // an array and a valid index: splice
    | DelRefused        // a Vue instance or a root `$data`
    | DelAbsent         // not an own key
    | DelOwnKey            // an own key: delete, then notify when observed
}

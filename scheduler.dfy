/**
 * The watcher queue of scheduler.js: deduplicated queueing, the flush that
 * runs queued watchers in id order while more are being queued, the
 * circular-update guard, and the `activated`/`updated` hooks that follow.
 *
 * `watcher.run()` is code outside the core.  What matters about it here is
 * what it queues while it runs, so a flush is given `reactions`: the
 * watcher run at step `k` of the flush (the one at `queue[k]`) queues the
 * watchers and activates the components listed in `reactions[k]`, in that
 * order.
 */
module Scheduler {
  import opened Foreign
  import opened SeqFacts

  /** `MAX_UPDATE_COUNT` */
  const MaxUpdateCount: nat := 100

  /** What one `watcher.run()` does to the scheduler. */
  datatype Reaction =
    | Queue(watcher: Watcher)       // queueWatcher(watcher), via dep.notify() and watcher.update()
    | Activate(vm: Component)       // queueActivatedComponent(vm), from a patch

  /** The entries from position `k` on are in ascending id order. */
  predicate SortedFrom(q: seq<Watcher>, k: nat)
  {
    forall a, b {:trigger q[a].id, q[b].id} :: k <= a < b < |q| ==> q[a].id <= q[b].id
  }

  /** `InsertById(w, s)`: `w` placed before the first entry of `s` with an id at least its own. */
  function InsertById(w: Watcher, s: seq<Watcher>): seq<Watcher>
  {
    if s == [] || w.id <= s[0].id then [w] + s else [s[0]] + InsertById(w, s[1..])
  }

  /** `queue.sort((a, b) => a.id - b.id)`: a stable sort by id. */
  function SortById(q: seq<Watcher>): seq<Watcher>
  {
    if q == [] then [] else InsertById(q[0], SortById(q[1..]))
  }

  /** Inserting adds the one watcher, and puts first the smaller of it and the old first entry. */
  lemma {:induction false} InsertByIdElements(w: Watcher, s: seq<Watcher>)
    ensures multiset(InsertById(w, s)) == multiset(s) + multiset{w}
    ensures |InsertById(w, s)| == |s| + 1
    ensures InsertById(w, s)[0] == (if s == [] || w.id <= s[0].id then w else s[0])
  {
    if s != [] && w.id > s[0].id {
      InsertByIdElements(w, s[1..]);
      assert s == [s[0]] + s[1..];
    }
  }

  /** Inserting into a sorted list keeps it sorted. */
  lemma {:induction false} InsertByIdSorted(w: Watcher, s: seq<Watcher>)
    requires SortedFrom(s, 0)
    ensures SortedFrom(InsertById(w, s), 0)
  {
    if s == [] || w.id <= s[0].id {
      SortedCons(w, s);
    } else {
      var t := s[1..];
      SortedTail(s);
      InsertByIdSorted(w, t);
      InsertByIdElements(w, t);
      if t != [] {
        assert t[0] == s[1] && s[0].id <= s[1].id;
      }
      SortedCons(s[0], InsertById(w, t));
    }
  }

  /** A watcher with an id no larger than the head's can go in front of a sorted list. */
  lemma SortedCons(x: Watcher, r: seq<Watcher>)
    requires SortedFrom(r, 0) && (r == [] || x.id <= r[0].id)
    ensures SortedFrom([x] + r, 0)
  {
    var out := [x] + r;
    forall a, b | 0 <= a < b < |out| ensures out[a].id <= out[b].id {
      assert out[b] == r[b - 1];
      if a > 0 {
        assert out[a] == r[a - 1];
      } else if b > 1 {
        assert r[0].id <= r[b - 1].id;
      }
    }
  }

  /** The tail of a sorted list is sorted. */
  lemma SortedTail(s: seq<Watcher>)
    requires s != [] && SortedFrom(s, 0)
    ensures SortedFrom(s[1..], 0)
  {
    var t := s[1..];
    forall a, b | 0 <= a < b < |t| ensures t[a].id <= t[b].id {
      assert t[a] == s[a + 1] && t[b] == s[b + 1];
    }
  }

  /** The sort gives the queue's watchers in ascending id order. */
  lemma {:induction false} SortByIdSorted(q: seq<Watcher>)
    ensures SortedFrom(SortById(q), 0)
  {
    if q != [] {
      SortByIdSorted(q[1..]);
      InsertByIdSorted(q[0], SortById(q[1..]));
    }
  }

  /** The sort neither adds nor drops a watcher. */
  lemma {:induction false} SortByIdElements(q: seq<Watcher>)
    ensures multiset(SortById(q)) == multiset(q)
    ensures |SortById(q)| == |q|
  {
    if q != [] {
      SortByIdElements(q[1..]);
      InsertByIdElements(q[0], SortById(q[1..]));
      assert q == [q[0]] + q[1..];
    }
  }

  /** A queue already in id order is left as it is by the sort. */
  lemma {:induction false} SortByIdKeepsSorted(q: seq<Watcher>)
    requires SortedFrom(q, 0)
    ensures SortById(q) == q
  {
    if q != [] {
      assert SortedFrom(q[1..], 0);
      SortByIdKeepsSorted(q[1..]);
      assert q == [q[0]] + q[1..];
    }
  }

  /**
   * Where a watcher with id `id` is spliced into `q` while the flush is at
   * `index`: after the cursor, after every entry whose id is not larger,
   * and before the entries scanned past, which all have larger ids.  A
   * queue that does not reach past the cursor gets it at its end.
   */
  ghost predicate IsSlot(q: seq<Watcher>, index: nat, id: nat, pos: nat)
  {
    && pos <= |q|
    && (forall k :: pos <= k < |q| ==> q[k].id > id)
    && (pos > index || pos == |q|)
    && (pos > index + 1 ==> q[pos - 1].id <= id)
  }

  /** The slot is determined by the queue, the cursor and the id. */
  lemma SlotUnique(q: seq<Watcher>, index: nat, id: nat, p1: nat, p2: nat)
    requires IsSlot(q, index, id, p1) && IsSlot(q, index, id, p2)
    ensures p1 == p2
  {
  }

  /**
   * The backward scan of `queueWatcher` during a flush: from the last
   * entry down to just after the cursor, past every entry with a larger id.
   */
  method FindSlot(q: seq<Watcher>, index: nat, id: nat) returns (pos: nat)
    ensures pos <= |q|
    ensures forall k :: pos <= k < |q| ==> q[k].id > id
    ensures index < |q| ==> index < pos
    ensures pos <= index ==> pos == |q|
    ensures pos > index + 1 ==> q[pos - 1].id <= id
  {
    var i: int := |q| - 1;
    while i > index && q[i].id > id
      invariant -1 <= i < |q|
      invariant i == |q| - 1 || i >= index
      invariant forall k :: i < k < |q| ==> q[k].id > id
    {
      i := i - 1;
    }
    pos := i + 1;
  }

  /**
   * Splicing a watcher into its slot keeps the unprocessed part of the
   * queue in id order, and keeps everything up to the cursor in place.
   */
  lemma SlotKeepsSorted(q: seq<Watcher>, index: nat, w: Watcher, pos: nat)
    requires IsSlot(q, index, w.id, pos) && SortedFrom(q, index + 1)
    ensures var r := q[..pos] + [w] + q[pos..];
            SortedFrom(r, index + 1) && |r| == |q| + 1 && r[pos] == w &&
            (index < |q| ==> r[..index + 1] == q[..index + 1])
  {
    var r := q[..pos] + [w] + q[pos..];
    forall a, b | index + 1 <= a < b < |r| ensures r[a].id <= r[b].id {
      if b < pos {
        assert r[a] == q[a] && r[b] == q[b];
      } else if a > pos {
        assert r[a] == q[a - 1] && r[b] == q[b - 1];
      } else if a == pos {
        assert r[b] == q[b - 1];
      } else {
        assert r[a] == q[a];
        if b == pos {
          assert q[pos - 1].id <= w.id;
        } else {
          assert r[b] == q[b - 1];
        }
      }
    }
    if index < |q| {
      assert r[..index + 1] == q[..index + 1];
    }
  }

  /** The calls one step of the flush makes: `before()` if the watcher has one, then `run()`. */
  function StepCalls(w: Watcher): (r: seq<Call>)
    ensures 1 <= |r| <= 2 && r[|r| - 1] == Run(w) && (|r| == 2 <==> w.hasBefore)
  {
    (if w.hasBefore then [Before(w)] else []) + [Run(w)]
  }

  /** The calls of the flush steps that ran the watchers `ran`, in order. */
  function RunCalls(ran: seq<Watcher>): seq<Call>
  {
    if ran == [] then [] else RunCalls(ran[..|ran| - 1]) + StepCalls(ran[|ran| - 1])
  }

  /** The watchers run in a flush can be read back from its calls. */
  function RunWatchers(calls: seq<Call>): seq<Watcher>
  {
    if calls == [] then []
    else RunWatchers(calls[..|calls| - 1]) + (if calls[|calls| - 1].Run? then [calls[|calls| - 1].watcher] else [])
  }

  lemma {:induction false} RunWatchersAppend(a: seq<Call>, b: seq<Call>)
    ensures RunWatchers(a + b) == RunWatchers(a) + RunWatchers(b)
    decreases |b|
  {
    if b == [] {
      assert a + b == a;
    } else {
      var b' := b[..|b| - 1];
      assert (a + b)[..|a + b| - 1] == a + b';
      RunWatchersAppend(a, b');
    }
  }

  /** One flush step makes exactly one `run()` call. */
  lemma RunWatchersStep(w: Watcher)
    ensures RunWatchers(StepCalls(w)) == [w]
  {
    var c := StepCalls(w);
    if w.hasBefore {
      assert c[..|c| - 1] == [Before(w)];
      assert [Before(w)][..0] == [];
      assert RunWatchers([Before(w)]) == [];
    } else {
      assert c[..0] == [];
    }
  }

  /** The run calls of a flush name the watchers run, in order. */
  lemma {:induction false} RunCallsRunWatchers(ran: seq<Watcher>)
    ensures RunWatchers(RunCalls(ran)) == ran
    decreases |ran|
  {
    if ran != [] {
      var init := ran[..|ran| - 1];
      var w := ran[|ran| - 1];
      RunCallsRunWatchers(init);
      RunWatchersStep(w);
      RunWatchersAppend(RunCalls(init), StepCalls(w));
      TakeNext(ran, |ran| - 1);
      TakeAll(ran, |ran|);
    }
  }

  lemma RunCallsNext(q: seq<Watcher>, i: nat)
    requires i < |q|
    ensures RunCalls(q[..i + 1]) == RunCalls(q[..i]) + StepCalls(q[i])
  {
    assert q[..i + 1][..i] == q[..i];
  }

  /** A flush step extends the calls of the steps before it, whatever the step queues after the cursor. */
  lemma RunCallsStep(base: seq<Call>, q0: seq<Watcher>, q1: seq<Watcher>, i: nat, t0: seq<Call>, t1: seq<Call>)
    requires i < |q0| && i < |q1| && q1[..i + 1] == q0[..i + 1]
    requires t0 == base + RunCalls(q0[..i]) && t1 == t0 + StepCalls(q0[i])
    ensures t1 == base + RunCalls(q1[..i + 1])
  {
    RunCallsNext(q0, i);
  }

  /** `activateChildComponent(vm, true)` for each component, in order. */
  function ActivatedCalls(q: seq<Component>): (r: seq<Call>)
    ensures |r| == |q| && forall i :: 0 <= i < |q| ==> r[i] == ActivateChild(q[i].cid)
  {
    seq(|q|, i requires 0 <= i < |q| => ActivateChild(q[i].cid))
  }

  /** `vm._watcher === watcher && vm._isMounted`: the watcher is the mounted render watcher of its vm. */
  predicate GetsUpdatedHook(w: Watcher, vms: map<nat, Component>)
    reads vms.Values
  {
    w.vm in vms && vms[w.vm].renderWatcher == Some(w.id) && vms[w.vm].isMounted
  }

  /** The `updated` hook calls of `callUpdatedHooks(q)`: from the last watcher back to the first. */
  function UpdatedCalls(q: seq<Watcher>, vms: map<nat, Component>): seq<Call>
    reads vms.Values
  {
    if q == [] then []
    else UpdatedCalls(q[1..], vms) + (if GetsUpdatedHook(q[0], vms) then [UpdatedHook(q[0].vm)] else [])
  }

  /** The hooks of a concatenation come in the opposite order of its parts. */
  lemma {:induction false} UpdatedCallsAppend(a: seq<Watcher>, b: seq<Watcher>, vms: map<nat, Component>)
    ensures UpdatedCalls(a + b, vms) == UpdatedCalls(b, vms) + UpdatedCalls(a, vms)
  {
    if a == [] {
      assert a + b == b;
    } else {
      assert (a + b)[1..] == a[1..] + b;
      UpdatedCallsAppend(a[1..], b, vms);
    }
  }

  /** Exactly the qualifying watchers get a hook: one call per qualifying entry of the queue. */
  lemma {:induction false} UpdatedCallsExactly(q: seq<Watcher>, vms: map<nat, Component>)
    ensures forall c :: c in UpdatedCalls(q, vms) ==>
              c.UpdatedHook? && exists w :: w in q && GetsUpdatedHook(w, vms) && c.vm == w.vm
    ensures forall w :: w in q && GetsUpdatedHook(w, vms) ==> UpdatedHook(w.vm) in UpdatedCalls(q, vms)
    ensures |UpdatedCalls(q, vms)| <= |q|
  {
    if q != [] {
      UpdatedCallsExactly(q[1..], vms);
      assert q == [q[0]] + q[1..];
    }
  }

  /** The state of scheduler.js. */
  class Scheduler {
    /** `process.env.NODE_ENV !== 'production'` */
    const dev: bool
    /** `devtools && config.devtools` */
    const devtools: bool
    var queue: seq<Watcher>
    var activatedChildren: seq<Component>
    /** the ids `has` maps to `true` */
    var has: set<nat>
    var circular: map<nat, nat>
    var waiting: bool
    var flushing: bool
    var index: nat
    /** the calls made into code outside the core */
    var trace: seq<Call>

    /** Circular-update counts exist only during a flush, and only in development builds. */
    ghost predicate Valid()
      reads this
    {
      && (!dev ==> circular == map[])
      && (!flushing ==> circular == map[])
    }

    /** The module's initial state. */
    constructor (dev: bool, devtools: bool)
      ensures Valid() && this.dev == dev && this.devtools == devtools
      ensures queue == [] && activatedChildren == [] && has == {} && circular == map[]
      ensures !waiting && !flushing && index == 0 && trace == []
    {
      this.dev := dev;
      this.devtools := devtools;
      queue := [];
      activatedChildren := [];
      has := {};
      circular := map[];
      waiting := false;
      flushing := false;
      index := 0;
      trace := [];
    }

    /** `resetSchedulerState()` */
    method ResetSchedulerState()
      requires Valid()
      modifies this`index, this`queue, this`activatedChildren, this`has, this`circular, this`waiting, this`flushing
      ensures Valid()
      ensures index == 0 && queue == [] && activatedChildren == [] && has == {}
      ensures circular == if dev then map[] else old(circular)
      ensures !waiting && !flushing
    {
      index := 0;
      queue := [];
      activatedChildren := [];
      has := {};
      if dev {
        circular := map[];
      }
      waiting := false;
      flushing := false;
    }

    /**
     * `queueWatcher(watcher)`: a watcher already marked in `has` changes
     * nothing.  Otherwise it is marked and put at the end of the queue or,
     * during a flush, into its slot after the cursor; the first watcher
     * queued since the last reset requests the flush.
     */
    method QueueWatcher(w: Watcher) returns (ghost pos: nat)
      requires Valid()
      modifies this`queue, this`has, this`waiting, this`trace
      ensures Valid()
      ensures old(w.id in has) ==>
                queue == old(queue) && has == old(has) && waiting == old(waiting) && trace == old(trace)
      ensures old(w.id !in has) ==>
                && has == old(has) + {w.id} && waiting
                && trace == old(trace) + (if old(waiting) then [] else [NextTick])
                && pos <= |old(queue)| && queue == old(queue)[..pos] + [w] + old(queue)[pos..]
                && (!flushing ==> pos == |old(queue)|)
                && (flushing ==> IsSlot(old(queue), index, w.id, pos))
    {
      pos := 0;
      if w.id !in has {
        has := has + {w.id};
        if !flushing {
          pos := |queue|;
          queue := queue + [w];
        } else {
          var slot := FindSlot(queue, index, w.id);
          queue := queue[..slot] + [w] + queue[slot..];
          pos := slot;
        }
        if !waiting {
          waiting := true;
          trace := trace + [NextTick];
        }
      }
    }

    /** `queueActivatedComponent(vm)` */
    method QueueActivatedComponent(vm: Component)
      modifies vm`inactive, this`activatedChildren
      ensures !vm.inactive && activatedChildren == old(activatedChildren) + [vm]
    {
      vm.inactive := false;
      activatedChildren := activatedChildren + [vm];
    }

    /** `callActivatedHooks(queue)`: forward, each marked inactive, then `activateChildComponent`. */
    method CallActivatedHooks(q: seq<Component>)
      modifies set c | c in q
      modifies this`trace
      ensures trace == old(trace) + ActivatedCalls(q)
      ensures forall c :: c in q ==> c.inactive
    {
      var i := 0;
      while i < |q|
        invariant 0 <= i <= |q|
        invariant trace == old(trace) + ActivatedCalls(q[..i])
        invariant forall k :: 0 <= k < i ==> q[k].inactive
      {
        q[i].inactive := true;
        trace := trace + [ActivateChild(q[i].cid)];
        assert ActivatedCalls(q[..i + 1]) == ActivatedCalls(q[..i]) + [ActivateChild(q[i].cid)];
        i := i + 1;
      }
      assert q[..i] == q;
    }

    /** `callUpdatedHooks(queue)`: backward, `updated` on the vms whose mounted render watcher it is. */
    method CallUpdatedHooks(q: seq<Watcher>, vms: map<nat, Component>)
      modifies this`trace
      ensures trace == old(trace) + UpdatedCalls(q, vms)
    {
      var i := |q|;
      while i > 0
        invariant 0 <= i <= |q|
        invariant trace == old(trace) + UpdatedCalls(q[i..], vms)
      {
        i := i - 1;
        var w := q[i];
        assert q[i..][1..] == q[i + 1..];
        if w.vm in vms && vms[w.vm].renderWatcher == Some(w.id) && vms[w.vm].isMounted {
          trace := trace + [UpdatedHook(w.vm)];
        }
      }
    }

    /**
     * One thing a running watcher does to the scheduler during a flush: a
     * watcher it queues goes into its slot after the cursor; a component
     * it activates is queued for the `activated` hook.
     */
    method React(r: Reaction)
      requires Valid() && flushing && waiting && index < |queue| && SortedFrom(queue, index + 1)
      modifies this`queue, this`has, this`waiting, this`trace, this`activatedChildren
      modifies if r.Activate? then {r.vm} else {}
      ensures Valid() && waiting && trace == old(trace)
      ensures index < |queue| && SortedFrom(queue, index + 1) && queue[..index + 1] == old(queue)[..index + 1]
      ensures multiset(old(queue)) <= multiset(queue) && |queue| <= |old(queue)| + 1
      ensures old(has) <= has && (r.Queue? ==> r.watcher.id in has)
      ensures r.Queue? ==> activatedChildren == old(activatedChildren)
      ensures r.Activate? ==> activatedChildren == old(activatedChildren) + [r.vm] && queue == old(queue) && has == old(has)
    {
      match r {
        case Queue(w) =>
          ReactQueue(w);
        case Activate(vm) =>
          QueueActivatedComponent(vm);
      }
    }

    /** `queueWatcher(w)` while the flush is at the cursor: the unprocessed part stays sorted. */
    method ReactQueue(w: Watcher)
      requires Valid() && flushing && waiting && index < |queue| && SortedFrom(queue, index + 1)
      modifies this`queue, this`has, this`waiting, this`trace
      ensures Valid() && waiting && trace == old(trace)
      ensures index < |queue| && SortedFrom(queue, index + 1) && queue[..index + 1] == old(queue)[..index + 1]
      ensures multiset(old(queue)) <= multiset(queue) && |queue| <= |old(queue)| + 1
      ensures old(has) <= has && w.id in has
    {
      ghost var q0 := queue;
      ghost var pos := QueueWatcher(w);
      if w.id !in old(has) {
        SlotKeepsSorted(q0, index, w, pos);
        assert q0 == q0[..pos] + q0[pos..];
      }
    }

    /** Everything one `watcher.run()` queues and activates, in order. */
    method ReactAll(rs: seq<Reaction>)
      requires Valid() && flushing && waiting && index < |queue| && SortedFrom(queue, index + 1)
      modifies this`queue, this`has, this`waiting, this`trace, this`activatedChildren
      modifies set r | r in rs && r.Activate? :: r.vm
      ensures Valid() && waiting && trace == old(trace)
      ensures index < |queue| && SortedFrom(queue, index + 1) && queue[..index + 1] == old(queue)[..index + 1]
      ensures multiset(old(queue)) <= multiset(queue) && |queue| <= |old(queue)| + |rs|
      ensures old(has) <= has && forall r :: r in rs && r.Queue? ==> r.watcher.id in has
      ensures old(activatedChildren) <= activatedChildren
      ensures forall c :: c in activatedChildren ==> c in old(activatedChildren) || Activate(c) in rs
      ensures (forall r :: r in rs ==> r.Activate?) ==> queue == old(queue) && has == old(has)
    {
      var i := 0;
      while i < |rs|
        invariant 0 <= i <= |rs|
        invariant Valid() && waiting && trace == old(trace)
        invariant index < |queue| && SortedFrom(queue, index + 1) && queue[..index + 1] == old(queue)[..index + 1]
        invariant multiset(old(queue)) <= multiset(queue) && |queue| <= |old(queue)| + i
        invariant old(has) <= has && forall r :: r in rs[..i] && r.Queue? ==> r.watcher.id in has
        invariant old(activatedChildren) <= activatedChildren
        invariant forall c :: c in activatedChildren ==> c in old(activatedChildren) || Activate(c) in rs[..i]
        invariant (forall r :: r in rs[..i] ==> r.Activate?) ==> queue == old(queue) && has == old(has)
      {
        ghost var q0, ac0 := queue, activatedChildren;
        React(rs[i]);
        if rs[i].Activate? {
          PrefixTrans(old(activatedChildren), ac0, activatedChildren);
        }
        TakeNext(rs, i);
        i := i + 1;
      }
      TakeAll(rs, i);
    }

    /**
     * The first part of a turn of the flush loop, on the entry at the
     * cursor: `before()` if it has one, clear its `has` mark, then `run()`,
     * which does `rs`.
     */
    method RunEntry(rs: seq<Reaction>)
      requires Valid() && flushing && waiting && index < |queue| && SortedFrom(queue, index)
      modifies this`queue, this`has, this`waiting, this`trace, this`activatedChildren
      modifies set r | r in rs && r.Activate? :: r.vm
      ensures Valid() && flushing && waiting
      ensures index < |queue| && queue[..index + 1] == old(queue)[..index + 1] && queue[index] == old(queue)[index]
      ensures multiset(old(queue)) <= multiset(queue) && |queue| <= |old(queue)| + |rs|
      ensures SortedFrom(queue, index + 1)
      ensures trace == old(trace) + StepCalls(old(queue)[index])
      ensures old(activatedChildren) <= activatedChildren
      ensures forall c :: c in activatedChildren ==> c in old(activatedChildren) || Activate(c) in rs
      ensures (forall r :: r in rs ==> r.Activate?) ==> queue == old(queue) && queue[index].id !in has
    {
      var w := queue[index];
      if w.hasBefore {
        trace := trace + [Before(w)];
      }
      has := has - {w.id};
      trace := trace + [Run(w)];
      ReactAll(rs);
    }

    /**
     * The circular-update check after a run (development builds only): a
     * watcher that is marked in `has` again has re-queued itself; its count
     * goes up by one, and the loop stops once it exceeds `MAX_UPDATE_COUNT`.
     */
    method CheckCircular(w: Watcher) returns (stop: bool)
      requires forall id :: id in circular ==> circular[id] <= MaxUpdateCount
      modifies this`circular
      ensures !(dev && w.id in has) ==> !stop && circular == old(circular)
      ensures dev && w.id in has ==>
                circular == old(circular)[w.id := (if w.id in old(circular) then old(circular)[w.id] else 0) + 1]
      ensures stop <==> dev && w.id in has && circular[w.id] > MaxUpdateCount
      ensures stop ==> circular[w.id] == MaxUpdateCount + 1
      ensures !stop ==> forall id :: id in circular ==> circular[id] <= MaxUpdateCount
    {
      stop := false;
      if dev && w.id in has {
        var count := (if w.id in circular then circular[w.id] else 0) + 1;
        circular := circular[w.id := count];
        stop := count > MaxUpdateCount;
      }
    }

    /** `watcher.before()` and `watcher.run()` on the entry at the cursor, extending the trace of the run so far. */
    method RunEntryAt(rs: seq<Reaction>, ghost base: seq<Call>)
      requires Valid() && flushing && waiting && index < |queue| && SortedFrom(queue, index)
      requires trace == base + RunCalls(queue[..index])
      modifies this`queue, this`has, this`waiting, this`trace, this`activatedChildren
      modifies set r | r in rs && r.Activate? :: r.vm
      ensures Valid() && flushing && waiting
      ensures index < |queue| && queue[..index + 1] == old(queue)[..index + 1] && queue[index] == old(queue)[index]
      ensures multiset(old(queue)) <= multiset(queue) && |queue| <= |old(queue)| + |rs|
      ensures SortedFrom(queue, index + 1)
      ensures trace == base + RunCalls(queue[..index + 1])
      ensures old(activatedChildren) <= activatedChildren
      ensures forall c :: c in activatedChildren ==> c in old(activatedChildren) || Activate(c) in rs
      ensures (forall r :: r in rs ==> r.Activate?) ==> queue == old(queue) && queue[index].id !in has
    {
      ghost var q0, t0 := queue, trace;
      RunEntry(rs);
      RunCallsStep(base, q0, queue, index, t0, trace);
    }

    /**
     * One turn of the flush loop on the entry at the cursor: run it, then
     * the circular check, which either stops the loop with a warning or
     * moves the cursor on.
     */
    method FlushStep(rs: seq<Reaction>, ghost base: seq<Call>) returns (stop: bool)
      requires Valid() && flushing && waiting && index < |queue| && SortedFrom(queue, index)
      requires forall id :: id in circular ==> circular[id] <= MaxUpdateCount
      requires trace == base + RunCalls(queue[..index])
      modifies this`queue, this`has, this`waiting, this`trace, this`activatedChildren
      modifies this`circular, this`index
      modifies set r | r in rs && r.Activate? :: r.vm
      ensures Valid() && flushing && waiting
      ensures old(index) < |queue| && queue[..old(index) + 1] == old(queue)[..old(index) + 1]
      ensures multiset(old(queue)) <= multiset(queue) && |queue| <= |old(queue)| + |rs|
      ensures index == old(index) + (if stop then 0 else 1) && index <= |queue|
      ensures !stop ==> trace == base + RunCalls(queue[..index])
      ensures stop ==> index < |queue| && trace == base + RunCalls(queue[..index + 1]) + [Warn(InfiniteUpdateLoop(queue[index].user))]
      ensures stop ==> dev && index < |queue| && queue[index].id in circular && circular[queue[index].id] == MaxUpdateCount + 1
      ensures !stop ==> SortedFrom(queue, index) && forall id :: id in circular ==> circular[id] <= MaxUpdateCount
      ensures old(activatedChildren) <= activatedChildren
      ensures forall c :: c in activatedChildren ==> c in old(activatedChildren) || Activate(c) in rs
      ensures (forall r :: r in rs ==> r.Activate?) ==> !stop && queue == old(queue)
    {
      var w := queue[index];
      RunEntryAt(rs, base);
      stop := CheckCircular(w);
      if stop {
        trace := trace + [Warn(InfiniteUpdateLoop(w.user))];
      } else {
        index := index + 1;
      }
    }

    /**
     * The loop of `flushSchedulerQueue()` over a queue sorted by id: the
     * entries are run in queue order, the queue growing as they run.
     */
    method RunQueue(reactions: seq<seq<Reaction>>) returns (ghost ran: nat, ghost broke: bool)
      requires Valid() && flushing && waiting && index == 0 && SortedFrom(queue, 0) && circular == map[]
      modifies this`queue, this`has, this`waiting, this`trace, this`activatedChildren
      modifies this`circular, this`index
      modifies ReactionComponents(reactions)
      ensures Valid() && flushing && waiting
      ensures multiset(old(queue)) <= multiset(queue)
      ensures ran <= |queue| && (!broke ==> ran == |queue|)
      ensures broke ==> dev && 0 < ran && queue[ran - 1].id in circular && circular[queue[ran - 1].id] == MaxUpdateCount + 1
      ensures !broke ==> forall id :: id in circular ==> circular[id] <= MaxUpdateCount
      ensures QueuesNothing(reactions) ==> !broke && queue == old(queue)
      ensures trace == old(trace) + RunCalls(queue[..ran])
                       + (if broke then [Warn(InfiniteUpdateLoop(queue[ran - 1].user))] else [])
      ensures old(activatedChildren) <= activatedChildren
      ensures forall c :: c in activatedChildren ==> c in old(activatedChildren) || c in ReactionComponents(reactions)
    {
      broke := false;
      assert queue[..0] == [];
      while index < |queue|
        invariant Valid() && flushing && waiting
        invariant index <= |queue| && SortedFrom(queue, index)
        invariant multiset(old(queue)) <= multiset(queue)
        invariant trace == old(trace) + RunCalls(queue[..index])
        invariant old(activatedChildren) <= activatedChildren
        invariant forall c :: c in activatedChildren ==> c in old(activatedChildren) || c in ReactionComponents(reactions)
        invariant forall id :: id in circular ==> circular[id] <= MaxUpdateCount
        invariant QueuesNothing(reactions) ==> queue == old(queue)
        decreases (if index < |reactions| then |reactions| - index else 0), |queue| - index
      {
        ghost var ac0 := activatedChildren;
        var rs := if index < |reactions| then reactions[index] else [];
        assert forall r :: r in rs && r.Activate? ==> r.vm in ReactionComponents(reactions);
        var stop := FlushStep(rs, old(trace));
        if stop {
          ran, broke := index + 1, true;
          return;
        }
        PrefixTrans(old(activatedChildren), ac0, activatedChildren);
      }
      ran := index;
      assert trace == old(trace) + RunCalls(queue[..ran]) + [];
    }

    /** `devtools.emit('flush')`, when the devtools hook is on. */
    method EmitFlush()
      modifies this`trace
      ensures trace == old(trace) + (if devtools then [DevtoolsFlush] else [])
    {
      if devtools {
        trace := trace + [DevtoolsFlush];
      }
    }

    /**
     * `flushSchedulerQueue()`: sort the queue by id, run the entries in
     * turn (see `RunQueue`), then reset the state and call the `activated`
     * hooks forward and the `updated` hooks backward on the copies taken
     * before the reset.
     *
     * `updated` is the queue as it was at the end of the loop, `ran` the
     * number of its entries that were run, `broke` whether the circular
     * guard stopped the loop, `activated` the components activated, and
     * `counts` the circular-update counts before the reset.
     */
    method FlushSchedulerQueue(reactions: seq<seq<Reaction>>, vms: map<nat, Component>)
      returns (ghost updated: seq<Watcher>, ghost ran: nat, ghost broke: bool,
               ghost activated: seq<Component>, ghost counts: map<nat, nat>)
      requires Valid() && waiting && !flushing
      modifies this`queue, this`has, this`waiting, this`trace, this`activatedChildren
      modifies this`circular, this`flushing, this`index
      modifies set c | c in activatedChildren
      modifies ReactionComponents(reactions)
      ensures Valid() && queue == [] && activatedChildren == [] && has == {} && circular == map[]
      ensures index == 0 && !waiting && !flushing
      ensures multiset(old(queue)) <= multiset(updated) && old(activatedChildren) <= activated
      ensures ran <= |updated| && (!broke ==> ran == |updated|)
      ensures broke ==> dev && 0 < ran && updated[ran - 1].id in counts && counts[updated[ran - 1].id] == MaxUpdateCount + 1
      ensures !broke ==> forall id :: id in counts ==> counts[id] <= MaxUpdateCount
      ensures QueuesNothing(reactions) ==> !broke && updated == SortById(old(queue))
      ensures trace == old(trace) + RunCalls(updated[..ran])
                       + (if broke then [Warn(InfiniteUpdateLoop(updated[ran - 1].user))] else [])
                       + ActivatedCalls(activated) + UpdatedCalls(updated, vms)
                       + (if devtools then [DevtoolsFlush] else [])
      ensures forall c :: c in activated ==> c.inactive
    {
      StartFlush();
      ran, broke := RunQueue(reactions);
      counts := circular;
      updated, activated := FinishFlush(vms);
    }

    /** The start of `flushSchedulerQueue()`: `flushing = true`, the sort by id, and `index = 0`. */
    method StartFlush()
      requires Valid() && waiting && !flushing
      modifies this`flushing, this`queue, this`index
      ensures Valid() && waiting && flushing && index == 0 && circular == map[]
      ensures queue == SortById(old(queue)) && SortedFrom(queue, 0) && multiset(queue) == multiset(old(queue))
    {
      flushing := true;
      queue := SortById(queue);
      SortByIdSorted(old(queue));
      SortByIdElements(old(queue));
      index := 0;
    }

    /**
     * The end of `flushSchedulerQueue()`: copies of both lists, the reset,
     * the `activated` hooks on the first copy and the `updated` hooks on the
     * second, then `devtools.emit('flush')`.
     */
    method FinishFlush(vms: map<nat, Component>) returns (ghost updated: seq<Watcher>, ghost activated: seq<Component>)
      requires Valid()
      modifies this`queue, this`has, this`waiting, this`trace, this`activatedChildren
      modifies this`circular, this`flushing, this`index
      modifies set c | c in activatedChildren
      ensures updated == old(queue) && activated == old(activatedChildren)
      ensures Valid() && queue == [] && activatedChildren == [] && has == {}
      ensures circular == (if dev then map[] else old(circular))
      ensures index == 0 && !waiting && !flushing
      ensures trace == old(trace) + ActivatedCalls(activated) + UpdatedCalls(updated, vms)
                       + (if devtools then [DevtoolsFlush] else [])
      ensures forall c :: c in activated ==> c.inactive
    {
      var activatedQueue := activatedChildren;
      var updatedQueue := queue;
      updated, activated := updatedQueue, activatedQueue;
      ResetSchedulerState();
      CallActivatedHooks(activatedQueue);
      CallUpdatedHooks(updatedQueue, vms);
      EmitFlush();
    }
  }

  /** The components the running watchers activate. */
  ghost function ReactionComponents(reactions: seq<seq<Reaction>>): set<Component>
  {
    set rs, r | rs in reactions && r in rs && r.Activate? :: r.vm
  }

  /** No running watcher queues a watcher. */
  predicate QueuesNothing(reactions: seq<seq<Reaction>>)
  {
    forall rs, r :: rs in reactions && r in rs ==> r.Activate?
  }
}

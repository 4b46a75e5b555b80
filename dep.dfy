/**
 * Dependency channels (`Dep`) and the active-target registry of dep.js:
 * the module-level `uid` counter, `Dep.target` and `targetStack`.
 */
module Deps {
  import opened Foreign

  /** The calls `notify` makes: `update()` on each subscriber, in list order. */
  function UpdateCalls(subs: seq<Watcher>): (r: seq<Call>)
    ensures |r| == |subs|
    ensures forall i :: 0 <= i < |subs| ==> r[i] == Update(subs[i])
  {
    seq(|subs|, i requires 0 <= i < |subs| => Update(subs[i]))
  }

  /** The index of the first occurrence of `w` in `s`, or -1 (`indexOf`). */
  function FirstIndex(s: seq<Watcher>, w: Watcher): (r: int)
    ensures -1 <= r < |s|
    ensures r == -1 <==> w !in s
    ensures r >= 0 ==> s[r] == w && w !in s[..r]
  {
    if s == [] then -1
    else if s[0] == w then 0
    else
      var k := FirstIndex(s[1..], w);
      assert s[1..][..if k < 0 then 0 else k] == s[1..1 + (if k < 0 then 0 else k)];
      if k < 0 then -1 else k + 1
  }

  /** `remove(subs, w)`: drop the first occurrence of `w`, if any. */
  function RemoveFirst(s: seq<Watcher>, w: Watcher): seq<Watcher>
  {
    var i := FirstIndex(s, w);
    if i < 0 then s else s[..i] + s[i + 1..]
  }

  /** Removal takes away exactly one occurrence and keeps every other one. */
  lemma RemoveFirstCounts(s: seq<Watcher>, w: Watcher)
    ensures multiset(RemoveFirst(s, w)) == multiset(s) - multiset{w}
    ensures w in s ==> |RemoveFirst(s, w)| == |s| - 1
    ensures w !in s ==> RemoveFirst(s, w) == s
  {
    var i := FirstIndex(s, w);
    if i >= 0 {
      assert s == s[..i] + [s[i]] + s[i + 1..];
      assert multiset(s) == multiset(s[..i]) + multiset{w} + multiset(s[i + 1..]);
    }
  }

  /** The survivors keep their order: removal deletes one position of `s`. */
  lemma RemoveFirstKeepsOrder(s: seq<Watcher>, w: Watcher)
    requires w in s
    ensures exists i :: 0 <= i < |s| && s[i] == w && w !in s[..i] &&
                        RemoveFirst(s, w) == s[..i] + s[i + 1..]
  {
    var i := FirstIndex(s, w);
    assert 0 <= i < |s| && s[i] == w && w !in s[..i];
  }

  /** Removing a watcher just appended (and not subscribed before) undoes `addSub`. */
  lemma {:induction false} RemoveUndoesAdd(s: seq<Watcher>, w: Watcher)
    requires w !in s
    ensures RemoveFirst(s + [w], w) == s
  {
    if s == [] {
    } else {
      RemoveUndoesAdd(s[1..], w);
      assert (s + [w])[1..] == s[1..] + [w];
      assert s[0] != w;
    }
  }

  /** A change to a subscriber list, made by a watcher while `notify` runs. */
  datatype SubsEdit = NoEdit | AddsSub(w: Watcher) | RemovesSub(w: Watcher)

  function ApplyEdit(s: seq<Watcher>, e: SubsEdit): seq<Watcher>
  {
    match e
    case NoEdit => s
    case AddsSub(w) => s + [w]
    case RemovesSub(w) => RemoveFirst(s, w)
  }

  /** The list after the edits, applied in order. */
  function ApplyEdits(s: seq<Watcher>, es: seq<SubsEdit>): seq<Watcher>
  {
    if es == [] then s else ApplyEdit(ApplyEdits(s, es[..|es| - 1]), es[|es| - 1])
  }

  /** One more edit applied. */
  lemma ApplyEditsNext(s: seq<Watcher>, es: seq<SubsEdit>, i: nat)
    requires i < |es|
    ensures ApplyEdits(s, es[..i + 1]) == ApplyEdit(ApplyEdits(s, es[..i]), es[i])
  {
    assert es[..i + 1][..i] == es[..i];
  }

  /** One more `update()` call. */
  lemma UpdateCallsNext(s: seq<Watcher>, i: nat)
    requires i < |s|
    ensures UpdateCalls(s[..i + 1]) == UpdateCalls(s[..i]) + [Update(s[i])]
  {
  }

  function Min(a: nat, b: nat): nat
  {
    if a <= b then a else b
  }

  /**
   * Iterating the live list instead of a snapshot would differ: when the
   * first subscriber's `update()` adds a watcher, the live list reaches
   * that watcher too, and the snapshot does not.
   */
  lemma SnapshotDiffersFromLiveList(w: Watcher, x: Watcher)
    ensures ApplyEdits([w], [AddsSub(x)]) == [w, x]
    ensures UpdateCalls([w]) != UpdateCalls(ApplyEdits([w], [AddsSub(x)]))
  {
    assert [AddsSub(x)][..0] == [];
    assert |UpdateCalls([w, x])| == 2;
  }

  /** Every id below `uid` was handed out, in order. */
  ghost predicate IdsIssued(uid: nat, issued: seq<nat>)
  {
    |issued| == uid && forall j :: 0 <= j < |issued| ==> issued[j] == j
  }

  /** The value of `Dep.target` together with `targetStack`. */
  datatype TargetState = TargetState(target: Option<Watcher>, stack: seq<Watcher>)

  /** `pushTarget(t)`: the old target is saved only when it is set. */
  function Pushed(st: TargetState, t: Option<Watcher>): TargetState
  {
    TargetState(t, if st.target.Some? then st.stack + [st.target.value] else st.stack)
  }

  /** `popTarget()`: the target becomes the popped entry, or none when the stack is empty. */
  function Popped(st: TargetState): TargetState
  {
    if st.stack == [] then TargetState(None, [])
    else TargetState(Some(st.stack[|st.stack| - 1]), st.stack[..|st.stack| - 1])
  }

  /** With a target set, a push followed by a pop restores target and stack. */
  lemma PushPopRestores(st: TargetState, t: Option<Watcher>)
    requires st.target.Some?
    ensures Popped(Pushed(st, t)) == st
  {
    var s := st.stack + [st.target.value];
    assert s[..|s| - 1] == st.stack;
  }

  /**
   * Without a target nothing is saved, so a push followed by a pop does
   * not return to "no target" but pops the entry below.
   */
  lemma PushPopWithoutTarget(st: TargetState, t: Option<Watcher>)
    requires st.target.None?
    ensures Pushed(st, t).stack == st.stack
    ensures Popped(Pushed(st, t)) == Popped(st)
    ensures st.stack == [] ==> Popped(Pushed(st, t)) == st
  {
  }

  /**
   * The module-level state of dep.js: the `uid` counter, `Dep.target`,
   * `targetStack`, and the trace of calls made into watchers.
   */
  class Globals {
    var uid: nat
    var target: Option<Watcher>
    var targetStack: seq<Watcher>
    var trace: seq<Call>
    /** Every id handed out so far, in order. */
    ghost var issued: seq<nat>


    function Targets(): TargetState
      reads this
    {
      TargetState(target, targetStack)
    }

    constructor ()
      ensures IdsIssued(uid, issued)
      ensures uid == 0 && target == None && targetStack == [] && trace == [] && issued == []
    {
      uid := 0;
      target := None;
      targetStack := [];
      trace := [];
      issued := [];
    }

    method PushTarget(t: Option<Watcher>)
      modifies this`target, this`targetStack
      ensures Targets() == Pushed(old(Targets()), t)
    {
      if target.Some? {
        targetStack := targetStack + [target.value];
      }
      target := t;
    }

    method PopTarget()
      modifies this`target, this`targetStack
      ensures Targets() == Popped(old(Targets()))
    {
      if targetStack == [] {
        target := None;
      } else {
        target := Some(targetStack[|targetStack| - 1]);
        targetStack := targetStack[..|targetStack| - 1];
      }
    }
  }

  /** A dependency channel: a unique id and an ordered subscriber list. */
  class Dep {
    const id: nat
    var subs: seq<Watcher>

    /** `this.id = uid++`: the new id exceeds every id issued before. */
    constructor (g: Globals)
      requires IdsIssued(g.uid, g.issued)
      modifies g`uid, g`issued
      ensures IdsIssued(g.uid, g.issued)
      ensures id == old(g.uid) && g.uid == old(g.uid) + 1 && subs == []
      ensures g.issued == old(g.issued) + [id]
      ensures forall j :: 0 <= j < |old(g.issued)| ==> old(g.issued)[j] < id
    {
      id := g.uid;
      subs := [];
      g.uid := g.uid + 1;
      g.issued := g.issued + [g.uid - 1];
    }

    method AddSub(w: Watcher)
      modifies this`subs
      ensures subs == old(subs) + [w]
    {
      subs := subs + [w];
    }

    method RemoveSub(w: Watcher)
      modifies this`subs
      ensures subs == RemoveFirst(old(subs), w)
    {
      var i := IndexOf(subs, w);
      if i >= 0 {
        subs := subs[..i] + subs[i + 1..];
      }
    }

    /** Register this dep with the current target, if there is one. */
    method Depend(g: Globals)
      modifies g`trace
      ensures g.trace == old(g.trace) + (if g.target.Some? then [AddDep(g.target.value, id)] else [])
    {
      if g.target.Some? {
        g.trace := g.trace + [AddDep(g.target.value, id)];
      }
    }

    /**
     * Call `update()` on a snapshot of the subscribers, in order.  The
     * `update()` of the `i`-th subscriber may add or remove a subscriber
     * of this dep (`reactions[i]`); the snapshot is not affected, so the
     * calls go to exactly the subscribers the dep had when `notify` began.
     */
    method Notify(g: Globals, reactions: seq<SubsEdit>)
      modifies g`trace
      modifies if reactions == [] then {} else {this}
      ensures g.trace == old(g.trace) + UpdateCalls(old(subs))
      ensures subs == ApplyEdits(old(subs), reactions[..Min(|reactions|, |old(subs)|)])
    {
      var snapshot := subs;
      var i := 0;
      while i < |snapshot|
        invariant 0 <= i <= |snapshot|
        invariant g.trace == old(g.trace) + UpdateCalls(snapshot[..i])
        invariant subs == ApplyEdits(snapshot, reactions[..Min(|reactions|, i)])
      {
        UpdateCallsNext(snapshot, i);
        g.trace := g.trace + [Update(snapshot[i])];
        if i < |reactions| {
          React(reactions[i]);
          ApplyEditsNext(snapshot, reactions, i);
        }
        i := i + 1;
      }
      assert snapshot[..i] == snapshot;
    }

    /**
     * Not a function of dep.js: the edit to `subs` that one subscriber's
     * `update()` made during `notify`, an `addSub` or `removeSub` on this
     * dep or nothing. `update()` itself is watcher code outside this model;
     * `notify` takes these edits as a parameter.
     */
    method React(e: SubsEdit)
      modifies this`subs
      ensures subs == ApplyEdit(old(subs), e)
    {
      match e {
        case NoEdit =>
        case AddsSub(w) => AddSub(w);
        case RemovesSub(w) => RemoveSub(w);
      }
    }
  }

  /** `arr.indexOf(w)`: a linear scan for the first occurrence. */
  method IndexOf(s: seq<Watcher>, w: Watcher) returns (i: int)
    ensures i == FirstIndex(s, w)
  {
    i := 0;
    while i < |s| && s[i] != w
      invariant 0 <= i <= |s|
      invariant w !in s[..i]
    {
      assert s[..i + 1] == s[..i] + [s[i]];
      i := i + 1;
    }
    if i == |s| {
      assert s[..i] == s;
      i := -1;
    } else {
      FirstIndexUnique(s, w, i);
    }
  }

  /** The first occurrence is determined by "equal here, absent before". */
  lemma FirstIndexUnique(s: seq<Watcher>, w: Watcher, i: nat)
    requires i < |s| && s[i] == w && w !in s[..i]
    ensures FirstIndex(s, w) == i
  {
  }
}

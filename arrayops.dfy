/**
 * The seven mutating methods of `Array.prototype` that array.js intercepts,
 * with their standard meaning (section 23.1.3 of ECMA-262, Properties of
 * the Array Prototype Object), and the choice of the arguments that are
 * inserted into the array.
 */
module ArrayOps {
  import opened Foreign
  import opened JsValues

  datatype ArrayMethod = Push | Pop | Shift | Unshift | Splice | Sort | Reverse

  /** `methodsToPatch` */
  const MethodsToPatch: seq<string> := ["push", "pop", "shift", "unshift", "splice", "sort", "reverse"]

  function Name(m: ArrayMethod): string
  {
    match m
    case Push => "push"
    case Pop => "pop"
    case Shift => "shift"
    case Unshift => "unshift"
    case Splice => "splice"
    case Sort => "sort"
    case Reverse => "reverse"
  }

  /** The intercepted method of a given name, if it is one of the patched ones. */
  function Intercepted(name: string): (r: Option<ArrayMethod>)
    ensures r.Some? <==> name in MethodsToPatch
    ensures r.Some? ==> Name(r.value) == name
  {
    if name == "push" then Some(Push)
    else if name == "pop" then Some(Pop)
    else if name == "shift" then Some(Shift)
    else if name == "unshift" then Some(Unshift)
    else if name == "splice" then Some(Splice)
    else if name == "sort" then Some(Sort)
    else if name == "reverse" then Some(Reverse)
    else None
  }

  /** Exactly seven distinct names are patched, one per method. */
  lemma SevenMethodsPatched()
    ensures |MethodsToPatch| == 7
    ensures forall i, j :: 0 <= i < j < |MethodsToPatch| ==> MethodsToPatch[i] != MethodsToPatch[j]
    ensures forall m: ArrayMethod :: Name(m) in MethodsToPatch && Intercepted(Name(m)) == Some(m)
  {
  }

  /**
   * The arguments that the mutator treats as inserted: all of them for
   * push and unshift, `args.slice(2)` for splice, and none otherwise.
   */
  function Inserted(m: ArrayMethod, args: seq<Value>): (r: Option<seq<Value>>)
    ensures r.Some? <==> m in {Push, Unshift, Splice}
    ensures r.Some? ==> multiset(r.value) <= multiset(args)
  {
    match m
    case Push => Some(args)
    case Unshift => Some(args)
    case Splice =>
      var rest := if |args| <= 2 then [] else args[2..];
      assert |args| > 2 ==> args == args[..2] + rest;
      Some(rest)
    case _ => None
  }

  /** What the original method returns. */
  datatype ArrayResult =
    | Length(n: nat)              // push, unshift: the new length
    | Element(v: Value)           // pop, shift: the removed element, or undefined
    | Removed(items: seq<Value>)  // splice: a new array of the deleted elements
    | ThisArray                   // sort, reverse: the array itself

  /** The new contents of the array and the result of the call. */
  datatype Outcome = Outcome(items: seq<Value>, result: ArrayResult)

  function Reversed(s: seq<Value>): (r: seq<Value>)
    ensures |r| == |s|
  {
    if s == [] then [] else Reversed(s[1..]) + [s[0]]
  }

  /** Splice's `actualStart` (step 4-7 of Array.prototype.splice). */
  function SpliceStart(args: seq<Value>, len: nat): (r: nat)
    ensures r <= len
  {
    var rel := if |args| == 0 then 0 else ToIntegerOrInfinity(args[0]);
    if rel < 0 then (if len + rel < 0 then 0 else len + rel)
    else if rel < len then rel else len
  }

  /** Splice's `actualDeleteCount` (steps 8-11). */
  function SpliceDeleteCount(args: seq<Value>, len: nat, start: nat): (r: nat)
    requires start <= len
    ensures r <= len - start
  {
    if |args| == 0 then 0
    else if |args| == 1 then len - start
    else
      var dc := ToIntegerOrInfinity(args[1]);
      if dc < 0 then 0 else if dc < len - start then dc else len - start
  }

  /** The standard behaviour of every patched method except sort. */
  function Apply(m: ArrayMethod, items: seq<Value>, args: seq<Value>): Outcome
    requires m != Sort
  {
    match m
    case Push => Outcome(items + args, Length(|items| + |args|))
    case Pop =>
      if items == [] then Outcome(items, Element(Undefined))
      else Outcome(items[..|items| - 1], Element(items[|items| - 1]))
    case Shift =>
      if items == [] then Outcome(items, Element(Undefined))
      else Outcome(items[1..], Element(items[0]))
    case Unshift => Outcome(args + items, Length(|args| + |items|))
    case Splice =>
      var start := SpliceStart(args, |items|);
      var dc := SpliceDeleteCount(args, |items|, start);
      var ins := if |args| <= 2 then [] else args[2..];
      Outcome(items[..start] + ins + items[start + dc..], Removed(items[start..start + dc]))
    case Reverse => Outcome(Reversed(items), ThisArray)
  }

  /** A result of sort: some reordering of the same elements (the comparator is foreign). */
  ghost predicate IsSortOutcome(items: seq<Value>, o: Outcome)
  {
    multiset(o.items) == multiset(items) && o.result == ThisArray
  }

  lemma {:induction false} ReversedElements(s: seq<Value>)
    ensures multiset(Reversed(s)) == multiset(s)
    ensures forall k :: 0 <= k < |s| ==> Reversed(s)[k] == s[|s| - 1 - k]
  {
    if s != [] {
      ReversedElements(s[1..]);
      assert s == [s[0]] + s[1..];
    }
  }

  /** Reversing twice gives back the original order. */
  lemma ReverseTwice(s: seq<Value>)
    ensures Reversed(Reversed(s)) == s
  {
    ReversedElements(s);
    ReversedElements(Reversed(s));
  }

  /**
   * The elements the original call adds to the array are exactly the
   * inserted arguments: whatever is in the new contents was in the old
   * contents or among `Inserted(m, args)`.
   */
  lemma NewElementsAreInserted(m: ArrayMethod, items: seq<Value>, args: seq<Value>)
    requires m != Sort
    ensures var ins := if Inserted(m, args).Some? then Inserted(m, args).value else [];
            multiset(Apply(m, items, args).items) <= multiset(items) + multiset(ins)
  {
    match m
    case Push =>
    case Unshift =>
    case Pop => PopKeepsElements(items, args);
    case Shift => ShiftKeepsElements(items, args);
    case Splice => SpliceAddsArgs(items, args);
    case Reverse => ReversedElements(items);
  }

  lemma PopKeepsElements(items: seq<Value>, args: seq<Value>)
    ensures multiset(Apply(Pop, items, args).items) <= multiset(items)
  {
    if items != [] { PrefixInMultiset(items, |items| - 1); }
  }

  lemma ShiftKeepsElements(items: seq<Value>, args: seq<Value>)
    ensures multiset(Apply(Shift, items, args).items) <= multiset(items)
  {
    if items != [] { assert items == [items[0]] + items[1..]; }
  }

  lemma SpliceAddsArgs(items: seq<Value>, args: seq<Value>)
    ensures multiset(Apply(Splice, items, args).items) <= multiset(items) + multiset(Inserted(Splice, args).value)
  {
    var start := SpliceStart(args, |items|);
    var ins := if |args| <= 2 then [] else args[2..];
    var dc := SpliceDeleteCount(args, |items|, start);
    assert Apply(Splice, items, args).items == items[..start] + ins + items[start + dc..];
    SpliceElements(items, ins, start, dc);
  }

  lemma PrefixInMultiset(s: seq<Value>, k: nat)
    requires k <= |s|
    ensures multiset(s[..k]) <= multiset(s)
  {
    assert s == s[..k] + s[k..];
  }

  lemma SpliceElements(items: seq<Value>, ins: seq<Value>, start: nat, dc: nat)
    requires start + dc <= |items|
    ensures multiset(items[..start] + ins + items[start + dc..]) <= multiset(items) + multiset(ins)
  {
    assert items == items[..start] + items[start..start + dc] + items[start + dc..];
  }

  /** pop undoes a push of one element and returns it. */
  lemma PopUndoesPush(items: seq<Value>, x: Value)
    ensures var pushed := Apply(Push, items, [x]);
            Apply(Pop, pushed.items, []) == Outcome(items, Element(x))
  {
    var s := items + [x];
    assert s[..|s| - 1] == items;
  }

  /** shift undoes an unshift of one element and returns it. */
  lemma ShiftUndoesUnshift(items: seq<Value>, x: Value)
    ensures var unshifted := Apply(Unshift, items, [x]);
            Apply(Shift, unshifted.items, []) == Outcome(items, Element(x))
  {
    var s := [x] + items;
    assert s[1..] == items;
  }

  /** push and unshift return the new length; pop and shift shrink by one unless empty. */
  lemma LengthEffects(m: ArrayMethod, items: seq<Value>, args: seq<Value>)
    requires m != Sort
    ensures var o := Apply(m, items, args);
            (m in {Push, Unshift} ==> o.result == Length(|o.items|) && |o.items| == |items| + |args|) &&
            (m in {Pop, Shift} ==> |o.items| == if items == [] then 0 else |items| - 1) &&
            (m == Reverse ==> |o.items| == |items|) &&
            (m == Splice ==> |o.items| + |o.result.items| == |items| + |Inserted(m, args).value|)
  {
  }
}

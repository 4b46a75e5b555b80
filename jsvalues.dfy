/**
 * JavaScript values as the reactivity core sees them.  Objects live in a
 * heap (see module Observer) and a value refers to one by its id.
 * Numbers are integers plus a distinguished not-a-number value; there is
 * no floating point.
 */
module JsValues {

  type ObjId = nat

  datatype Value =
    | Undefined
    | Null
    | Bool(b: bool)
    | Num(n: int)
    | NaN
    | Str(s: string)
    | Ref(obj: ObjId)
  {
    /** `v !== v`: only NaN is unequal to itself. */
    predicate SelfUnequal() { NaN? }
  }

  /** `a === b`: structural identity, except that NaN equals nothing. */
  predicate StrictEquals(a: Value, b: Value)
  {
    a == b && !a.SelfUnequal()
  }

  /**
   * A property key.  `IndexKey(n)` is a key that `isValidArrayIndex`
   * accepts (a non-negative integral finite number, or a string naming
   * one); every other key is a `NameKey`.
   */
  datatype Key = IndexKey(n: nat) | NameKey(name: string)
  {
    predicate IsValidArrayIndex() { IndexKey? }
  }

  /**
   * `ToIntegerOrInfinity` of section 7.1.5 of ECMA-262, on the values of
   * this model: NaN, undefined and null give 0, booleans 0 or 1.  Strings
   * and objects are not parsed or converted (`valueOf` is foreign code);
   * they give 0, as a string that is not numeric does.
   */
  function ToIntegerOrInfinity(v: Value): int
  {
    match v
    case Num(n) => n
    case Bool(b) => if b then 1 else 0
    case _ => 0
  }

  /**
   * How a call ends: normally with a value, or with the `TypeError` that
   * strict-mode code throws (a property of `undefined`, an assignment to
   * a read-only property, a delete of a non-configurable one).
   */
  datatype Completion<T> = Normal(value: T) | Throw
}

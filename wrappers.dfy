/** Small shared datatypes used by the game models. */
module Wrappers {

  /** A value that may be absent (JavaScript's `undefined` / `null` results). */
  datatype Option<T> = None | Some(value: T)

  /** The elements of `s` that satisfy `keep`, in order (JavaScript's `Array.prototype.filter`). */
  function Filter<T(!new)>(s: seq<T>, keep: T -> bool): (r: seq<T>)
    ensures |r| <= |s|
    ensures forall x :: x in r <==> x in s && keep(x)
  {
    if |s| == 0 then []
    else (if keep(s[0]) then [s[0]] else []) + Filter(s[1..], keep)
  }
}

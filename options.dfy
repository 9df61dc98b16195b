/** The optional value used wherever the Python code returns `None` or a value. */
module Options {
  datatype Option<+T> = None | Some(value: T) {
    /** The value, or `default` when there is none (Python's `x or default` on an optional). */
    function GetOr(default: T): T {
      match this
      case Some(v) => v
      case None => default
    }
  }

  /** The position of the first present element of `xs` at or after `j`, if any. */
  function FirstSome<T>(xs: seq<Option<T>>, j: nat): (r: Option<nat>)
    requires j <= |xs|
    ensures r.Some? ==> j <= r.value < |xs| && xs[r.value].Some?
    ensures r.Some? ==> forall i :: j <= i < r.value ==> xs[i].None?
    ensures r.None? ==> forall i :: j <= i < |xs| ==> xs[i].None?
    decreases |xs| - j
  {
    if j == |xs| then None
    else if xs[j].Some? then Some(j)
    else FirstSome(xs, j + 1)
  }
}

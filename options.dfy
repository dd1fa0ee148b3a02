/** Nullable values: a column value that is either NULL (`None`) or present. */
module Options {

  datatype Option<+T> = None | Some(value: T) {

    /** The value, or `default` when NULL (the `na.fill` of a single column). */
    function GetOr(default: T): T {
      match this
      case Some(v) => v
      case None => default
    }

    /** Null-propagating field access: `a.b` is NULL whenever `a` is. */
    function Bind<U>(f: T -> Option<U>): Option<U> {
      match this
      case Some(v) => f(v)
      case None => None
    }
  }

  /** SQL `coalesce(a, b)`: the first of the two that is not NULL. */
  function Coalesce<T>(a: Option<T>, b: Option<T>): (r: Option<T>)
    ensures r.Some? <==> a.Some? || b.Some?
    ensures a.Some? ==> r == a
    ensures a.None? ==> r == b
  {
    if a.Some? then a else b
  }
}

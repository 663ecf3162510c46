/** Python's `None`-or-value, and its truthiness for strings. */
module Optional {

  datatype Option<+T> = None | Some(value: T)

  /** `bool(x)` for an `x` that is `None` or a `str`: false for `None` and `""`. */
  predicate Truthy(o: Option<string>) {
    o.Some? && o.value != ""
  }

  /** Python's `a or b` on two optional strings: `a` when it is truthy, else `b`. */
  function Or(a: Option<string>, b: Option<string>): (r: Option<string>)
    ensures Truthy(a) ==> r == a
    ensures !Truthy(a) ==> r == b
    ensures Truthy(r) <==> Truthy(a) || Truthy(b)
  {
    if Truthy(a) then a else b
  }
}

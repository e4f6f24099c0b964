/** The optional values the receiver state is made of. */
module Options {
  datatype Option<+T> = None | Some(value: T)
  {
    predicate IsFailure() { None? }

    function PropagateFailure<U>(): Option<U>
      requires None?
    {
      None
    }

    function Extract(): T
      requires Some?
    {
      value
    }
  }

  /** The larger of an optional and a plain number. */
  function MaxWith(o: Option<nat>, x: nat): (m: nat)
    ensures m >= x && (o.Some? ==> m >= o.value) && (m == x || o == Some(m))
  {
    if o.Some? && o.value > x then o.value else x
  }
}

/** The optional value that Python expresses with `None`. */
module Options {

  datatype Option<+T> = None | Some(value: T) {

    /** Python's `a or b` on values that are either an object (always truthy) or None. */
    function OrElse(other: Option<T>): (r: Option<T>)
      ensures Some? ==> r == this
      ensures None? ==> r == other
    {
      if Some? then this else other
    }
  }
}

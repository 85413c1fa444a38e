/** The optional result the recognisers return: `None` when they do not match. */
module Wrappers {

  /** `None` is a recogniser that did not match; `Some` carries what it produced. */
  datatype Option<+T> = None | Some(value: T) {

    /** Ordered choice between two alternatives: this one if it matched, otherwise `other`. */
    function Or(other: Option<T>): (r: Option<T>)
      ensures Some? ==> r == this
      ensures None? ==> r == other
    {
      if Some? then this else other
    }
  }
}

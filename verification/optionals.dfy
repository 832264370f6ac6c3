/**
 * Swift's `Optional`, as the roster code uses it: the result of a lookup or a
 * parse that may find nothing, and the `??` operator that supplies a fallback.
 */
module Optionals {

  datatype Optional<T> = None | Some(wrapped: T) {

    /** `self ?? fallback`. */
    function OrElse(fallback: T): (r: T)
      ensures Some? ==> r == wrapped
      ensures None? ==> r == fallback
    {
      if Some? then wrapped else fallback
    }
  }
}

/** Optional values, standing for JavaScript's `undefined`, and the truthiness test the client applies to ids. */
module Wrappers {

  datatype Option<+T> = None | Some(value: T)

  /** A field of a partial update (`{ ...current, ...patch }`): a supplied value wins, an
      absent one keeps the current value. */
  function Override<T>(current: T, patch: Option<T>): T
  {
    if patch.Some? then patch.value else current
  }

  /** `!!id` for an id that may be `undefined`: both `undefined` and `0` are falsy. */
  predicate Truthy(id: Option<int>)
  {
    id.Some? && id.value != 0
  }
}

/** Optional values: a `T | null` state variable or an `x?: T` field. */
module Wrappers {

  datatype Option<+T> = None | Some(value: T)

  /** `if (selectedId)` on a `number | null` selection: a missing selection and
      the id 0 are both falsy. */
  predicate IsSelected(selected: Option<int>) {
    selected.Some? && selected.value != 0
  }
}

/** Small shared vocabulary: an optional value, and the truthiness test that
    JavaScript applies to a `string | null` (or a missing request field). */
module Wrappers {

  datatype Option<T> = None | Some(value: T)

  /** `if (x)` on a string-or-null: false for null/undefined and for "". */
  predicate Truthy(x: Option<string>) {
    x.Some? && x.value != ""
  }
}

/** The absent-or-present values of the TypeScript sources (undefined and null). */
module Options {

  datatype Option<+T> = None | Some(value: T) {
    /** The nullish-coalescing operator between two optional values. */
    function Or(other: Option<T>): Option<T> {
      if Some? then this else other
    }
  }
}

/** A value that may be missing. */
module Options {
  datatype Option<T> = None | Some(value: T)

  /** An absent text and an empty one both count as false. */
  predicate Truthy(o: Option<string>) {
    o.Some? && o.value != ""
  }
}

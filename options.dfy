/** The optional values the source writes as `T | undefined`: a `find` that may
    miss, a label that may not be rendered. */
module Options {

  datatype Option<T> = None | Some(value: T)
}

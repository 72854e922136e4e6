/** Optional values: the outcome of a step that may fail without further detail. */
module Options {

  datatype Option<+T> = None | Some(value: T)
}

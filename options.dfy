/** Optional values: a matcher that finds nothing, a timestamp that does not parse. */
module Options {

  datatype Option<+T> = None | Some(value: T)

}

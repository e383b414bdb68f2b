/** Optional values: a DOM lookup or a storage read that may find nothing. */
module Wrappers {

  datatype Option<+T> = None | Some(value: T)

  /** The set holding the value, if any. */
  function OptionSet<T>(o: Option<T>): set<T>
  {
    match o
    case None => {}
    case Some(v) => {v}
  }
}

/** Optional values: a Java reference that may be null, or a computation that may throw. */
module Wrappers {

  datatype Option<+T> = None | Some(value: T)

  /**
   * The argument of a Java `equals(Object o)`: null, an instance of the receiver's own
   * class, or an object of some other class.
   */
  datatype ObjectRef<+T> = Null | Of(value: T) | OfOtherClass
}

/** Optional values, the model's form of a pointer that may be null, and error numbers. */
module Wrappers {
  datatype Option<+T> = None | Some(value: T)

  /** The error numbers the modelled calls return. */
  datatype Errno = EINVAL | EAGAIN | EFAULT
}

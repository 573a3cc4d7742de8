/** Small value wrappers shared by every module of the model. */
module Wrappers {

  /** Python's `None`-or-value. */
  datatype Option<T> = None | Some(value: T)

  /** A Python argument that the code checks with `isinstance(x, str)`: either a
      string or some other object. */
  datatype PyArg = PyStr(text: string) | PyNonStr

  /** A Python call that either returns a value or raises an exception
      (identified by its class name and its message). */
  datatype Outcome<T> = Returns(value: T) | Raises(kind: string, message: string)
}

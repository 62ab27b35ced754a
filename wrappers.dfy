/** Option and Result types shared by the whole model. Java's unchecked exceptions become `Err` values. */
module Wrappers {

  datatype Option<+T> = None | Some(value: T)

  /** The exception kinds the modelled code throws. */
  datatype Error =
    | NoSuchElement
    | UnsupportedOperation
    | IllegalState
    | IndexOutOfBounds(index: int)
    | ArrayIndexOutOfBounds(index: int)
    | IllegalArgument

  datatype Result<+T> = Ok(value: T) | Err(error: Error)

  /** The outcome of a void Java method: it returned, or it threw. */
  datatype Outcome = Done | Fail(error: Error)

  /** The argument of a Java equals(Object): null, an instance of the receiver's class, or anything else. */
  datatype Argument<C> = NullRef | SameClass(instance: C) | OtherClass

  /** A Java reference that may be null. */
  datatype Nullable<+T> = Null | Ref(target: T)
}

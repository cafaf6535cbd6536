/** Shared value types: the optional and failing results the services return,
    and the timestamps the persistence layer stamps on saved records. */
module Common {

  /** A Java reference that may be null, or a lookup that may find nothing. */
  datatype Option<+T> = None | Some(value: T)

  /** The outcome of a service call: a value, or the message of the exception it throws. */
  datatype Result<+T> = Success(value: T) | Failure(error: string)

  /** An instant as stored by the persistence layer; its calendar rendering is not modelled. */
  type Timestamp = int
}

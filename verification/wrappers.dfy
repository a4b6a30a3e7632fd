/** Wrappers for nullable references and thrown exceptions, and the
    opaque value types shared by the services: Java's nullable references
    become `Option`, thrown exceptions become the `Failure` side of a
    `Result`. */
module Wrappers {

  /** A nullable Java reference: `None` stands for `null`. */
  datatype Option<+T> = None | Some(value: T) {

    /** The wrapped value, or `default` when the reference is null. */
    function GetOr(default: T): (r: T)
      ensures Some? ==> r == value
      ensures None? ==> r == default
    {
      match this
      case Some(v) => v
      case None => default
    }
  }

  /** The outcome of an operation that may throw. */
  datatype Result<+R, +E> = Success(value: R) | Failure(error: E)

  /** A `java.util.UUID`, carried by its canonical textual form (what
      `toString` prints, and what `MessageFormat` substitutes). */
  datatype Uuid = Uuid(text: string)

  /** A `java.time.ZonedDateTime`, reduced to an opaque instant. */
  datatype Timestamp = Timestamp(epochNanos: int)
}

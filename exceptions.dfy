/** The exceptions the modelled Kotlin code can throw, and a result that is a value or a thrown exception. */
module Exceptions {

  datatype Exception =
    | IndexOutOfBoundsException(index: int, size: int)
    | IllegalArgumentException(message: string)

  datatype Result<+T> = Value(value: T) | Thrown(exception: Exception)
}

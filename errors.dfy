/** Result values and the exceptions the icon codec can raise. */
module Errors {

  /** The exceptions that BluwolfIcons' Save and Load raise or let escape from the stream layer. */
  /** An ArgumentException raised without a parameter name has `paramName == ""`. */
  datatype Exception =
    | ArgumentNullException(paramName: string)
    | ArgumentException(message: string, paramName: string)
    | ArgumentOutOfRangeException(paramName: string)
    | EndOfStreamException
    | NullReferenceException
    | IconParseException(message: string)

  const InvalidFileHeader: string := "Invalid file header."
  const MustSeek: string := "Stream must support seeking."
  const NotWritable: string := "Stream was not writable."
  const NotReadable: string := "Stream was not readable."

  datatype Result<+T> = Success(value: T) | Failure(error: Exception)

  datatype Outcome = Pass | Fail(error: Exception)
}

/** Option, Result and the error values of the package.

    Go's `error` interface is open; here it is a closed datatype holding every
    error value the modelled code creates, plus `Other` for an error that a
    pluggable argument parser or unit outside this package may return.
 */
module Wrappers {

  datatype Option<+T> = None | Some(value: T)

  datatype Error =
      /** `ErrEmptyInterpolateArgument`: a `${}` whose closing brace is at `position`. */
    | EmptyInterpolateArgument(position: nat)
      /** `ErrInterpolateArgumentParseFailed`: the argument parser rejected the body
          closed at `position`; `parserError` is that parser's error, unchanged. */
    | InterpolateArgumentParseFailed(position: nat, parserError: Error)
      /** `ErrTextMapInterpolateKeyNotFound`: the key is missing from the text map. */
    | TextMapInterpolateKeyNotFound(key: string)
      /** `ErrCannotConvertDataIntoTextMap`: the data given to a key is not a text map. */
    | CannotConvertDataIntoTextMap
      /** Any error produced by a parser or unit that this package does not define. */
    | Other(description: string)

  /** A Go `(value, error)` pair in which exactly one side is meaningful. */
  datatype Result<+T> = Ok(value: T) | Err(error: Error)
}

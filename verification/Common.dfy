// Small types shared by every module.
module Common {

  datatype Option<+T> = None | Some(value: T)

  // A second in nanoseconds.
  const SECOND: int := 1_000_000_000

  // A byte of a wire buffer or of a Go string.
  newtype byte = b: int | 0 <= b < 256

  type bytes = seq<byte>

  // A Go error value: None is nil, Some(text) an error whose Error() is text.
  type GoError = Option<string>

  // Whether a plugin's handler takes a request; an accept error includes panics.
  datatype Acceptance = Accepts | Declines | AcceptError(text: string)
}

/** Small value types shared by both loaders. */
module Wrappers {

  /** A value that may be absent: a missing radius, a failed conversion, a row that is skipped. */
  datatype Option<+T> = None | Some(value: T)

  /** A text file as the loaders see it: either the stream could not be opened,
      or it yields its lines (as `std::getline` returns them, without the newline). */
  datatype TextFile = CannotOpen | Opened(lines: seq<string>)
}

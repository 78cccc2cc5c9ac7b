/** The result shapes shared by every component. */
module Wrappers {

  datatype Option<+T> = None | Some(value: T)

  /** The errors of the engine that the model can raise. */
  datatype Error =
    | UnexpectedEof
    | KeySizeNone
    | KeyMaxSizeExceeded
    | ValueSizeNone
    | ValMaxSizeExceeded
    | EntriesCannotBeEmptyDuringFlush
    | BlockIsFull
    | EmptyMerge

  datatype Result<+T> = Ok(value: T) | Err(error: Error)
}

/** Optional values and results, standing in for Python's `None` and for the
    exceptions that abort a run. */
module Wrappers {

  datatype Option<+T> = None | Some(value: T)

  /** Why a run stopped early. */
  datatype Failure =
    /** The unpack of a set's slots into two names met a set without exactly two slots. */
    | UnpackSlots(setId: int)

  datatype Result<+T> = Ok(value: T) | Err(error: Failure)
}

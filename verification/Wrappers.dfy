/** What the models of every source module share. */
module Wrappers {
  datatype Option<+T> = None | Some(value: T)

  datatype Result<+T, +E> = Ok(value: T) | Err(error: E)

  /** The ID of an idempotent operation, and what the operation is. */
  type OpId = string
  type Kind = string
}

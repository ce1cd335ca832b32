/** Shared result types: a lookup that may find nothing, and a call that may fail. */
module Outcomes {
  datatype Option<+T> = None | Some(value: T)

  datatype Result<+T, +E> = Ok(value: T) | Err(error: E)

  /** The errors the exchange's handlers hand back to their callers. */
  datatype Error =
    | InvalidWei
    | InvalidAddress
    | InsufficientBalance
    | InvalidState
    | AlreadyHandled
    | NotFound
    | MerchantNotFound
    | MerchantDisabled
    | MerchantNotConfigured
    | DuplicateRow
    | ChainUnavailable
}

/** Optional values and fallible results shared by the relay model.

    A JavaScript `undefined` field is an `Option` that is `None`; a rejected
    promise or a thrown exception is a `Result` that is `Err`. */
module Outcomes {

  datatype Option<+T> = None | Some(value: T)

  /** Why a step of the relay failed. */
  datatype Error =
      /** The HTTP client rejected (network failure, non-2xx status, bad
          credentials); the reason is passed through unchanged. */
    | RequestRejected(reason: string)
      /** `response.data.data` was null or undefined, so reading its
          `children` threw a TypeError. */
    | ListingMissing
      /** The listing had no `children` array, so iterating it threw a
          TypeError. */
    | ChildrenMissing

  datatype Result<+T> = Ok(value: T) | Err(error: Error)
}

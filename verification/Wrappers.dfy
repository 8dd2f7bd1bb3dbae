/** Optional values and results. */
module Wrappers {
  datatype Option<T> = None | Some(value: T)

  datatype Result<T> = Ok(value: T) | Err

  /** The status codes of calc_session.h that are modelled. */
  datatype Status = AppOk | AppErrIo | AppErrCrypto
}

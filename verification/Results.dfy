/** Option and Result types shared by all components (src/common/result.hpp). */
module Results {

  datatype Option<+T> = None | Some(value: T)

  /** The error codes the modelled components return; messages are dropped. */
  datatype Error = NotFound | Validation | Conflict | Database | Internal | Configuration

  datatype Result<+T> = Ok(value: T) | Err(error: Error)
}

/** Optional values and fallible results shared by the solvers.
    Every error the solvers raise carries only a message, so a failed
    computation is a single value `Err`. */
module Wrappers {

  datatype Option<+T> = None | Some(value: T)

  datatype Result<+T> = Ok(value: T) | Err
}

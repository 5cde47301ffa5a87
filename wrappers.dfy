/** Option and Outcome values for the error paths of the sharding layer. */
module Wrappers {

  datatype Option<+T> = None | Some(value: T)

  /** The exceptions the sharding code throws to its caller. */
  datatype Error =
    | EmptyTableList        // attach / detach / add / remove called without tables
    | NullValue             // State::set called with a null value
    | AlreadyInitialized    // setup() found its table already present
    | ClusterNotSet         // State::setup reached the cluster before setCluster was called

  /** The result of an operation that either completes with a value or throws. */
  datatype Result<+T> = Ok(value: T) | Fail(error: Error)

  /** The result of an operation that returns nothing useful or throws. */
  datatype Outcome = Pass | Throw(error: Error)
}

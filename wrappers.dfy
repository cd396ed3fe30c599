/** Optional values and the exceptions the modelled .NET code can raise. */
module Wrappers {

  datatype Option<+T> = None | Some(value: T)

  /** The exceptions of the modelled code that the model keeps as results. */
  datatype Fault =
    | ArgumentOutOfRange   // List<T> indexer with an index outside the list
    | Overflow             // a NaN or infinite double converted to System.Decimal

  datatype Result<+T> = Ok(value: T) | Err(fault: Fault)
}

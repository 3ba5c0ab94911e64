/** Shared wrappers: optional values, results with an error, and the switch
    between the source's behaviour and the behaviour the code evidently intends. */
module Common {

  datatype Option<T> = None | Some(value: T)

  datatype Result<T, E> = Ok(value: T) | Err(error: E)

  /** `AsWritten` is what the source does; `Intended` is the corrected
      behaviour for each discrepancy the model records. */
  datatype Variant = AsWritten | Intended
}

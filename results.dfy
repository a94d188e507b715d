/** Error kinds of the ledger and the Option/Result wrappers that carry them.
    The Go code reports most of these by panicking; the model returns them. */
module Results {

  datatype Option<+T> = None | Some(value: T)

  datatype Error =
    | NotFound            // a store key (block hash or "lh") is missing
    | TxNotFound          // "Transaction does not exist"
    | InvalidTransaction  // "Invalid Transaction" raised while mining
    | StoreExists         // "existing blockchain found"
    | StoreMissing        // "No existing blockchain found"

  datatype Result<+T> = Ok(value: T) | Err(error: Error)
}

/** The failures of the ledger: where the source panics (log.Panic, Handle(err), a runtime index
    error) or exits, the model returns one of these instead. */
module Outcomes {

  datatype Option<+T> = None | Some(value: T)

  datatype Error =
    | AlreadyExists            // InitBlockChain when a database is already present
    | NotFound                 // a store key that is absent, or no database at all
    | SerializationError       // gob decoding of stored bytes failed
    | MissingPriorTransaction  // Sign/Verify: a referenced transaction was not supplied
    | TransactionNotFound      // FindTransaction found no match
    | IndexOutOfRange          // a slice index past the end (a Go runtime panic)
    | InvalidAddress           // Base58 decoding failed
    | InsufficientFunds        // NewTransaction: not enough spendable outputs
    | NilDereference           // a field read through nil

  datatype Result<+T> = Ok(value: T) | Err(error: Error) {
    predicate IsFailure() {
      Err?
    }

    function PropagateFailure<U>(): Result<U>
      requires Err?
    {
      Err(error)
    }

    function Extract(): T
      requires Ok?
    {
      value
    }
  }
}

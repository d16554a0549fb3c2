// Result types shared by every component.  A Go panic that the client does not recover from is an
// outcome of its own (`Panic`), kept apart from the errors that the client returns.
module Wrappers {
  datatype Option<+T> = None | Some(value: T)

  datatype Error =
    | InvalidStream               // ensureAvailable failed
    | UnexpectedType(code: int)   // checkNotNull met another type code
    | UnsupportedType(code: int)  // no reader for the type code
    | InvalidCoefficient          // decimal without coefficient bytes
    | CorruptedObject             // binary object shorter than its header
    | SchemaNotFound              // compact footer without a registered schema
    | MetadataConflict            // metadata cannot be merged
    | FieldTypeMismatch           // a field is written with another type than before
    | SendFailed                  // the request did not reach the server
    | FilterFailed                // a client side filter returned an error
    | Panic                       // slice index or length out of range

  datatype Result<+T> = Ok(value: T) | Err(error: Error)
}

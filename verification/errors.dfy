/** The failure taxonomy of the two codecs and the failure-compatible
    wrappers every decoder returns.

    The first five errors are the sentinel values of the container package;
    `MarshalError` stands for whatever error the header serialiser returns,
    which the writer passes on; the last three stand for the run-time panics
    of the Go code, which the model turns into ordinary results. */
module Errors {

  datatype Error =
    | WrongFileType         // container magic is not "DPET"
    | UnmarshalError        // header content cannot be deserialised
    | UnknownMarshalMethod  // method tag other than the structured-content one
    | UnknownFileType       // writer: no payload encoder for this file type
    | UnknownDrive          // writer: device is neither "930" nor "e180"
    | MarshalError          // the header serialiser itself failed
    | IncompleteData        // a read that must succeed found too few bytes (panic)
    | IndexOutOfRange       // a slice index past the end (panic)
    | NilDereference        // a field read through a nil pointer (panic)

  datatype Option<+T> = None | Some(value: T) {
    predicate IsFailure() {
      None?
    }

    function PropagateFailure<U>(): Option<U>
      requires None?
    {
      None
    }

    function Extract(): T
      requires Some?
    {
      value
    }
  }

  datatype Result<+T> = Ok(value: T) | Err(error: Error) {
    predicate IsFailure() {
      Err?
    }

    function PropagateFailure<U>(): Result<U>
      requires Err?
    {
      Err(error)
    }

    function Extract(): T
      requires Ok?
    {
      value
    }
  }
}

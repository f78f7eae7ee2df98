/** Failure-compatible result types shared by every module of the model. */
module Wrappers {

  datatype Option<+T> = None | Some(value: T)

  /** A computation that produced a value or failed with an error. */
  datatype Result<+T, +E> = Ok(value: T) | Err(error: E) {
    predicate IsFailure() { Err? }

    function PropagateFailure<U>(): Result<U, E>
      requires Err?
    {
      Err(error)
    }

    function Extract(): T
      requires Ok?
    {
      value
    }
  }

  /** A computation run for its effect: it passed or failed with an error. */
  datatype Outcome<+E> = Pass | Fail(error: E)
}

/**
 * The failure classes of the engine and the .NET exception each one
 * surfaces as to the caller of ApplyModifier.
 */
module Errors {

  datatype ModError =
    | UnknownDef(guid: string)               // the repository has no def with this guid
    | DuplicateDef(guid: string)             // the repository already holds a def with this guid
    | UnknownClass(name: string)             // no static namespace registered under this name
    | MalformedPath(path: string)            // the field path does not follow the grammar
    | TargetResolution                       // unknown member, non-indexable container, or not a leaf
    | IndexOutOfRange(index: nat, length: nat)
    | Coercion                               // the value cannot be converted to the leaf's type

  datatype Exception = ArgumentException | ModException | IndexOutOfRangeException

  /** The exception type a caller observes for each error class. */
  function Thrown(e: ModError): (x: Exception)
    ensures x == ArgumentException <==> e.UnknownDef? || e.DuplicateDef?
    ensures x == IndexOutOfRangeException <==> e.IndexOutOfRange?
  {
    match e
    case UnknownDef(_) => ArgumentException
    case DuplicateDef(_) => ArgumentException
    case IndexOutOfRange(_, _) => IndexOutOfRangeException
    case _ => ModException
  }
}

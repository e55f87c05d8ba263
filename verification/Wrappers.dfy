/** Optional values and results of store operations. */
module Wrappers {

  datatype Option<+T> = None | Some(value: T) {

    predicate IsFailure() {
      None?
    }

    function PropagateFailure<U>(): Option<U>
      requires None?
    {
      None
    }

    function Extract(): T
      requires Some?
    {
      value
    }

    function GetOr(default: T): T {
      if Some? then value else default
    }
  }

  datatype StoreError =
    | NotFound(id: string)
    | Conflict(id: string)
    | Internal(message: string)

  datatype Result<+T> = Ok(value: T) | Err(error: StoreError) {

    predicate IsFailure() {
      Err?
    }

    function PropagateFailure<U>(): Result<U>
      requires Err?
    {
      Err(error)
    }

    function Extract(): T
      requires Ok?
    {
      value
    }

    /** The error if there is one, and otherwise the given value. */
    function Then<U>(next: U): Result<U> {
      match this
      case Ok(_) => Ok(next)
      case Err(e) => Err(e)
    }
  }
}

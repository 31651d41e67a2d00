/** Python values, exceptions and call outcomes shared by the modules of this model. */
module Py {

  datatype Option<+T> = None | Some(value: T)

  /** The exception classes the modelled code raises (or lets escape). */
  datatype PyError =
    | IndexError
    | TypeError
    | ValueError
    | KeyError
    | AttributeError
    | ZeroDivisionError

  /** A computation that either returns a value or raises one of the exceptions above. */
  datatype Result<+T> = Ok(value: T) | Err(error: PyError) {
    predicate IsFailure() { Err? }
    function PropagateFailure<U>(): Result<U>
      requires Err?
    {
      Err(error)
    }
    function Extract(): T
      requires Ok?
    {
      value
    }
  }

  /** `id(obj)`: the identity of a Python object. */
  type ObjId = int

  /** The Python values the model needs to tell apart. Anything else is `PyOther`. */
  datatype PyValue =
    | PyNone
    | PyBool(b: bool)
    | PyInt(i: int)
    | PyStr(s: string)
    | PyRef(id: ObjId)
    | PyBuiltin(name: string)
    | PyOther(tag: int)

  /** How a call to an opaque user callable ends: it returns a value or raises. */
  datatype CallOutcome<+R> = Returned(value: R) | Raised(error: string)
}

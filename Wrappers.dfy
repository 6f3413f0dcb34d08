/** Option and Result types, and the one error type of the converter.
    Each error constructor names the exception the Python code raises. */
module Wrappers {

  datatype Option<+T> = None | Some(value: T) {
    predicate IsFailure() { None? }
    function PropagateFailure<U>(): Option<U> requires None? { None }
    function Extract(): T requires Some? { value }
  }

  /** The failures the converter can run into. */
  datatype Error =
    | ElementNotFound(path: string)          // TiXI: ELEMENT_NOT_FOUND / path not unique
    | AttributeNotFound(path: string, attr: string)
    | IndexOutOfRange(path: string, index: int)
    | NoNumber(path: string)                 // TiXI: text is not a number
    | InvalidName(name: string)              // TiXI: not a valid element name
    | CannotRemoveRoot(path: string)
    | EmptyPath                              // Python IndexError: child_path[-1] on ''
    | NoSlash(path: string)                  // Python ValueError: rindex('/') found nothing
    | NoCsOrTedAncestor(path: string)        // Python IndexError: [...][-1] on no match
    | DuplicateUid(uid: string)              // Python RuntimeError in register
    | MissingNode                            // Python KeyError in Graph.get_node

  datatype Result<+T> = Ok(value: T) | Err(error: Error) {
    predicate IsFailure() { Err? }
    function PropagateFailure<U>(): Result<U> requires Err? { Err(error) }
    function Extract(): T requires Ok? { value }
    /** The value, forgetting which error it was. */
    function ToOption(): Option<T> { if Ok? then Some(value) else None }
  }
}

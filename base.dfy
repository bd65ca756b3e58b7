/** Failure-compatible wrappers and the Python exceptions the core can raise. */
module Base {

  datatype Option<+T> = None | Some(value: T)

  /** The exception classes that abort a run of the analyzer. */
  datatype Error =
    | IndexError        // a list index past the end (`split_line[1]`, `datalist[2]`)
    | ValueError        // `float()` of a text that is not a number
    | KeyError          // a dictionary lookup of a missing key
    | UnboundLocalError // `selected` read before any aspect matched
    | ZeroDivisionError // a division by zero that is not caught
    | AttributeError    // a method called on an object that lacks it
    | TemplateError     // `Template.substitute` raised (missing or malformed placeholder)
    | TypeError         // `'%f' % None`: a missing standard deviation formatted as a number

  datatype Result<+T> = Ok(value: T) | Err(error: Error) {
    predicate IsFailure() { Err? }

    function PropagateFailure<U>(): Result<U>
      requires Err?
    {
      Err(error)
    }

    function Extract(): T
      requires Ok?
    {
      value
    }
  }
}

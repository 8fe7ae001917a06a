/** Outcomes of a conversion step. The converter has no error handling of its
    own: each failure below stands for the exception that aborts the run. */
module Results {

  /** The exception a failing step raises. */
  datatype Failure =
    | MissingField               // IndexError: a column, sub-field, DP4 part or allele character is absent
    | MissingInfoKey(key: string) // KeyError on the parsed INFO dictionary
    | UnmappedKey(key: string)    // KeyError on a somatic-status table
    | ParseError(text: string)    // ValueError from int() or float()
    | NotFinite(text: string)     // OverflowError or ValueError from int() of an infinite or NaN score

  datatype Option<+T> = None | Some(value: T)

  /** Either a value or the failure that stopped the computation;
      usable with `:-`. */
  datatype Result<+T> = Ok(value: T) | Err(error: Failure) {
    predicate IsFailure() { Err? }

    function PropagateFailure<U>(): Result<U>
      requires Err?
    {
      Err(error)
    }

    function Extract(): T
      requires Ok?
    {
      value
    }
  }
}

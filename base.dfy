/**
 * Values shared by the whole model: the scalars a YAML settings file can
 * hold, the Python exceptions the retrieval script raises, and the
 * failure-compatible Result and Option types used to model them.
 */
module Base {

  /** An IEEE double as Python sees it: a finite value, an infinity or NaN. */
  datatype Double = Finite(x: real) | PosInf | NegInf | NaN

  /** A scalar as `yaml.safe_load` produces it. */
  datatype Scalar =
    | Int(i: int)
    | Flt(d: Double)
    | Bool(b: bool)
    | Str(s: string)
    | Null

  /** The Python exception class that ends the run (`SystemExit` for `sys.exit()`). */
  datatype Exception =
    | TypeError
    | ValueError
    | OverflowError
    | NotImplementedError
    | SystemExit

  /** Which check raised the exception. */
  datatype Cause =
    | SurveyNotAvailable
    | RadiusNotNumber
    | RadiusOutOfRange
    | ObjectNotInteger
    | FieldNotAvailable
    | NotExactlyOneRow
    | ClusterNotAvailable
    | UnknownType

  datatype Error = Error(raised: Exception, cause: Cause)

  datatype Option<+T> = None | Some(value: T)

  datatype Result<+T> = Ok(value: T) | Err(error: Error) {

    predicate IsFailure() {
      Err?
    }

    function PropagateFailure<U>(): Result<U>
      requires Err?
    {
      Err(error)
    }

    function Extract(): T
      requires Ok?
    {
      value
    }
  }
}

/** The error outcomes of the modelled code: Python exceptions become values. */
module Results {

  /** The exceptions the modelled operations raise. */
  datatype Error =
    | ValueError(msg: string)
    | IndexError(msg: string)
    | TypeError(msg: string)
    | AttributeError(name: string)
    | ZeroDivisionError

  /** Either the value a call returns or the exception it raises. */
  datatype Result<+T> = Success(value: T) | Failure(error: Error)

  /** Python's `None` for a typed optional argument. */
  datatype Option<+T> = None | Some(value: T)

  /** `str(n)` for an integer: its decimal digits, after a minus sign when negative. */
  function IntToString(n: int): string
  {
    if n < 0 then "-" + NatToString(-n) else NatToString(n)
  }

  function NatToString(n: nat): string
    decreases n
  {
    if n < 10 then [Digit(n)] else NatToString(n / 10) + [Digit(n % 10)]
  }

  function Digit(d: nat): char
    requires d < 10
  {
    "0123456789"[d]
  }
}

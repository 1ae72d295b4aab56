/** Small wrappers shared by every module: optional values, results, and the
    Python idioms `x or 0` / `x or ''` that the handlers apply to nullable columns. */
module Common {

  datatype Option<+T> = None | Some(value: T)

  datatype Result<+T, +E> = Success(value: T) | Failure(error: E)

  /** Python's `x or 0` on a nullable integer column (None and 0 both give 0). */
  function OrZero(x: Option<int>): int {
    match x
    case None => 0
    case Some(v) => v
  }

  /** Python's `x or 0` on a nullable float column. */
  function OrZeroReal(x: Option<real>): real {
    match x
    case None => 0.0
    case Some(v) => v
  }

  /** Python's `x or ''` on a nullable text column. */
  function OrEmpty(s: Option<string>): string {
    match s
    case None => ""
    case Some(v) => v
  }

  function Max(a: int, b: int): int {
    if a < b then b else a
  }
}

/** Failure-carrying datatypes shared by the price-series model and the asset model.
    Each constructor of Error stands for one exception the Python code can raise. */
module Results {

  /** The exceptions raised by the modelled code. */
  datatype Error =
    | IndexOutOfRange   // IndexError: a time index outside the series
    | ZeroDivision      // ZeroDivisionError: a float divided by 0.0
    | MathDomain        // ValueError("math domain error"): log of a non-positive ratio
    | NotEnoughData     // ValueError("Not enough data points")
    | EmptyTicker       // ValueError: the ticker is empty or only whitespace
    | EmptyPrices       // ValueError: the price series has no values

  /** A computation that either yields a value or raises one of the errors above. */
  datatype Result<+T> = Ok(value: T) | Err(error: Error)

  /** An optional value, for arguments that default to Python's None. */
  datatype Option<+T> = None | Some(value: T)
}

/** Values shared by every part of the trading pipeline: missing cells and
    the exceptions the scripts raise. */
module Common {

  /** A table cell that may be missing (pandas' NaN / NaT). */
  datatype Option<+T> = None | Some(value: T)

  /** The reasons a pipeline step aborts with an exception. */
  datatype Error =
    | MissingColumn(name: string)   // a required column is not in the table
    | NotANumber(text: string)      // float() or int() refused a cell
    | MissingPrediction             // int() of a missing prediction
    | TextCompared(name: string)    // `>` between a text cell and a number

  /** The outcome of a step that may raise. */
  datatype Result<+T> = Ok(value: T) | Err(error: Error)

  function Min(a: int, b: int): int { if a <= b then a else b }
}

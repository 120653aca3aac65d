/** Shared result types: a missing column or map entry, and an operation that can be refused. */
module Wrappers {

  datatype Option<+T> = None | Some(value: T)

  /** The errors the algorithm package returns, one constructor per message. */
  datatype AlgorithmError =
    | TooFewSamples
    | BadWindow
    | TooFewForNoise
    | BadThreshold
    | BadMergeWindow
    | NegativeIndex
    | BadInterval
    | BadRefractiveIndex
    | BadTolerance
    | BadLossThreshold

  datatype Result<+T> = Ok(value: T) | Err(error: AlgorithmError)
}

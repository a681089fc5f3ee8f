/** Success and failure values shared by every component of the scoring engine. */
module Outcomes {

  datatype Option<T> = None | Some(value: T)

  /** The exceptions the modelled code raises, directly or through the libraries it calls. */
  datatype Error =
    | UnknownMetric        // a metric name other than "information_coef"
    | UnknownMethod        // a clustering-score method other than "cophenetic_correlation"
    | InvalidStates        // no non-zero number of states was asked for
    | EmptyIntersection    // the feature columns and the reference share no label
    | QuantileOutOfRange   // a quantile threshold below 0
    | NonIntegerCount      // a float threshold of 1 or more used as a slice bound
    | ZeroDivision         // no permutations with features present, or no features at all
    | NegativeDimension    // a negative size for `np.empty`: permutations or assignments
    | IndexOutOfBounds     // the p-value loop reads a null row past the last one

  datatype Result<T> = Ok(value: T) | Err(error: Error) {
    predicate IsFailure() { Err? }

    function PropagateFailure<U>(): Result<U>
      requires Err?
    {
      Err(error)
    }

    function Extract(): T
      requires Ok?
    {
      value
    }
  }
}

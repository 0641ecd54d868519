/** Missing values, results that may fail, and the errors the processing pipeline raises. */
module Wrappers {

  /** A cell that may be missing (pandas NaN / NaT). */
  datatype Option<+T> = None | Some(value: T)

  /** The outcome of an operation that may raise. */
  datatype Result<+T, +E> = Success(value: T) | Failure(error: E)

  /** The exceptions the data processor can raise. */
  datatype PipelineError =
    | MissingAqiColumn          // KeyError: the AQI frame has no 'AQI' column
    | NoMergedData              // ValueError: "No merged data available. Run merge_datasets first."
    | NoneHasNoCopy             // AttributeError: 'NoneType' object has no attribute 'copy'
    | CorrelationFailed(key: string)  // the Pearson routine raised for this column pair
}

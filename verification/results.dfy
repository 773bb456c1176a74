/** The one failure the analysis can signal. */
module Results {

  /** `Object.entries({}).reduce(f)` with no initial value throws: a text
      without a single token has no most used word. */
  datatype Error = EmptyInput

  datatype Result<T> = Success(value: T) | Failure(error: Error)
}

/** What a writer of src/mut/writers.cpp produces: its output, or the
    WriterError it throws. */
module WriterResults {

  /** The reasons a writer refuses a morphology. */
  datatype WriterFailure = WriteNoSoma

  datatype Written<T> = Written(value: T) | WriterError(failure: WriterFailure)
}

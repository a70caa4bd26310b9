/** The job states the service stores (v1/ingest.py). */
module JobStates {
  datatype State = Submitted | Processing | Failed | RetrievedDestructive | RetrievedNonDestructive | RetrievedCached
                 | Unknown(text: string)

  predicate Intermediate(s: State) {
    s.Submitted? || s.Processing?
  }
}

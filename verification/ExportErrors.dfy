/** Structured export errors (internal/exporter/errors.go, internal/exporter/exporter.go). */
module ExportErrors {

  datatype ErrorType = Network | Timeout | ServerError | ClientError | Auth | RateLimit | Unknown

  /** sizeMessage: the response message contains one of the payload-too-large patterns. */
  datatype ExportError = ExportError(kind: ErrorType, status: int, sizeMessage: bool)

  predicate IsRetryable(e: ExportError) {
    e.kind.ServerError? || e.kind.Network? || e.kind.Timeout? || e.kind.RateLimit?
  }

  predicate IsSplittable(e: ExportError) {
    e.status == 413 || ((e.status == 400 || e.kind.ClientError?) && e.sizeMessage)
  }

  function ClassifyStatus(status: int): ErrorType {
    if status == 401 || status == 403 then Auth
    else if status == 429 then RateLimit
    else if 400 <= status < 500 then ClientError
    else if status >= 500 then ServerError
    else Unknown
  }

  /** The error an HTTP response with this status gives rise to. */
  function FromStatus(status: int, sizeMessage: bool): ExportError {
    ExportError(ClassifyStatus(status), status, sizeMessage)
  }

  /** Every splittable error built from an HTTP status is non-retryable, so a batch that
      cannot be split any further is dropped rather than retried. */
  lemma SplittableStatusNotRetryable(status: int, sizeMessage: bool)
    requires IsSplittable(FromStatus(status, sizeMessage))
    ensures !IsRetryable(FromStatus(status, sizeMessage))
  {
  }

  /** Of the errors built from an HTTP status, exactly rate limiting and server errors are retried. */
  lemma RetryableStatusIff(status: int, sizeMessage: bool)
    ensures IsRetryable(FromStatus(status, sizeMessage)) <==> status == 429 || status >= 500
  {
  }

  /** And exactly status 413 is split, or another client error that says the payload is too large. */
  lemma SplittableStatusIff(status: int, sizeMessage: bool)
    ensures IsSplittable(FromStatus(status, sizeMessage)) <==>
            status == 413 || (sizeMessage && 400 <= status < 500 && status !in {401, 403, 429})
  {
  }
}

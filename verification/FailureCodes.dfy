/** Failure codes and the one classification that the retry budgets and the health record share. */
module FailureCodes {

  import opened Options

  datatype Code =
    | ScannerUnavailable
    | ScannerMalformedResponse
    | ScanTimeout
    | StorageUnavailable
    | IntegrityMismatch
    | SizeExceeded
    | StoragePathInvalid
    | RetentionFailed
    | WorkerNotAuthenticated
    | WorkerAuthenticationFailed
    | MultiTenantUnsupported
    | TenancyNotChecked
    | WorkerPollFailed
    | HeartbeatStale
    | JobsRequireAttention
    | Other(name: string)

  datatype FailureClass = Content | Infrastructure

  predicate IsItemFault(code: Code) {
    code.IntegrityMismatch? || code.SizeExceeded? || code.StoragePathInvalid? || code.RetentionFailed?
  }

  /** `classifyFailure` on a code that is present: anything not listed as an item fault fails closed. */
  function ClassifyFailure(code: Code): FailureClass {
    if IsItemFault(code) then Content else Infrastructure
  }

  /** The faults a `zPING` is evidence about. */
  predicate IsScannerReachability(code: Code) {
    code.ScannerUnavailable? || code.ScannerMalformedResponse? || code.ScanTimeout?
  }

  predicate IsScanCode(code: Code) {
    IsScannerReachability(code) || code.StorageUnavailable? || code.IntegrityMismatch? || code.SizeExceeded?
    || code.StoragePathInvalid?
  }

  /** `scanFailureCode`: seven codes pass through, every other error reads as an unreachable scanner. */
  function ScanFailureCode(thrown: Option<Code>): Code {
    match thrown
    case None => ScannerUnavailable
    case Some(code) => if IsScanCode(code) then code else ScannerUnavailable
  }
}

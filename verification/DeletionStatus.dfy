/** The seven statuses of a deletion request and the public transition table. */
module DeletionStatus {

  datatype Status =
    | ShredRequested
    | KeyDestroyed
    | CascadePending
    | CascadeInProgress
    | CascadeComplete
    | CascadePartialFailure
    | CertificateIssued

  /** The table every `advanceRequest` call is checked against. */
  predicate IsValidTransition(current: Status, next: Status) {
    match current
    case ShredRequested => next.KeyDestroyed? || next.CascadePartialFailure?
    case KeyDestroyed => next.CascadePending? || next.CascadePartialFailure?
    case CascadePending => next.CascadeInProgress? || next.CascadeComplete? || next.CascadePartialFailure?
    case CascadeInProgress => next.CascadeComplete? || next.CascadePartialFailure?
    case CascadePartialFailure => next.CascadeInProgress?
    case CascadeComplete => next.CertificateIssued? || next.CascadePartialFailure?
    case CertificateIssued => false
  }

  /** The statuses a certificate may be generated in. */
  predicate Completed(status: Status) {
    status.CascadeComplete? || status.CertificateIssued?
  }
}

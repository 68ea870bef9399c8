/**
 * The domain errors of backend/src/shared/errors.ts: one constructor per error class,
 * carrying the constructor arguments, and the machine-readable code each class passes
 * to DomainError.
 */
module Errors {

  datatype DomainError =
    | RouteNotFound(routeId: string)
    | NoBaseline
    | InsufficientSurplus(shipId: string)
    | InsufficientBanked(shipId: string, requested: real, available: real)
    | PoolNetNegative(netCb: real)
      /** Declared by the source but thrown nowhere; its invariants are proved instead. */
    | AllocationInvariant(detail: string)
    | ComplianceRecordNotFound(shipId: string, year: int)
    | InvalidAmount(amount: real)
    | InsufficientMembers(count: nat)
  {
    /** The `code` field of the error. */
    function Code(): string {
      match this
      case RouteNotFound(_) => "ROUTE_NOT_FOUND"
      case NoBaseline => "NO_BASELINE_SET"
      case InsufficientSurplus(_) => "INSUFFICIENT_SURPLUS"
      case InsufficientBanked(_, _, _) => "INSUFFICIENT_BANKED_AMOUNT"
      case PoolNetNegative(_) => "POOL_NET_NEGATIVE"
      case AllocationInvariant(_) => "ALLOCATION_INVARIANT_VIOLATED"
      case ComplianceRecordNotFound(_, _) => "NO_COMPLIANCE_RECORD"
      case InvalidAmount(_) => "INVALID_AMOUNT"
      case InsufficientMembers(_) => "INSUFFICIENT_MEMBERS"
    }
  }
}

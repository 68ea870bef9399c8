/** The output shapes of backend/src/core/application/dtos/. */
module Dtos {

  datatype Status = Surplus | Deficit | Neutral

  /** The `cb > 0 ? 'surplus' : cb < 0 ? 'deficit' : 'neutral'` classification of a balance. */
  function StatusOf(cb: real): (s: Status)
    ensures s == Surplus <==> cb > 0.0
    ensures s == Deficit <==> cb < 0.0
    ensures s == Neutral <==> cb == 0.0
  {
    if cb > 0.0 then Surplus else if cb < 0.0 then Deficit else Neutral
  }

  datatype ComplianceBalanceDto = ComplianceBalanceDto(shipId: string, year: int, cbGco2eq: real, status: Status)

  datatype BankEntryDto = BankEntryDto(id: string, shipId: string, year: int, amountGco2eq: real)

  datatype PoolMemberDto = PoolMemberDto(shipId: string, cbBefore: real, cbAfter: real)

  datatype PoolDto = PoolDto(poolId: string, year: int, members: seq<PoolMemberDto>, netCb: real)

  /** The comparison returned to clients (the never-filled `percentDiff` and `compliant` are omitted). */
  datatype ComparisonDto = ComparisonDto(
    baselineRouteId: string,
    alternativeRouteId: string,
    baselineGhgIntensity: real,
    alternativeGhgIntensity: real,
    deltaGhgIntensity: real,
    baselineCb: real,
    alternativeCb: real,
    deltaCb: real,
    percentageSavings: real)
}

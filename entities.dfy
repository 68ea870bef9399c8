/** The domain entities of backend/src/core/domain/entities/, as values. */
module Entities {

  datatype VesselType = Container | BulkCarrier | Tanker | RoRo

  datatype FuelType = HFO | LNG | MGO

  /** A voyage; `routeId` is the business key, unique in the route table. */
  datatype Route = Route(
    id: string,
    routeId: string,
    vesselType: VesselType,
    fuelType: FuelType,
    year: int,
    ghgIntensity: real,
    fuelConsumption: real,
    distance: real,
    totalEmissions: real,
    isBaseline: bool)

  /** A ship's compliance balance for one year, keyed by (shipId, year). */
  datatype ComplianceBalance = ComplianceBalance(shipId: string, year: int, cbGco2eq: real)

  /** A ledger line: positive for a deposit, negative for a withdrawal. */
  datatype BankEntry = BankEntry(id: string, shipId: string, year: int, amountGco2eq: real)

  /** A pool; `createdAt` is the creation time, passed in by the caller. */
  datatype Pool = Pool(id: string, year: int, createdAt: int)

  datatype PoolMember = PoolMember(poolId: string, shipId: string, cbBefore: real, cbAfter: real)
}

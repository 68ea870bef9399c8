/**
 * Computing balances: one record per route of the year (the route's business id standing for
 * the ship), written to the compliance store by one bulk upsert, and returned with its status.
 */
module ComputeComplianceBalanceUseCase {
  import opened Wrappers
  import opened Entities
  import opened Dtos
  import opened ComplianceCalculator
  import opened ComplianceRepository
  import opened RouteRepository

  /** The records the routes give, in route order. */
  function Records(routes: seq<Route>): seq<ComplianceBalance> {
    seq(|routes|, i requires 0 <= i < |routes| =>
      ComplianceBalance(routes[i].routeId, routes[i].year,
                        ComputeComplianceBalance(routes[i].ghgIntensity, routes[i].fuelConsumption)))
  }

  /** The response rows, classified by the sign of the balance. */
  function BalanceDtos(records: seq<ComplianceBalance>): seq<ComplianceBalanceDto> {
    seq(|records|, i requires 0 <= i < |records| =>
      ComplianceBalanceDto(records[i].shipId, records[i].year, records[i].cbGco2eq, StatusOf(records[i].cbGco2eq)))
  }

  /**
   * One response row per route, in route order: the route's id and year, its balance by the
   * formula, and the status of that balance's sign.
   */
  lemma ResponseRows(routes: seq<Route>)
    ensures |BalanceDtos(Records(routes))| == |routes|
    ensures forall i :: 0 <= i < |routes| ==>
      var d := BalanceDtos(Records(routes))[i];
      && d.shipId == routes[i].routeId && d.year == routes[i].year
      && d.cbGco2eq == ComputeComplianceBalance(routes[i].ghgIntensity, routes[i].fuelConsumption)
      && (d.status == Surplus <==> d.cbGco2eq > 0.0)
      && (d.status == Deficit <==> d.cbGco2eq < 0.0)
      && (d.status == Neutral <==> d.cbGco2eq == 0.0)
  {
  }

  /** With unique route ids, a route's record is the only record with its key. */
  lemma OwnRecordIsLast(routes: seq<Route>, i: nat)
    requires RouteIdsDistinct(routes)
    requires i < |routes|
    ensures LastWithKey(Records(routes), routes[i].routeId, routes[i].year) == Some(Records(routes)[i])
  {
    var records := Records(routes);
    var key, y := routes[i].routeId, routes[i].year;
    assert forall k :: 0 <= k < |records| ==> records[k].shipId == routes[k].routeId;
    assert HasKey(records[i], key, y);
    var last := LastWithKey(records, key, y);
    var k :| 0 <= k < |records| && records[k] == last.value && HasKey(records[k], key, y)
      && (forall j :: k < j < |records| ==> !HasKey(records[j], key, y));
    assert k == i;
  }

  /**
   * After the bulk save, with unique route ids, each route's key holds the balance computed for
   * it, and a key no route has keeps what it held.
   */
  lemma SavedBalances(stored: seq<ComplianceBalance>, routes: seq<Route>, shipId: string, year: int)
    requires RouteIdsDistinct(routes)
    ensures forall i :: 0 <= i < |routes| ==>
      Lookup(UpsertAll(stored, Records(routes)), routes[i].routeId, routes[i].year) == Some(Records(routes)[i])
    ensures (forall i :: 0 <= i < |routes| ==> routes[i].routeId != shipId || routes[i].year != year) ==>
      Lookup(UpsertAll(stored, Records(routes)), shipId, year) == Lookup(stored, shipId, year)
  {
    var records := Records(routes);
    forall i | 0 <= i < |routes|
      ensures Lookup(UpsertAll(stored, records), routes[i].routeId, routes[i].year) == Some(records[i])
    {
      UpsertAllLookup(stored, records, routes[i].routeId, routes[i].year);
      OwnRecordIsLast(routes, i);
    }
    UpsertAllLookup(stored, records, shipId, year);
    assert forall k :: 0 <= k < |records| ==> records[k].shipId == routes[k].routeId && records[k].year == routes[k].year;
  }

  /**
   * execute: the routes of the year become records, the store receives them in one saveAll
   * (even when there are none, a no-op then), and the response lists them with their status.
   */
  method Execute(routeRepo: RouteStore, complianceRepo: ComplianceStore, year: Option<int>)
    returns (dtos: seq<ComplianceBalanceDto>)
    requires complianceRepo.Valid()
    modifies complianceRepo
    ensures complianceRepo.records == UpsertAll(old(complianceRepo.records), Records(RoutesInYear(routeRepo.routes, year)))
    ensures complianceRepo.Valid()
    ensures dtos == BalanceDtos(Records(RoutesInYear(routeRepo.routes, year)))
  {
    var routes := RoutesInYear(routeRepo.routes, year);
    var records := Records(routes);
    complianceRepo.SaveAll(records);
    return BalanceDtos(records);
  }
}

/**
 * Setting the baseline: an unknown route id is an error and nothing changes; otherwise the
 * table's baseline flags are cleared and the named route's is set.
 */
module SetBaselineUseCase {
  import opened Wrappers
  import opened Errors
  import opened Entities
  import opened RouteRepository

  method Execute(routeRepo: RouteStore, routeId: string) returns (r: Result<(), DomainError>)
    requires routeRepo.Valid()
    modifies routeRepo
    ensures FindByRouteId(old(routeRepo.routes), routeId).None? ==>
      r == Failure(RouteNotFound(routeId)) && routeRepo.routes == old(routeRepo.routes)
    ensures FindByRouteId(old(routeRepo.routes), routeId).Some? ==>
      r == Success(()) && routeRepo.routes == WithBaseline(old(routeRepo.routes), routeId)
    ensures routeRepo.Valid()
  {
    var route := FindByRouteId(routeRepo.routes, routeId);
    if route.None? {
      return Failure(RouteNotFound(routeId));
    }
    routeRepo.SetBaseline(routeId);
    return Success(());
  }
}

/**
 * Comparing routes: the baseline route first (no baseline is an error), then the alternative
 * by its id (an unknown id is an error), then the comparison, returned field by field.
 */
module CompareRoutesUseCase {
  import opened Wrappers
  import opened Errors
  import opened Entities
  import opened Dtos
  import opened ComparisonCalculator
  import opened RouteRepository

  function ToDto(c: ComparisonResult): ComparisonDto {
    ComparisonDto(c.baselineRouteId, c.alternativeRouteId, c.baselineGhgIntensity, c.alternativeGhgIntensity,
                  c.deltaGhgIntensity, c.baselineCb, c.alternativeCb, c.deltaCb, c.percentageSavings)
  }

  /**
   * execute: a missing baseline is reported before the alternative is looked at; on success the
   * response compares a flagged route with the route of the requested id.
   */
  function Execute(routeRepo: RouteStore, alternativeRouteId: string): (r: Result<ComparisonDto, DomainError>)
    reads routeRepo
    ensures FindBaseline(routeRepo.routes).None? ==> r == Failure(NoBaseline)
    ensures FindBaseline(routeRepo.routes).Some? && FindByRouteId(routeRepo.routes, alternativeRouteId).None? ==>
      r == Failure(RouteNotFound(alternativeRouteId))
    ensures r.Success? <==>
      FindBaseline(routeRepo.routes).Some? && FindByRouteId(routeRepo.routes, alternativeRouteId).Some?
    ensures r.Success? ==>
      && r.value.alternativeRouteId == alternativeRouteId
      && (exists i :: 0 <= i < |routeRepo.routes| && routeRepo.routes[i].isBaseline
                      && routeRepo.routes[i].routeId == r.value.baselineRouteId
                      && routeRepo.routes[i].ghgIntensity == r.value.baselineGhgIntensity)
      && r.value.alternativeGhgIntensity == r.value.baselineGhgIntensity - r.value.deltaGhgIntensity
      && r.value.alternativeCb == r.value.baselineCb + r.value.deltaCb
  {
    match FindBaseline(routeRepo.routes)
    case None => Failure(NoBaseline)
    case Some(baseline) =>
      match FindByRouteId(routeRepo.routes, alternativeRouteId)
      case None => Failure(RouteNotFound(alternativeRouteId))
      case Some(alternative) => Success(ToDto(CompareRoutes(baseline, alternative)))
  }

  /** On success every field of the response is the same field of compareRoutes on the two routes. */
  lemma ResponseIsComparison(routeRepo: RouteStore, alternativeRouteId: string)
    requires Execute(routeRepo, alternativeRouteId).Success?
    ensures var c := CompareRoutes(FindBaseline(routeRepo.routes).value,
                                   FindByRouteId(routeRepo.routes, alternativeRouteId).value);
      var d := Execute(routeRepo, alternativeRouteId).value;
      && d.baselineRouteId == c.baselineRouteId && d.alternativeRouteId == c.alternativeRouteId
      && d.baselineGhgIntensity == c.baselineGhgIntensity && d.alternativeGhgIntensity == c.alternativeGhgIntensity
      && d.deltaGhgIntensity == c.deltaGhgIntensity
      && d.baselineCb == c.baselineCb && d.alternativeCb == c.alternativeCb && d.deltaCb == c.deltaCb
      && d.percentageSavings == c.percentageSavings
  {
  }
}

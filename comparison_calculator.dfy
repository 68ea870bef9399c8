/**
 * Comparing an alternative route against the baseline route: the intensity gap (positive when
 * the alternative is cleaner), the gap in compliance balance and the percentage saving on the
 * baseline's intensity, which is zero when the baseline intensity is zero.
 */
module ComparisonCalculator {
  import opened Entities
  import opened ComplianceCalculator

  datatype ComparisonResult = ComparisonResult(
    baselineRouteId: string,
    alternativeRouteId: string,
    baselineGhgIntensity: real,
    alternativeGhgIntensity: real,
    deltaGhgIntensity: real,
    baselineCb: real,
    alternativeCb: real,
    deltaCb: real,
    percentageSavings: real)

  /** compareRoutes. */
  function CompareRoutes(baseline: Route, alternative: Route): (r: ComparisonResult)
    ensures r.baselineRouteId == baseline.routeId && r.alternativeRouteId == alternative.routeId
    ensures r.baselineGhgIntensity == baseline.ghgIntensity
    ensures r.alternativeGhgIntensity == alternative.ghgIntensity
    ensures r.alternativeGhgIntensity == r.baselineGhgIntensity - r.deltaGhgIntensity
    ensures r.baselineCb == ComputeComplianceBalance(baseline.ghgIntensity, baseline.fuelConsumption)
    ensures r.alternativeCb == ComputeComplianceBalance(alternative.ghgIntensity, alternative.fuelConsumption)
    ensures r.alternativeCb == r.baselineCb + r.deltaCb
    ensures baseline.ghgIntensity == 0.0 ==> r.percentageSavings == 0.0
  {
    var baselineCb := ComputeComplianceBalance(baseline.ghgIntensity, baseline.fuelConsumption);
    var alternativeCb := ComputeComplianceBalance(alternative.ghgIntensity, alternative.fuelConsumption);
    var deltaGhgIntensity := baseline.ghgIntensity - alternative.ghgIntensity;
    var deltaCb := alternativeCb - baselineCb;
    var percentageSavings :=
      if baseline.ghgIntensity == 0.0 then 0.0
      else (deltaGhgIntensity / baseline.ghgIntensity) * 100.0;
    ComparisonResult(
      baseline.routeId, alternative.routeId,
      baseline.ghgIntensity, alternative.ghgIntensity,
      deltaGhgIntensity, baselineCb, alternativeCb, deltaCb, percentageSavings)
  }

  /** A route compared with itself shows no gap and no saving. */
  lemma CompareWithSelf(route: Route)
    ensures CompareRoutes(route, route).deltaGhgIntensity == 0.0
    ensures CompareRoutes(route, route).deltaCb == 0.0
    ensures CompareRoutes(route, route).percentageSavings == 0.0
  {
  }

  /**
   * With a positive baseline intensity the saving has the sign of the intensity gap, and the
   * gap is recovered from the saving.
   */
  lemma SavingsSign(baseline: Route, alternative: Route)
    requires baseline.ghgIntensity > 0.0
    ensures var r := CompareRoutes(baseline, alternative);
      && (r.percentageSavings > 0.0 <==> r.deltaGhgIntensity > 0.0)
      && (r.percentageSavings < 0.0 <==> r.deltaGhgIntensity < 0.0)
      && (r.percentageSavings == 0.0 <==> r.deltaGhgIntensity == 0.0)
  {
    var r := CompareRoutes(baseline, alternative);
    SavingsInverse(baseline, alternative);
    assert r.deltaGhgIntensity == r.percentageSavings * baseline.ghgIntensity / 100.0;
  }

  /** Away from a zero baseline, the saving is the gap as a share of the baseline intensity. */
  lemma SavingsInverse(baseline: Route, alternative: Route)
    requires baseline.ghgIntensity != 0.0
    ensures var r := CompareRoutes(baseline, alternative);
      r.deltaGhgIntensity == r.percentageSavings * baseline.ghgIntensity / 100.0
  {
    var r := CompareRoutes(baseline, alternative);
    var b := baseline.ghgIntensity;
    assert r.percentageSavings == (r.deltaGhgIntensity / b) * 100.0;
    assert (r.deltaGhgIntensity / b) * b == r.deltaGhgIntensity;
  }

  /** Swapping the two routes negates both gaps. */
  lemma CompareAntisymmetric(a: Route, b: Route)
    ensures CompareRoutes(b, a).deltaGhgIntensity == -CompareRoutes(a, b).deltaGhgIntensity
    ensures CompareRoutes(b, a).deltaCb == -CompareRoutes(a, b).deltaCb
  {
  }

  /** For two routes that burn the same fuel, the balance gap is the intensity gap times the energy. */
  lemma SameFuelBalanceGap(baseline: Route, alternative: Route)
    requires baseline.fuelConsumption == alternative.fuelConsumption
    ensures CompareRoutes(baseline, alternative).deltaCb
         == CompareRoutes(baseline, alternative).deltaGhgIntensity * ComputeEnergy(baseline.fuelConsumption)
  {
  }
}

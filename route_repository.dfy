/**
 * The route table: looked up by business id, by baseline flag and by year, and updated by
 * setBaseline, which clears every baseline flag and then sets the flag of the named route.
 */
module RouteRepository {
  import opened Wrappers
  import opened Entities
  import opened Seqs

  /** The unique route_id constraint of the table. */
  ghost predicate RouteIdsDistinct(routes: seq<Route>) {
    forall i, j :: 0 <= i < j < |routes| ==> routes[i].routeId != routes[j].routeId
  }

  /** findByRouteId: the first route with the business id, if any. */
  function FindByRouteId(routes: seq<Route>, routeId: string): (r: Option<Route>)
    ensures r.None? <==> forall i :: 0 <= i < |routes| ==> routes[i].routeId != routeId
    ensures r.Some? ==> exists i :: 0 <= i < |routes| && routes[i] == r.value && r.value.routeId == routeId
    decreases |routes|
  {
    if routes == [] then None
    else if routes[0].routeId == routeId then Some(routes[0])
    else
      var r := FindByRouteId(routes[1..], routeId);
      assert forall i :: 1 <= i < |routes| ==> routes[i] == routes[1..][i - 1];
      r
  }

  /** findBaseline: the first route flagged as baseline, if any. */
  function FindBaseline(routes: seq<Route>): (r: Option<Route>)
    ensures r.None? <==> forall i :: 0 <= i < |routes| ==> !routes[i].isBaseline
    ensures r.Some? ==> exists i :: 0 <= i < |routes| && routes[i] == r.value && r.value.isBaseline
    decreases |routes|
  {
    if routes == [] then None
    else if routes[0].isBaseline then Some(routes[0])
    else
      var r := FindBaseline(routes[1..]);
      assert forall i :: 1 <= i < |routes| ==> routes[i] == routes[1..][i - 1];
      r
  }

  /** findAll(year?): the routes of that year, or all routes when no year is given. */
  function RoutesInYear(routes: seq<Route>, year: Option<int>): (r: seq<Route>)
    ensures forall k :: 0 <= k < |r| ==> r[k] in routes && (year.Some? ==> r[k].year == year.value)
    ensures forall k :: 0 <= k < |routes| && (year.Some? ==> routes[k].year == year.value) ==> routes[k] in r
    ensures multiset(r) <= multiset(routes)
  {
    Filter(routes, (x: Route) => year.None? || x.year == year.value)
  }

  /** update routes set is_baseline = false. */
  function ClearBaselines(routes: seq<Route>): seq<Route> {
    seq(|routes|, i requires 0 <= i < |routes| => routes[i].(isBaseline := false))
  }

  /** update routes set is_baseline = true where route_id = routeId. */
  function MarkBaseline(routes: seq<Route>, routeId: string): seq<Route> {
    seq(|routes|, i requires 0 <= i < |routes| =>
      if routes[i].routeId == routeId then routes[i].(isBaseline := true) else routes[i])
  }

  /** The table after setBaseline's transaction. */
  function WithBaseline(routes: seq<Route>, routeId: string): seq<Route> {
    MarkBaseline(ClearBaselines(routes), routeId)
  }

  /**
   * setBaseline changes flags only: every route keeps its place and all its other fields, the
   * named route is flagged and every other route is not.
   */
  lemma SetBaselineFlags(routes: seq<Route>, routeId: string)
    ensures |WithBaseline(routes, routeId)| == |routes|
    ensures forall i :: 0 <= i < |routes| ==>
      WithBaseline(routes, routeId)[i] == routes[i].(isBaseline := routes[i].routeId == routeId)
  {
  }

  /**
   * With unique route ids and the named route present, setBaseline leaves exactly one baseline,
   * the named route, and findBaseline then returns it.
   */
  lemma ExactlyOneBaseline(routes: seq<Route>, routeId: string)
    requires RouteIdsDistinct(routes)
    requires FindByRouteId(routes, routeId).Some?
    ensures var after := WithBaseline(routes, routeId);
      && (forall i, j :: 0 <= i < |after| && 0 <= j < |after| && after[i].isBaseline && after[j].isBaseline ==> i == j)
      && FindBaseline(after) == Some(FindByRouteId(routes, routeId).value.(isBaseline := true))
  {
    SetBaselineFlags(routes, routeId);
    OneFlagged(routes, WithBaseline(routes, routeId), routeId);
  }

  /** Any table whose flags mark exactly the routes with the id has that route as its only baseline. */
  lemma OneFlagged(routes: seq<Route>, after: seq<Route>, routeId: string)
    requires RouteIdsDistinct(routes)
    requires FindByRouteId(routes, routeId).Some?
    requires |after| == |routes|
    requires forall i :: 0 <= i < |routes| ==> after[i] == routes[i].(isBaseline := routes[i].routeId == routeId)
    ensures forall i, j :: 0 <= i < |after| && 0 <= j < |after| && after[i].isBaseline && after[j].isBaseline ==> i == j
    ensures FindBaseline(after) == Some(FindByRouteId(routes, routeId).value.(isBaseline := true))
  {
    var i0 :| 0 <= i0 < |routes| && routes[i0] == FindByRouteId(routes, routeId).value && routes[i0].routeId == routeId;
    assert after[i0].isBaseline;
    var b :| 0 <= b < |after| && after[b] == FindBaseline(after).value && after[b].isBaseline;
    assert b == i0;
  }

  /** Setting the same baseline twice leaves the table as setting it once. */
  lemma SetBaselineIdempotent(routes: seq<Route>, routeId: string)
    ensures WithBaseline(WithBaseline(routes, routeId), routeId) == WithBaseline(routes, routeId)
  {
    var once := WithBaseline(routes, routeId);
    var twice := WithBaseline(once, routeId);
    assert forall i :: 0 <= i < |twice| ==> twice[i] == once[i];
  }

  class RouteStore {
    var routes: seq<Route>

    ghost predicate Valid()
      reads this
    {
      RouteIdsDistinct(routes)
    }

    constructor(initial: seq<Route>)
      requires RouteIdsDistinct(initial)
      ensures routes == initial && Valid()
    {
      routes := initial;
    }

    /** setBaseline: clear every flag, then set the named route's, in one transaction. */
    method SetBaseline(routeId: string)
      requires Valid()
      modifies this
      ensures routes == WithBaseline(old(routes), routeId)
      ensures Valid()
    {
      routes := ClearBaselines(routes);
      routes := MarkBaseline(routes, routeId);
      assert forall i :: 0 <= i < |routes| ==> routes[i].routeId == old(routes)[i].routeId;
    }
  }
}

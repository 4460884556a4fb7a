/** `RoutePlanner.plan_route`: locate the candidates along the route, choose the
    stops among them, and total their cost. The route (its points and length) and
    the station catalog, which the original fetches over the network and from
    the database, are parameters, as is the distance function. */
module RoutePlanning {
  import opened Models
  import opened Dtos
  import opened Decimals
  import opened StationLocator
  import opened StopOptimizer
  import opened CostAggregator

  /** The planner's default tank range, in miles. */
  const DefaultTankRange: real := 500.0

  /** The planner's default fuel economy, in miles per gallon. */
  const DefaultMpg: real := 10.0

  /** The dictionary `plan_route` returns. */
  datatype RoutePlan = RoutePlan(
    route: seq<Point>,
    distance: real,
    fuelStops: seq<Stop>,
    totalCost: real)

  method PlanRoute(routePoints: seq<Point>, totalDistance: real, catalog: seq<FuelStation>,
                   tankRange: real, mpg: real, dist: (Point, Point) -> real)
    returns (plan: RoutePlan)
    requires Located(catalog) && tankRange > 0.0 && mpg != 0.0
    ensures plan.route == routePoints && plan.distance == totalDistance
    ensures var stations := Locate(routePoints, totalDistance, catalog, tankRange, dist, DefaultMaxDistance);
      plan.fuelStops == Plan(totalDistance, stations, tankRange, mpg)
      && WellFormedPlan(plan.fuelStops, stations)
    ensures plan.totalCost == TotalCost(plan.fuelStops) && IsCents(plan.totalCost)
    ensures totalDistance <= tankRange ==> plan.fuelStops == [] && plan.totalCost == 0.0
  {
    var stations := FindStationsNearRoute(routePoints, totalDistance, catalog, tankRange, dist, DefaultMaxDistance);
    var fuelStops := OptimizeFuelStops(totalDistance, stations, tankRange, mpg);
    PlanWellFormed(totalDistance, stations, tankRange, mpg);
    PlanTotalIsCents(totalDistance, stations, tankRange, mpg);
    var totalCost := TotalCost(fuelStops);
    plan := RoutePlan(routePoints, totalDistance, fuelStops, totalCost);
  }
}

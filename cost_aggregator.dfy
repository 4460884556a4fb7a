/** The route total (`RoutePlanner.calculate_total_cost`): the plain sum of the
    stop costs. Python's `sum` starts from the integer 0, which is what an empty
    plan returns; the costs are `Decimal`s, so the `float` branch never runs and
    the sum is returned as it is. */
module CostAggregator {
  import opened Decimals
  import opened Dtos
  import opened StopOptimizer

  /** The sum of the stops' costs, added left to right. */
  function TotalCost(fuelStops: seq<Stop>): (total: real)
    ensures fuelStops == [] ==> total == 0.0
    ensures (forall s :: s in fuelStops ==> IsCents(s.cost)) ==> IsCents(total)
    ensures (forall s :: s in fuelStops ==> s.cost >= 0.0) ==> total >= 0.0
  {
    if |fuelStops| == 0 then 0.0
    else
      var rest := fuelStops[..|fuelStops| - 1];
      assert forall s :: s in rest ==> s in fuelStops;
      var last := fuelStops[|fuelStops| - 1];
      var total := TotalCost(rest) + last.cost;
      assert (forall s :: s in fuelStops ==> IsCents(s.cost)) ==> IsCents(total) by {
        if forall s :: s in fuelStops ==> IsCents(s.cost) {
          CentsAdd(TotalCost(rest), last.cost);
        }
      }
      total
  }

  /** The total of a plan split in two is the sum of the two totals. */
  lemma {:induction false} TotalCostAppend(a: seq<Stop>, b: seq<Stop>)
    ensures TotalCost(a + b) == TotalCost(a) + TotalCost(b)
  {
    if |b| > 0 {
      var n := |b| - 1;
      assert (a + b)[..|a + b| - 1] == a + b[..n];
      TotalCostAppend(a, b[..n]);
    } else {
      assert a + b == a;
    }
  }

  /** The total of a single stop is its cost. */
  lemma TotalCostSingle(s: Stop)
    ensures TotalCost([s]) == s.cost
  {
    assert [s][..0] == [];
  }

  /** Every cost the optimizer produces is whole cents, so the total of any plan is
      whole cents without a final quantize. */
  lemma PlanTotalIsCents(routeDistance: real, stations: seq<StationWithDistance>, tankRange: real, mpg: real)
    requires tankRange > 0.0 && mpg != 0.0
    ensures IsCents(TotalCost(Plan(routeDistance, stations, tankRange, mpg)))
  {
    PlanWellFormed(routeDistance, stations, tankRange, mpg);
  }
}

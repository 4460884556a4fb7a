# Fuel-stop planner model

A Dafny model of the planning core of a US road-trip fuel planner (`RoutePlanner` in
`api/route_planner/services/routing.py`). The planner works in three stages:

1. **Locate candidates** (`find_stations_near_route`). Walk along the route polyline and add up segment
   lengths. When the distance since the last checkpoint reaches `tank_range - 50` miles on a route longer
   than one tank, the route point is a checkpoint. At each checkpoint, take the cheapest catalog station
   within 30 miles of that point. Ties go to the earlier station in catalog order, because the sort is
   stable. Each pick becomes a `StationWithDistance` candidate. Its distance from the start is the route
   length so far plus the station's offset from the route.
2. **Choose stops** (`optimize_fuel_stops`). A greedy loop over `total_distance`, `current_position` and
   `current_range` takes one of three branches on each pass:
   - *finish*: the rest of the route fits in the current range. The last stop is back-filled and the loop
     breaks.
   - *gap*: no candidate lies in the window. The last stop is loaded with a full tank's worth of extra fuel,
     and the position advances by one tank range.
   - *normal*: the candidate with the lowest blended score `price * (1 + (d - position) / tank_range)` is
     appended as a new stop, and the position moves onto it.
3. **Total** (`calculate_total_cost`): the sum of the stop costs.

Every cost is a `Decimal` product quantized to cents with Python's default rounding (half to even).

Modules:

- `Decimals` (`decimals.dfy`): rounding to cents (`RoundCents`) and the cost of a fuel load (`FuelCost`).
- `Models` (`models.dfy`) and `Dtos` (`station_with_distance.dfy`): the station record and the candidate
  wrapper with its delegating getters.
- `StopOptimizer` (`stop_optimizer.dfy`):
  - `OptimizeFuelStops` is a method with the source's `while` loop.
  - It is proved equal to `Plan`, the specification function. `Plan` runs `Step`, one pass of the loop
    body, on an explicit `PlannerState` until the loop breaks.
  - Range and tie-breaking are proved per pass (`NormalStep`, `ChooseBestFirst`), and termination per pass
    too (`StepDecreases`). Ordering, candidates, costs and the fuel charged are proved for the whole plan
    (`PlanWellFormed`, `PlanFuel`).
- `StationLocator` (`station_locator.dfy`):
  - `FindStationsNearRoute` is a method with the source's outer loop.
  - The inner catalog loop is `CollectNearby`. The search at one checkpoint is `VisitCheckpoint`.
  - The method is proved equal to `Locate`, which is built from `ScanPoint`, one pass of the outer loop.
- `CostAggregator` (`cost_aggregator.dfy`): `TotalCost`.
- `RoutePlanning` (`route_planner.dfy`): `PlanRoute` composes the three stages.
- `Scenarios` (`scenarios.dfy`): worked examples on concrete inputs.

Four behaviours of the code are worth stating outright:

- **Finish-step fuel.** The finish step sets the last stop's `total_fuel` to `fuel_needed` (routing.py:161)
  but charges the cost on `fuel_needed + fuel_for_finish` (routing.py:162-165). A 600-mile trip with one stop
  at mile 460 gives 46 gallons and 210.00 (`Scenarios.OneStationScenario`). `StopOptimizer.PlanWellFormed`
  shows this holds for every plan: each returned stop has `totalFuel == fuelNeeded`, while its cost is the
  quantized price of `fuelNeeded` plus its `fuelForFinish`, if any.
- **Gap before the first stop.** When nothing is reachable and no stop has been planned yet, the gap branch
  adds no fuel and records no stop (routing.py:176-206). It only moves on by one tank range. On a 1200-mile
  route with a 500-mile tank at 10 mpg and one station at mile 700, the plan buys 20 + 50 = 70 gallons
  for a trip that burns 120 (`Scenarios.GapBeforeFirstStopScenario`). When some candidate does lie within
  the first tank range of a route longer than that, `StopOptimizer.PlanFuel` shows that the stops are
  charged together for exactly `route_distance / mpg` gallons: the first stop for the stretch from the
  start, each gap for one tank range, and the last stop for the rest of the route as well.
- **Rounding.** 12.345 × 3.999 = 49.367655, which quantizes to 49.37 (`Scenarios.RoundingScenario`).
- **Route total.** `calculate_total_cost` returns the plain sum, with no final quantize (routing.py:236-237).
  `CostAggregator.PlanTotalIsCents` shows that this sum is already a whole number of cents.

## Model

| member | source | states |
|---|---|---|
| Decimals.RoundCents | api/route_planner/services/routing.py:162-165 | `quantize(Decimal('0.01'))`. The result is a whole number of cents within half a cent of the input. An exact tie goes to the even cent. A value already in whole cents is unchanged. |
| Decimals.RoundCentsUnique | api/route_planner/services/routing.py:162-165 | These properties pin down the quantized value: any whole-cent value within half a cent of `x` (even on a tie) equals `RoundCents(x)`. |
| Decimals.FuelCost | api/route_planner/services/routing.py:224 | The cost of a fuel load is whole cents and within half a cent of `fuel * price`. |
| Decimals.CentsAdd | api/route_planner/services/routing.py:236 | A sum of whole-cent amounts is whole cents. |
| Models.FuelStation.Position | api/route_planner/models.py:14-15 | A station with both (nullable) coordinates has exactly those coordinates as its position. |
| Dtos.GettersDelegate | api/route_planner/dtos/station_with_distance.py:5-21 | `retail_price`, `latitude`, `longitude` and `id` return the wrapped station's own fields, nulls included. `distance_from_start` reads back as constructed. |
| StopOptimizer.ReachableStations | api/route_planner/services/routing.py:168-172 | A candidate is reachable iff it is in the list and `position < d <= position + range`. The result is never longer than the list. |
| StopOptimizer.ReachableStationsAppend | api/route_planner/services/routing.py:168-172 | The comprehension keeps list order: filtering `a + b` gives the filtered `a` followed by the filtered `b`. |
| StopOptimizer.ReachableSplit | api/route_planner/services/routing.py:168-172 | Filtering the candidates at any split point gives the filter of the prefix followed by the filter of the suffix, so the comprehension keeps list order. |
| StopOptimizer.InFilteredPrefix | api/route_planner/services/routing.py:168-172 | An in-window candidate before position `k` appears in the filter of the first `k` candidates. |
| StopOptimizer.BestIndex | api/route_planner/services/routing.py:209-212 | `min(..., key=score)` picks a candidate whose score is no higher than any other. Every earlier candidate has a strictly higher score, so the first of equal scores wins. |
| StopOptimizer.ChooseBest | api/route_planner/services/routing.py:209-212 | The chosen station is one of the reachable candidates and has the lowest score among them. |
| StopOptimizer.ChooseBestFirst | api/route_planner/services/routing.py:168-212 | Tie-break over the candidate list itself: the chosen candidate is in the window at some position `k` of `stations`, and every in-window candidate before `k` scores strictly higher. |
| StopOptimizer.Score | api/route_planner/services/routing.py:211 | The `min` key `price * (1 + (d - position) / tank_range)`. It has no contract of its own; see `BestIndex` and `ChooseBestFirst`. |
| StopOptimizer.FuelFor | api/route_planner/services/routing.py:217 | The fuel for a distance, times `mpg`, gives back that distance. |
| StopOptimizer.NewStop | api/route_planner/services/routing.py:217-225 | The dictionary appended in the normal branch. It has no contract of its own; `NormalStep` states its fields. |
| StopOptimizer.FinishStops | api/route_planner/services/routing.py:156-166 | Finish branch. The list keeps its length and all stops before the last are unchanged. The last stop keeps its station, distance and `fuel_needed`. It gets `fuel_for_finish = remaining / mpg` and `total_fuel = fuel_needed`, not the sum. Its cost is `FuelCost(fuel_needed + fuel_for_finish, price)`. |
| StopOptimizer.GapStops | api/route_planner/services/routing.py:189-199 | Gap branch. No stop is added and only the last stop changes. Its `fuel_needed` grows by `tank_range / mpg`. `total_fuel` becomes the new `fuel_needed`. The cost is recomputed at the stop's own price. |
| StopOptimizer.Step | api/route_planner/services/routing.py:154-229 | One loop pass. A pass that does not break leaves `total_distance == current_position`, `current_range == tank_range` and `total_distance < route_distance`. So the loop is only ever left through the `break`. |
| StopOptimizer.NormalStep | api/route_planner/services/routing.py:209-229 | Normal branch. The new stop is a candidate with `position < d <= position + tank_range`. Its score is minimal over all in-window candidates. It has `fuel_needed == total_fuel == (d - position) / mpg`, cost `FuelCost(fuel_needed, price)` and no `fuel_for_finish`. The position moves onto it. |
| StopOptimizer.GapStep | api/route_planner/services/routing.py:176-206 | Gap branch. It is taken exactly when no candidate lies in the window. The list is patched by `GapStops`. `total_distance` and `current_position` both advance by exactly `tank_range`. |
| StopOptimizer.NormalNext | api/route_planner/services/routing.py:217-229 | The state after the normal branch, written in the loop's variables. |
| StopOptimizer.GapNext | api/route_planner/services/routing.py:203-206 | The state after the gap branch, written in the loop's variables. |
| StopOptimizer.CountBeyond | api/route_planner/services/routing.py:168-172 | The number of candidates still ahead is at most the number of candidates. This is the first part of the termination measure. |
| StopOptimizer.CountBeyondMonotone | api/route_planner/services/routing.py:203-204 | Moving forward never increases the number of candidates ahead. |
| StopOptimizer.CountBeyondDrops | api/route_planner/services/routing.py:227-228 | Moving onto a candidate ahead leaves strictly fewer candidates ahead. |
| StopOptimizer.RangesLeftShift | api/route_planner/services/routing.py:203 | Advancing by one tank range removes exactly one whole range from what is left. |
| StopOptimizer.StepDecreases | api/route_planner/services/routing.py:154-229 | Every pass that does not break lowers (candidates ahead, whole tank ranges left) lexicographically, and that measure is bounded below. So the loop terminates. |
| StopOptimizer.PlanFromFinish | api/route_planner/services/routing.py:155-166 | When the remaining distance fits in the current range, the loop returns the back-filled stops. |
| StopOptimizer.ContinueStep | api/route_planner/services/routing.py:154-229 | After a pass that does not break, the loop-head condition still holds. The loop returns the same stops from the new state. The measure has dropped. |
| StopOptimizer.PlanFrom | api/route_planner/services/routing.py:154-231 | The stops the loop returns from a given loop-head state. It has no contract of its own; see `PlanFromFinish`, `ContinueStep` and `PlanFromWellFormed`. |
| StopOptimizer.Plan | api/route_planner/services/routing.py:147-231 | The specification of `optimize_fuel_stops`: `[]` when the loop never runs, else `PlanFrom` of the initial state. It has no contract of its own; see `PlanWellFormed` and `OptimizeFuelStops`. |
| StopOptimizer.PatchKeepsPlan | api/route_planner/services/routing.py:156-199 | Patching only the last stop, while keeping its station and distance, preserves ordering and candidate membership. When the patched stop's cost is its charged fuel at its price, quantized, costs stay that way. `total_fuel == fuel_needed` is preserved, and so is "not yet back-filled" when the patch keeps it. |
| StopOptimizer.AppendKeepsPlan | api/route_planner/services/routing.py:217-229 | Appending the chosen candidate preserves all stops lying behind the position, strict ordering, candidate membership, the quantized cost of each stop's fuel, "not yet back-filled", and "no more stops than used candidates". |
| StopOptimizer.StepKeepsPlanSoFar | api/route_planner/services/routing.py:154-229 | Every branch preserves the loop-head plan invariant. The finish branch returns a well-formed plan. |
| StopOptimizer.PlanFromWellFormed | api/route_planner/services/routing.py:154-231 | From any loop head that satisfies the invariant, the returned stops form a well-formed plan. |
| StopOptimizer.PlanWellFormed | api/route_planner/services/routing.py:147-231 | The returned stops strictly increase in `distance_from_start`. They are never more numerous than the candidates. Each is a candidate at its own distance and has `total_fuel == fuel_needed`. Its cost is `fuel_needed` (plus `fuel_for_finish` on a back-filled stop) times its station's price, quantized to cents, as at 162-165, 196-199 and 224. So it is whole cents. A route no longer than one tank range gets no stop. |
| StopOptimizer.FuelSum | api/route_planner/services/routing.py:156-229 | The gallons the stops are charged for in total, `fuel_needed` plus any `fuel_for_finish` per stop. It has no contract of its own; see `PlanFuel`. |
| StopOptimizer.FinishFuel | api/route_planner/services/routing.py:156-166 | The finish step adds exactly `remaining_distance / mpg` to the fuel charged. |
| StopOptimizer.GapFuel | api/route_planner/services/routing.py:189-199 | With a stop already planned, the gap branch adds exactly `tank_range / mpg` to the fuel charged. |
| StopOptimizer.ContinueFuel | api/route_planner/services/routing.py:176-229 | Once a stop is planned, each pass that does not break adds the fuel for exactly the distance the position moves. The last stop stays without finish fuel. |
| StopOptimizer.PlanFromFuel | api/route_planner/services/routing.py:154-231 | From a loop head whose stops are charged for the miles from some base point to the current position, the returned stops are non-empty and charged for the miles from that base to the destination. |
| StopOptimizer.FirstStop | api/route_planner/services/routing.py:154-229 | When a candidate lies within the first tank range of a longer route, the first pass is a normal one. It leaves one stop, charged for the fuel to reach it from the start. |
| StopOptimizer.PlanFuel | api/route_planner/services/routing.py:147-231 | On a route longer than one tank range with a candidate within the first range, the plan is non-empty and its stops are charged together for exactly `route_distance / mpg` gallons. |
| StopOptimizer.InvariantInit | api/route_planner/services/routing.py:149-152 | The initial values (`total_distance = current_position = 0`, `current_range = tank_range`, no stops) satisfy the loop invariant. |
| StopOptimizer.InvariantContinues | api/route_planner/services/routing.py:168-229 | A gap or normal pass keeps the loop invariant (at the loop head, and the loop will return the plan) and lowers the termination measure. |
| StopOptimizer.InvariantFinish | api/route_planner/services/routing.py:155-166 | Under the loop invariant, the back-filled stops returned at the `break` are exactly the plan. |
| StopOptimizer.OptimizeFuelStops | api/route_planner/services/routing.py:147-231 | The loop returns exactly `Plan(route_distance, stations, tank_range, mpg)`, so every property proved of `Plan` holds of its result. |
| StationLocator.Candidate | api/route_planner/services/routing.py:124-128 | A found station is wrapped with its own price and with `distance_from_start = offset + distance(point, station)`. |
| StationLocator.Nearby | api/route_planner/services/routing.py:116-129 | `nearby_stations` holds only in-radius catalog stations, each with the right distance from start, and is no longer than the catalog. |
| StationLocator.CheapestIndex | api/route_planner/services/routing.py:134-136 | The element a stable sort by price moves to the front has the lowest price. Every element before it is strictly dearer. |
| StationLocator.Pick | api/route_planner/services/routing.py:134-137 | A checkpoint appends nothing exactly when no station was found. |
| StationLocator.CheapestIndexSnoc | api/route_planner/services/routing.py:129-135 | Appending a station moves the front of the sort to it only if it is strictly cheaper than the current front. |
| StationLocator.NearbyCheapest | api/route_planner/services/routing.py:116-137 | A checkpoint finds nothing iff no station is in radius. Otherwise it picks the cheapest in-radius station, the earliest in the catalog among equal prices. |
| StationLocator.NearbyComplete | api/route_planner/services/routing.py:119-129 | No in-radius station is missed: every catalog station within the radius appears in `nearby_stations` at its own distance from the start. |
| StationLocator.ScanPoint | api/route_planner/services/routing.py:108-140 | One outer pass adds the segment length to the distance from start and appends at most one candidate. |
| StationLocator.PathLength | api/route_planner/services/routing.py:109-111 | The sum of the first `i` segment lengths. It has no contract of its own; see `ScanDistanceFromStart`. |
| StationLocator.IsCheckpoint | api/route_planner/services/routing.py:114 | The checkpoint test `current_distance >= tank_range - 50 and route_distance > tank_range`. It has no contract of its own; see `ScanStepEmits` and `ScanShortRoute`. |
| StationLocator.Found | api/route_planner/services/routing.py:115-137 | What the checkpoint at route point `i` appends. It has no contract of its own; see `NearbyCheapest` and `LocateSound`. |
| StationLocator.Scan | api/route_planner/services/routing.py:102-140 | The loop variables before route point `n`. It has no contract of its own; see `ScanEmitted`, `ScanLength` and `ScanDistanceFromStart`. |
| StationLocator.Locate | api/route_planner/services/routing.py:97-144 | The list `find_stations_near_route` returns. It has no contract of its own; see `LocateSound` and `FindStationsNearRoute`. |
| StationLocator.End | api/route_planner/services/routing.py:108 | `range(1, len(route_points))` ends at a valid loop index, also for routes with fewer than two points. |
| StationLocator.ScanDistanceFromStart | api/route_planner/services/routing.py:111 | `current_distance_from_start` is never reset: before point `n` it is the route length up to point `n - 1`. |
| StationLocator.CheckpointsIgnoreCatalog | api/route_planner/services/routing.py:114-140 | `current_distance` does not depend on the catalog. It is reset at every checkpoint whether or not a station was found. |
| StationLocator.ScanStepEmits | api/route_planner/services/routing.py:114-137 | A pass appends a candidate only at a checkpoint. That candidate is the one the checkpoint's search picks at the route length so far. |
| StationLocator.ScanLength | api/route_planner/services/routing.py:108-137 | At most one candidate per route point after the first. |
| StationLocator.ScanShortRoute | api/route_planner/services/routing.py:114 | A route no longer than one tank range has no checkpoint and gets no candidate. |
| StationLocator.ScanEmitted | api/route_planner/services/routing.py:108-140 | A candidate is in the list iff an earlier route point was a checkpoint whose search picked it. |
| StationLocator.LocateSound | api/route_planner/services/routing.py:97-144 | The result is `[]` for a route no longer than one tank and has at most `len(route_points) - 1` entries. Each entry is the cheapest in-radius station of some route point `i` that passes the checkpoint test at 114 in the loop state before `i` (earliest in the catalog on ties), at that checkpoint's route length plus its offset. |
| StationLocator.ScanPointAtCheckpoint | api/route_planner/services/routing.py:114-140 | The loop body at a checkpoint, in the method's variables: the counter resets and the pick is appended. |
| StationLocator.ScanPointElsewhere | api/route_planner/services/routing.py:108-114 | The loop body away from a checkpoint, in the method's variables: both counters grow by the segment length. |
| StationLocator.CollectNearby | api/route_planner/services/routing.py:116-129 | The inner catalog loop returns exactly `Nearby(catalog, point, offset, max_distance)`. |
| StationLocator.VisitCheckpoint | api/route_planner/services/routing.py:115-137 | A checkpoint appends the front of the price-sorted nearby list to the stations found so far, or appends nothing when the list is empty. |
| StationLocator.FindStationsNearRoute | api/route_planner/services/routing.py:97-144 | The walk returns exactly `Locate(...)`, so `LocateSound` and `ScanEmitted` hold of its result. |
| CostAggregator.TotalCost | api/route_planner/services/routing.py:234-237 | The total is 0 for no stops. It is whole cents when every cost is. It is non-negative when every cost is. |
| CostAggregator.TotalCostAppend | api/route_planner/services/routing.py:236 | The total of two concatenated stop lists is the sum of their totals. |
| CostAggregator.TotalCostSingle | api/route_planner/services/routing.py:236 | The total of one stop is its cost. |
| CostAggregator.PlanTotalIsCents | api/route_planner/services/routing.py:236-237 | The total of any plan is already whole cents, so the missing final quantize changes nothing. |
| RoutePlanning.PlanRoute | api/route_planner/services/routing.py:240-256 | The result carries the route and its distance, the plan chosen from the located candidates (well formed), and their total, which is whole cents. A route no longer than one tank gets no stops and a total of 0. |
| Scenarios.OneStationScenario | api/route_planner/services/routing.py:154-225 | Setup: a 600-mile route, the default 500-mile tank at 10 mpg, and one candidate at mile 460 priced 3.50. Result: one stop with `fuel_needed = total_fuel = 46`, `fuel_for_finish = 14` and cost 210.00. The total is 210.00. |
| Scenarios.ShortRouteScenario | api/route_planner/services/routing.py:114 | A 300-mile route with the default 500-mile tank gets no candidates, no stops and a total of 0. |
| Scenarios.GapBeforeFirstStopScenario | api/route_planner/services/routing.py:154-229 | Setup: a 1200-mile route, the default 500-mile tank at 10 mpg, and one candidate at mile 700 priced 3. The first pass finds nothing reachable and, with no stop yet, loads nothing. The result is one stop with `fuel_needed = total_fuel = 20`, `fuel_for_finish = 50` and cost 210.00. The total is 210.00. |
| Scenarios.GapScenario | api/route_planner/services/routing.py:189-199 | A gap after a 10-gallon stop with the default 500-mile tank at 10 mpg turns it into a 60-gallon stop, costed at its own price. |
| Scenarios.RoundingScenario | api/route_planner/services/routing.py:224 | 12.345 gallons at 3.999 cost 49.37. |
| Scenarios.HalfEvenScenario | api/route_planner/services/routing.py:165 | 0.125 quantizes to 0.12 and 0.375 to 0.38, the even cent on a tie. |

## Left out

- `get_coordinates` and `get_route` (geocoding, the routing HTTP call, the cache) are network I/O. `PlanRoute` takes the route points and the route length as parameters.
- `calculate_distance` (geodesic miles from a geodesy library) is a foreign floating-point computation. It is the parameter `dist`, a pure function of two points. No property of it is assumed; the proofs do not need it to be non-negative.
- The catalog read `FuelStation.objects.all()` is a database query. The catalog is a parameter, read once per walk as in the source.
- StationLocator.FindStationsNearRoute: requires every catalog station to have both coordinates, because `dist` is modelled as a function of two points. At a checkpoint the walk measures the distance to every catalog station (routing.py:119-123). The importer stores a station with null coordinates when geocoding fails. What the geodesy library does with such a station is not part of this model, so catalogs holding one are not covered. A route with no checkpoint never reads coordinates, and that case is not covered either.
- StopOptimizer.OptimizeFuelStops: requires `tank_range > 0` and `mpg != 0` for every input. The source needs them only once the loop does some work:
  - With `route_distance <= 0` the loop at routing.py:154 never runs, and `[]` is returned whatever `tank_range` and `mpg` are.
  - With `tank_range <= 0` and `route_distance > 0` the gap branch never advances, so the source never returns.
  - With `mpg == 0` a division error occurs only when a division at routing.py:160, 191 or 217 runs. A route within one tank with no stop returns `[]` without dividing.
  - The model does not cover the inputs where the source still returns while one of these conditions fails.
- The `RoutePlanner` constructor's start and end addresses, routing URL and geocoder serve only the I/O above. `tank_range` and `mpg` are parameters. Their defaults (routing.py:14) are `RoutePlanning.DefaultTankRange` and `RoutePlanning.DefaultMpg`, which the scenarios use.
- Floating-point arithmetic and the `Decimal(str(x))` conversions are not modelled. Distances, fuel and prices are exact reals. The `Decimal` product is the exact product, then quantized to cents with half-to-even rounding.
- The `print` calls are debugging output only.
- The `if best_station:` guard is always true, since `min` over a non-empty list returns a station. The append is unconditional.
- A stop's `station` entry is the serializer's dictionary of the station. The model keeps the station record itself; only `retail_price` is read from it.
- The last stop dictionary, which the source mutates in place, is modelled as a new sequence with the last element replaced. Nothing else holds a reference to the dictionaries, so no aliasing is lost.
- The in-place `sort` of `nearby_stations` is modelled by its only observed effect: which element comes first (`CheapestIndex`). The reordered list is discarded by the source.
- The `isinstance(total, float)` branch of `calculate_total_cost` never runs: the sum is of `Decimal` costs, or the integer 0 for no stops. It is not modelled.
- The map renderer, the CSV importer, the views, URLs and serializers are outside the planning core.

/** The greedy fuel-stop optimizer (`RoutePlanner.optimize_fuel_stops`).
    The planner's `tank_range` and `mpg` settings are parameters here. */
module StopOptimizer {
  import opened Models
  import opened Dtos
  import opened Decimals

  /** One planned stop: the station record, where it is on the route, the fuel
      loaded there, and what that fuel costs. `fuelForFinish` is absent until the
      finish step back-fills the last stop. */
  datatype Stop = Stop(
    station: FuelStation,
    distanceFromStart: real,
    fuelNeeded: real,
    totalFuel: real,
    cost: real,
    fuelForFinish: Option<real>)

  /** The loop variables of `optimize_fuel_stops`. */
  datatype PlannerState = PlannerState(
    totalDistance: real,
    currentPosition: real,
    currentRange: real,
    optimalStops: seq<Stop>)

  /** What one loop iteration does: break with the final stops, or carry on. */
  datatype StepResult = Finished(stops: seq<Stop>) | Continue(next: PlannerState)

  // ---------------------------------------------------------------------------
  // Selecting the next station

  /** A candidate lies ahead of the current position and within the current range. */
  predicate InWindow(c: StationWithDistance, currentPosition: real, currentRange: real) {
    currentPosition < c.distanceFromStart <= currentPosition + currentRange
  }

  /** The `reachable_stations` comprehension: the candidates in the window, in list order. */
  function ReachableStations(stations: seq<StationWithDistance>, currentPosition: real, currentRange: real)
    : (r: seq<StationWithDistance>)
    ensures forall c :: c in r <==> c in stations && InWindow(c, currentPosition, currentRange)
    ensures |r| <= |stations|
  {
    if |stations| == 0 then []
    else
      var rest := ReachableStations(stations[1..], currentPosition, currentRange);
      assert forall c :: c in stations <==> c == stations[0] || c in stations[1..];
      if InWindow(stations[0], currentPosition, currentRange) then [stations[0]] + rest else rest
  }

  /** The filter keeps the list order: filtering a concatenation concatenates the filtered parts. */
  lemma {:induction false} ReachableStationsAppend(a: seq<StationWithDistance>, b: seq<StationWithDistance>,
                                                   currentPosition: real, currentRange: real)
    ensures ReachableStations(a + b, currentPosition, currentRange)
         == ReachableStations(a, currentPosition, currentRange) + ReachableStations(b, currentPosition, currentRange)
  {
    if |a| > 0 {
      assert (a + b)[1..] == a[1..] + b;
      ReachableStationsAppend(a[1..], b, currentPosition, currentRange);
    } else {
      assert a + b == b;
    }
  }

  /** The blended key of the `min`: the price, raised by the share of a full tank
      spent reaching the station. */
  function Score(c: StationWithDistance, currentPosition: real, tankRange: real): real
    requires tankRange != 0.0
  {
    c.RetailPrice() * (1.0 + (c.distanceFromStart - currentPosition) / tankRange)
  }

  /** The position of the candidate `min(reachable_stations, key=...)` returns:
      a lowest score, and the first one in list order among equal scores. */
  function BestIndex(reachable: seq<StationWithDistance>, currentPosition: real, tankRange: real): (k: nat)
    requires |reachable| > 0 && tankRange != 0.0
    ensures k < |reachable|
    ensures forall j :: 0 <= j < |reachable| ==>
      Score(reachable[k], currentPosition, tankRange) <= Score(reachable[j], currentPosition, tankRange)
    ensures forall j :: 0 <= j < k ==>
      Score(reachable[k], currentPosition, tankRange) < Score(reachable[j], currentPosition, tankRange)
    decreases |reachable|
  {
    if |reachable| == 1 then 0
    else
      var k := BestIndex(reachable[..|reachable| - 1], currentPosition, tankRange);
      var last := |reachable| - 1;
      if Score(reachable[last], currentPosition, tankRange) < Score(reachable[k], currentPosition, tankRange) then last
      else k
  }

  /** The candidate `min(reachable_stations, key=...)` returns. */
  function ChooseBest(reachable: seq<StationWithDistance>, currentPosition: real, tankRange: real)
    : (best: StationWithDistance)
    requires |reachable| > 0 && tankRange != 0.0
    ensures best in reachable
    ensures forall c :: c in reachable ==> Score(best, currentPosition, tankRange) <= Score(c, currentPosition, tankRange)
  {
    reachable[BestIndex(reachable, currentPosition, tankRange)]
  }

  /** The first position of `c` in the candidate list. */
  function FirstIndexOf(stations: seq<StationWithDistance>, c: StationWithDistance): (k: nat)
    requires c in stations
    ensures k < |stations| && stations[k] == c
    ensures forall i :: 0 <= i < k ==> stations[i] != c
  {
    if stations[0] == c then 0 else 1 + FirstIndexOf(stations[1..], c)
  }

  /** An in-window candidate before position `k` is an element of the filter of
      the first `k` candidates. */
  lemma InFilteredPrefix(stations: seq<StationWithDistance>, currentPosition: real, currentRange: real,
                         k: nat, i: nat)
    requires i < k <= |stations| && InWindow(stations[i], currentPosition, currentRange)
    ensures exists j :: 0 <= j < |ReachableStations(stations[..k], currentPosition, currentRange)|
                        && ReachableStations(stations[..k], currentPosition, currentRange)[j] == stations[i]
  {
    assert stations[..k][i] == stations[i];
    assert stations[i] in ReachableStations(stations[..k], currentPosition, currentRange);
  }

  /** The filter of the candidates before the first position of `c` does not contain `c`. */
  lemma NotInFilteredPrefix(stations: seq<StationWithDistance>, currentPosition: real, currentRange: real,
                            c: StationWithDistance)
    requires c in stations
    ensures c !in ReachableStations(stations[..FirstIndexOf(stations, c)], currentPosition, currentRange)
  {
  }

  /** The filter splits at any position. */
  lemma ReachableSplit(stations: seq<StationWithDistance>, currentPosition: real, currentRange: real, k: nat)
    requires k <= |stations|
    ensures ReachableStations(stations, currentPosition, currentRange)
         == ReachableStations(stations[..k], currentPosition, currentRange)
            + ReachableStations(stations[k..], currentPosition, currentRange)
  {
    assert stations == stations[..k] + stations[k..];
    ReachableStationsAppend(stations[..k], stations[k..], currentPosition, currentRange);
  }

  /** The tie-break over the candidate list itself: the chosen candidate sits at
      some position `k`, and every in-window candidate before `k` scores strictly
      higher, so `min` returns the first lowest-score candidate in list order. */
  lemma ChooseBestFirst(stations: seq<StationWithDistance>, currentPosition: real, currentRange: real,
                        tankRange: real)
    requires tankRange != 0.0 && |ReachableStations(stations, currentPosition, currentRange)| > 0
    ensures var best := ChooseBest(ReachableStations(stations, currentPosition, currentRange), currentPosition, tankRange);
      exists k :: 0 <= k < |stations| && best == stations[k] && InWindow(best, currentPosition, currentRange)
        && forall i :: 0 <= i < k && InWindow(stations[i], currentPosition, currentRange) ==>
             Score(best, currentPosition, tankRange) < Score(stations[i], currentPosition, tankRange)
  {
    var r := ReachableStations(stations, currentPosition, currentRange);
    var b := BestIndex(r, currentPosition, tankRange);
    var best := r[b];
    var k := FirstIndexOf(stations, best);
    var before := ReachableStations(stations[..k], currentPosition, currentRange);
    ReachableSplit(stations, currentPosition, currentRange, k);
    NotInFilteredPrefix(stations, currentPosition, currentRange, best);
    assert |before| <= b;
    forall i | 0 <= i < k && InWindow(stations[i], currentPosition, currentRange)
      ensures Score(best, currentPosition, tankRange) < Score(stations[i], currentPosition, tankRange)
    {
      InFilteredPrefix(stations, currentPosition, currentRange, k, i);
      var j :| 0 <= j < |before| && before[j] == stations[i];
      assert r[j] == stations[i];
    }
  }

  // ---------------------------------------------------------------------------
  // The three branches' effect on the stop list

  /** The fuel burnt driving `distance` miles at `mpg` miles per unit of fuel. */
  function FuelFor(distance: real, mpg: real): (fuel: real)
    requires mpg != 0.0
    ensures fuel * mpg == distance
  {
    distance / mpg
  }

  /** The stop appended in the normal branch. */
  function NewStop(best: StationWithDistance, currentPosition: real, mpg: real): Stop
    requires mpg != 0.0
  {
    var fuelNeeded := FuelFor(best.distanceFromStart - currentPosition, mpg);
    Stop(best.station, best.distanceFromStart, fuelNeeded, fuelNeeded,
         FuelCost(fuelNeeded, best.RetailPrice()), None)
  }

  /** The finish branch: the last stop (if any) also carries the fuel for the
      remaining distance. Its `totalFuel` is set to `fuelNeeded` alone, while its
      cost is charged on `fuelNeeded + fuelForFinish`. Earlier stops are untouched. */
  function FinishStops(stops: seq<Stop>, remainingDistance: real, mpg: real): (r: seq<Stop>)
    requires mpg != 0.0
    ensures |r| == |stops|
    ensures forall i :: 0 <= i < |stops| - 1 ==> r[i] == stops[i]
    ensures |stops| > 0 ==>
      var last, patched := stops[|stops| - 1], r[|stops| - 1];
      && patched.station == last.station
      && patched.distanceFromStart == last.distanceFromStart
      && patched.fuelNeeded == last.fuelNeeded
      && patched.fuelForFinish == Some(FuelFor(remainingDistance, mpg))
      && patched.totalFuel == last.fuelNeeded
      && patched.cost == FuelCost(last.fuelNeeded + FuelFor(remainingDistance, mpg), last.station.retailPrice)
  {
    if |stops| == 0 then []
    else
      var last := stops[|stops| - 1];
      var fuelForFinish := FuelFor(remainingDistance, mpg);
      var patched := last.(fuelForFinish := Some(fuelForFinish), totalFuel := last.fuelNeeded);
      stops[..|stops| - 1]
        + [patched.(cost := FuelCost(patched.totalFuel + fuelForFinish, patched.station.retailPrice))]
  }


  /** The gap branch: the last stop (if any) also loads a full tank's worth of fuel
      for the stretch with no reachable station. Earlier stops are untouched. */
  function GapStops(stops: seq<Stop>, tankRange: real, mpg: real): (r: seq<Stop>)
    requires mpg != 0.0
    ensures |r| == |stops|
    ensures forall i :: 0 <= i < |stops| - 1 ==> r[i] == stops[i]
    ensures |stops| > 0 ==>
      var last, patched := stops[|stops| - 1], r[|stops| - 1];
      && patched.station == last.station
      && patched.distanceFromStart == last.distanceFromStart
      && patched.fuelForFinish == last.fuelForFinish
      && patched.fuelNeeded == last.fuelNeeded + FuelFor(tankRange, mpg)
      && patched.totalFuel == patched.fuelNeeded
      && patched.cost == FuelCost(patched.fuelNeeded, last.station.retailPrice)
  {
    if |stops| == 0 then []
    else
      var last := stops[|stops| - 1];
      var fuelNeeded := last.fuelNeeded + FuelFor(tankRange, mpg);
      stops[..|stops| - 1]
        + [last.(fuelNeeded := fuelNeeded, totalFuel := fuelNeeded,
                 cost := FuelCost(fuelNeeded, last.station.retailPrice))]
  }


  // ---------------------------------------------------------------------------
  // The loop as a state machine

  /** What holds whenever the loop condition is evaluated. */
  predicate AtLoopHead(routeDistance: real, tankRange: real, st: PlannerState) {
    && st.totalDistance == st.currentPosition
    && st.currentRange == tankRange
    && st.totalDistance < routeDistance
  }

  /** One iteration of the loop body: the finish, gap or normal branch. A step that
      does not break leaves the loop condition true, so the loop only ever ends
      through the `break`. */
  function Step(routeDistance: real, stations: seq<StationWithDistance>, tankRange: real, mpg: real,
                st: PlannerState): (r: StepResult)
    requires tankRange > 0.0 && mpg != 0.0
    ensures AtLoopHead(routeDistance, tankRange, st) && r.Continue? ==> AtLoopHead(routeDistance, tankRange, r.next)
  {
    var remainingDistance := routeDistance - st.totalDistance;
    if remainingDistance <= st.currentRange then
      Finished(FinishStops(st.optimalStops, remainingDistance, mpg))
    else
      var reachable := ReachableStations(stations, st.currentPosition, st.currentRange);
      if |reachable| == 0 then
        Continue(PlannerState(st.totalDistance + tankRange, st.currentPosition + tankRange, tankRange,
                              GapStops(st.optimalStops, tankRange, mpg)))
      else
        var best := ChooseBest(reachable, st.currentPosition, tankRange);
        Continue(PlannerState(st.totalDistance + (best.distanceFromStart - st.currentPosition),
                              best.distanceFromStart, tankRange,
                              st.optimalStops + [NewStop(best, st.currentPosition, mpg)]))
  }

  /** The normal branch: the stop appended is the first lowest-score candidate in
      the window, it is loaded with the fuel for the distance driven to reach it,
      and the position moves onto it. */
  lemma NormalStep(routeDistance: real, stations: seq<StationWithDistance>, tankRange: real, mpg: real,
                   st: PlannerState)
    requires tankRange > 0.0 && mpg != 0.0 && AtLoopHead(routeDistance, tankRange, st)
    requires routeDistance - st.totalDistance > st.currentRange
    requires |ReachableStations(stations, st.currentPosition, st.currentRange)| > 0
    ensures
      var position := st.currentPosition;
      var best := ChooseBest(ReachableStations(stations, position, tankRange), position, tankRange);
      var s := NewStop(best, position, mpg);
      && Step(routeDistance, stations, tankRange, mpg, st)
         == Continue(PlannerState(st.totalDistance + (best.distanceFromStart - position), best.distanceFromStart,
                                  tankRange, st.optimalStops + [s]))
      && best in stations
      && position < s.distanceFromStart <= position + tankRange
      && (forall c :: c in stations && InWindow(c, position, tankRange) ==>
            Score(best, position, tankRange) <= Score(c, position, tankRange))
      && s.station == best.station
      && s.fuelNeeded == s.totalFuel == FuelFor(s.distanceFromStart - position, mpg)
      && s.cost == FuelCost(s.fuelNeeded, best.RetailPrice())
      && s.fuelForFinish == None
  {
    NormalNext(routeDistance, stations, tankRange, mpg, st,
               ChooseBest(ReachableStations(stations, st.currentPosition, tankRange), st.currentPosition, tankRange));
  }

  /** The gap branch: no candidate is in the window, no stop is appended, only
      the last stop is patched, and the position advances by one tank range. */
  lemma GapStep(routeDistance: real, stations: seq<StationWithDistance>, tankRange: real, mpg: real,
                st: PlannerState)
    requires tankRange > 0.0 && mpg != 0.0
    requires routeDistance - st.totalDistance > st.currentRange
    requires |ReachableStations(stations, st.currentPosition, st.currentRange)| == 0
    ensures forall c :: c in stations ==> !InWindow(c, st.currentPosition, st.currentRange)
    ensures Step(routeDistance, stations, tankRange, mpg, st)
         == Continue(PlannerState(st.totalDistance + tankRange, st.currentPosition + tankRange, tankRange,
                                  GapStops(st.optimalStops, tankRange, mpg)))
  {
    GapNext(routeDistance, stations, tankRange, mpg, st);
  }

  /** The state after the normal branch, in the loop's own terms. */
  lemma NormalNext(routeDistance: real, stations: seq<StationWithDistance>, tankRange: real, mpg: real,
                   st: PlannerState, best: StationWithDistance)
    requires tankRange > 0.0 && mpg != 0.0 && AtLoopHead(routeDistance, tankRange, st)
    requires routeDistance - st.totalDistance > st.currentRange
    requires |ReachableStations(stations, st.currentPosition, st.currentRange)| > 0
    requires best == ChooseBest(ReachableStations(stations, st.currentPosition, st.currentRange), st.currentPosition, tankRange)
    ensures Step(routeDistance, stations, tankRange, mpg, st)
         == Continue(PlannerState(st.totalDistance + (best.distanceFromStart - st.currentPosition), best.distanceFromStart,
                                  tankRange, st.optimalStops + [NewStop(best, st.currentPosition, mpg)]))
  {
  }

  /** The state after the gap branch, in the loop's own terms. */
  lemma GapNext(routeDistance: real, stations: seq<StationWithDistance>, tankRange: real, mpg: real,
                st: PlannerState)
    requires tankRange > 0.0 && mpg != 0.0
    requires routeDistance - st.totalDistance > st.currentRange
    requires |ReachableStations(stations, st.currentPosition, st.currentRange)| == 0
    ensures Step(routeDistance, stations, tankRange, mpg, st)
         == Continue(PlannerState(st.totalDistance + tankRange, st.currentPosition + tankRange, tankRange,
                                  GapStops(st.optimalStops, tankRange, mpg)))
  {
  }

  /** The number of candidates still ahead of `position`. */
  function CountBeyond(stations: seq<StationWithDistance>, position: real): (n: nat)
    ensures n <= |stations|
  {
    if |stations| == 0 then 0
    else (if stations[0].distanceFromStart > position then 1 else 0) + CountBeyond(stations[1..], position)
  }

  lemma {:induction false} CountBeyondMonotone(stations: seq<StationWithDistance>, p: real, q: real)
    requires p <= q
    ensures CountBeyond(stations, q) <= CountBeyond(stations, p)
  {
    if |stations| > 0 {
      CountBeyondMonotone(stations[1..], p, q);
    }
  }

  /** Moving onto a candidate ahead leaves strictly fewer candidates ahead. */
  lemma {:induction false} CountBeyondDrops(stations: seq<StationWithDistance>, p: real, c: StationWithDistance)
    requires c in stations && p < c.distanceFromStart
    ensures CountBeyond(stations, c.distanceFromStart) < CountBeyond(stations, p)
  {
    if stations[0] == c {
      CountBeyondMonotone(stations[1..], p, c.distanceFromStart);
    } else {
      CountBeyondDrops(stations[1..], p, c);
    }
  }

  /** How many whole tank ranges are still left to the destination. */
  function RangesLeft(routeDistance: real, totalDistance: real, tankRange: real): int
    requires tankRange > 0.0
  {
    ((routeDistance - totalDistance) / tankRange).Floor
  }

  lemma MulCancel(u: real, v: real, t: real)
    requires t > 0.0 && u * t == v * t
    ensures u == v
  {
  }

  /** One tank range less to go is one whole range fewer left. */
  lemma RangesLeftShift(a: real, tankRange: real)
    requires tankRange > 0.0
    ensures (a - tankRange) / tankRange == a / tankRange - 1.0
  {
    var u := (a - tankRange) / tankRange;
    var v := a / tankRange - 1.0;
    assert u * tankRange == a - tankRange;
    assert (a / tankRange) * tankRange == a;
    assert v * tankRange == a - tankRange;
    MulCancel(u, v, tankRange);
  }

  lemma DivPositive(a: real, tankRange: real)
    requires tankRange > 0.0 && a > 0.0
    ensures a / tankRange > 0.0
  {
  }

  /** Every step that does not break decreases the measure (candidates ahead,
      tank ranges left) lexicographically, so the loop terminates. */
  lemma StepDecreases(routeDistance: real, stations: seq<StationWithDistance>, tankRange: real, mpg: real,
                      st: PlannerState)
    requires tankRange > 0.0 && mpg != 0.0
    requires AtLoopHead(routeDistance, tankRange, st)
    ensures 0 <= RangesLeft(routeDistance, st.totalDistance, tankRange)
    ensures Step(routeDistance, stations, tankRange, mpg, st).Continue? ==>
      var next := Step(routeDistance, stations, tankRange, mpg, st).next;
      || CountBeyond(stations, next.currentPosition) < CountBeyond(stations, st.currentPosition)
      || (&& CountBeyond(stations, next.currentPosition) == CountBeyond(stations, st.currentPosition)
          && RangesLeft(routeDistance, next.totalDistance, tankRange)
             < RangesLeft(routeDistance, st.totalDistance, tankRange))
  {
    var a := routeDistance - st.totalDistance;
    DivPositive(a, tankRange);
    var r := Step(routeDistance, stations, tankRange, mpg, st);
    if r.Continue? {
      var reachable := ReachableStations(stations, st.currentPosition, st.currentRange);
      if |reachable| == 0 {
        CountBeyondMonotone(stations, st.currentPosition, r.next.currentPosition);
        RangesLeftShift(a, tankRange);
        assert routeDistance - r.next.totalDistance == a - tankRange;
      } else {
        var best := ChooseBest(reachable, st.currentPosition, tankRange);
        CountBeyondDrops(stations, st.currentPosition, best);
      }
    }
  }

  /** The stops the loop returns when it is entered in state `st`. */
  function PlanFrom(routeDistance: real, stations: seq<StationWithDistance>, tankRange: real, mpg: real,
                    st: PlannerState): seq<Stop>
    requires tankRange > 0.0 && mpg != 0.0
    requires AtLoopHead(routeDistance, tankRange, st)
    decreases CountBeyond(stations, st.currentPosition), RangesLeft(routeDistance, st.totalDistance, tankRange)
  {
    StepDecreases(routeDistance, stations, tankRange, mpg, st);
    match Step(routeDistance, stations, tankRange, mpg, st)
    case Finished(stops) => stops
    case Continue(next) => PlanFrom(routeDistance, stations, tankRange, mpg, next)
  }

  /** The loop breaks, returning the back-filled stops, exactly when the rest of
      the route fits in the current range. */
  lemma PlanFromFinish(routeDistance: real, stations: seq<StationWithDistance>, tankRange: real, mpg: real,
                       st: PlannerState, remainingDistance: real)
    requires tankRange > 0.0 && mpg != 0.0 && AtLoopHead(routeDistance, tankRange, st)
    requires remainingDistance == routeDistance - st.totalDistance <= st.currentRange
    ensures PlanFrom(routeDistance, stations, tankRange, mpg, st)
         == FinishStops(st.optimalStops, remainingDistance, mpg)
  {
  }

  /** A step that does not break: the loop condition still holds, the loop
      returns the same stops from the next state, and the measure drops. */
  lemma ContinueStep(routeDistance: real, stations: seq<StationWithDistance>, tankRange: real, mpg: real,
                     st: PlannerState, next: PlannerState)
    requires tankRange > 0.0 && mpg != 0.0 && AtLoopHead(routeDistance, tankRange, st)
    requires Step(routeDistance, stations, tankRange, mpg, st) == Continue(next)
    ensures AtLoopHead(routeDistance, tankRange, next)
    ensures PlanFrom(routeDistance, stations, tankRange, mpg, st) == PlanFrom(routeDistance, stations, tankRange, mpg, next)
    ensures 0 <= RangesLeft(routeDistance, st.totalDistance, tankRange)
    ensures || CountBeyond(stations, next.currentPosition) < CountBeyond(stations, st.currentPosition)
            || (&& CountBeyond(stations, next.currentPosition) == CountBeyond(stations, st.currentPosition)
                && RangesLeft(routeDistance, next.totalDistance, tankRange)
                   < RangesLeft(routeDistance, st.totalDistance, tankRange))
  {
    StepDecreases(routeDistance, stations, tankRange, mpg, st);
  }

  /** The stops `optimize_fuel_stops` returns. */
  function Plan(routeDistance: real, stations: seq<StationWithDistance>, tankRange: real, mpg: real): seq<Stop>
    requires tankRange > 0.0 && mpg != 0.0
  {
    if 0.0 < routeDistance then
      PlanFrom(routeDistance, stations, tankRange, mpg, PlannerState(0.0, 0.0, tankRange, []))
    else []
  }

  // ---------------------------------------------------------------------------
  // Properties of the plan

  predicate StrictlyIncreasing(stops: seq<Stop>) {
    forall i, j :: 0 <= i < j < |stops| ==> stops[i].distanceFromStart < stops[j].distanceFromStart
  }

  /** The stop is one of the candidates, at the candidate's own distance. */
  predicate FromCandidate(s: Stop, stations: seq<StationWithDistance>) {
    exists c :: c in stations && c.station == s.station && c.distanceFromStart == s.distanceFromStart
  }

  /** The fuel a stop is charged for: the fuel it loads, plus the finish fuel once
      the finish step has back-filled it. */
  function ChargedFuel(s: Stop): real {
    s.fuelNeeded + (if s.fuelForFinish.Some? then s.fuelForFinish.value else 0.0)
  }

  /** A stop is one of the candidates; its cost is the charged fuel at the
      station's price, quantized to cents; and the fuel it records as loaded is
      the fuel it needs: no branch ever sets `total_fuel` to anything but
      `fuel_needed`, not even the finish step, which charges for more. */
  predicate GoodStop(s: Stop, stations: seq<StationWithDistance>) {
    && FromCandidate(s, stations)
    && s.cost == FuelCost(ChargedFuel(s), s.station.retailPrice)
    && IsCents(s.cost)
    && s.totalFuel == s.fuelNeeded
  }

  /** What the returned stops satisfy. */
  predicate WellFormedPlan(stops: seq<Stop>, stations: seq<StationWithDistance>) {
    && StrictlyIncreasing(stops)
    && |stops| <= |stations|
    && forall s :: s in stops ==> GoodStop(s, stations)
  }

  /** What the stops built so far satisfy at each loop head: every stop lies at or
      behind the current position, none has been back-filled yet, and each stop
      used up a candidate that is no longer ahead. */
  predicate PlanSoFar(stations: seq<StationWithDistance>, currentPosition: real, stops: seq<Stop>) {
    && StrictlyIncreasing(stops)
    && (forall s :: s in stops ==>
          s.distanceFromStart <= currentPosition && s.fuelForFinish == None && GoodStop(s, stations))
    && |stops| + CountBeyond(stations, currentPosition) <= |stations|
  }

  lemma PatchKeepsPlan(stops: seq<Stop>, r: seq<Stop>, stations: seq<StationWithDistance>, position: real)
    requires |r| == |stops|
    requires forall i :: 0 <= i < |stops| - 1 ==> r[i] == stops[i]
    requires |stops| > 0 ==>
      && r[|stops| - 1].station == stops[|stops| - 1].station
      && r[|stops| - 1].distanceFromStart == stops[|stops| - 1].distanceFromStart
      && r[|stops| - 1].cost == FuelCost(ChargedFuel(r[|stops| - 1]), r[|stops| - 1].station.retailPrice)
      && r[|stops| - 1].totalFuel == r[|stops| - 1].fuelNeeded
    requires StrictlyIncreasing(stops)
    requires forall s :: s in stops ==> s.distanceFromStart <= position && GoodStop(s, stations)
    ensures StrictlyIncreasing(r)
    ensures forall s :: s in r ==> s.distanceFromStart <= position && GoodStop(s, stations)
    ensures (forall s :: s in stops ==> s.fuelForFinish == None)
            && (|stops| > 0 ==> r[|stops| - 1].fuelForFinish == None)
            ==> forall s :: s in r ==> s.fuelForFinish == None
  {
    forall s | s in r
      ensures s.distanceFromStart <= position && GoodStop(s, stations)
      ensures (forall t :: t in stops ==> t.fuelForFinish == None)
              && (|stops| > 0 ==> r[|stops| - 1].fuelForFinish == None)
              ==> s.fuelForFinish == None
    {
      var i :| 0 <= i < |r| && r[i] == s;
      assert stops[i] in stops;
    }
  }

  lemma AppendKeepsPlan(stations: seq<StationWithDistance>, currentPosition: real, stops: seq<Stop>,
                        best: StationWithDistance, mpg: real)
    requires mpg != 0.0
    requires PlanSoFar(stations, currentPosition, stops)
    requires best in stations && currentPosition < best.distanceFromStart
    ensures PlanSoFar(stations, best.distanceFromStart, stops + [NewStop(best, currentPosition, mpg)])
  {
    var s := NewStop(best, currentPosition, mpg);
    CountBeyondDrops(stations, currentPosition, best);
    assert FromCandidate(s, stations);
    var r := stops + [s];
    forall x | x in r
      ensures x.distanceFromStart <= best.distanceFromStart && GoodStop(x, stations)
    {
      if x != s { assert x in stops; }
    }
  }

  lemma StepKeepsPlanSoFar(routeDistance: real, stations: seq<StationWithDistance>, tankRange: real, mpg: real,
                           st: PlannerState)
    requires tankRange > 0.0 && mpg != 0.0
    requires AtLoopHead(routeDistance, tankRange, st) && PlanSoFar(stations, st.currentPosition, st.optimalStops)
    ensures match Step(routeDistance, stations, tankRange, mpg, st)
            case Finished(stops) => WellFormedPlan(stops, stations)
            case Continue(next) => PlanSoFar(stations, next.currentPosition, next.optimalStops)
  {
    var stops := st.optimalStops;
    var remainingDistance := routeDistance - st.totalDistance;
    if remainingDistance <= st.currentRange {
      var r := FinishStops(stops, remainingDistance, mpg);
      PatchKeepsPlan(stops, r, stations, st.currentPosition);
      assert Step(routeDistance, stations, tankRange, mpg, st) == Finished(r);
    } else {
      var reachable := ReachableStations(stations, st.currentPosition, st.currentRange);
      if |reachable| == 0 {
        var r := GapStops(stops, tankRange, mpg);
        GapNext(routeDistance, stations, tankRange, mpg, st);
        PatchKeepsPlan(stops, r, stations, st.currentPosition);
        CountBeyondMonotone(stations, st.currentPosition, st.currentPosition + tankRange);
        assert PlanSoFar(stations, st.currentPosition + tankRange, r);
      } else {
        var best := ChooseBest(reachable, st.currentPosition, tankRange);
        NormalNext(routeDistance, stations, tankRange, mpg, st, best);
        AppendKeepsPlan(stations, st.currentPosition, stops, best, mpg);
      }
    }
  }

  lemma {:induction false} PlanFromWellFormed(routeDistance: real, stations: seq<StationWithDistance>,
                                              tankRange: real, mpg: real, st: PlannerState)
    requires tankRange > 0.0 && mpg != 0.0
    requires AtLoopHead(routeDistance, tankRange, st) && PlanSoFar(stations, st.currentPosition, st.optimalStops)
    ensures WellFormedPlan(PlanFrom(routeDistance, stations, tankRange, mpg, st), stations)
    decreases CountBeyond(stations, st.currentPosition), RangesLeft(routeDistance, st.totalDistance, tankRange)
  {
    StepKeepsPlanSoFar(routeDistance, stations, tankRange, mpg, st);
    StepDecreases(routeDistance, stations, tankRange, mpg, st);
    match Step(routeDistance, stations, tankRange, mpg, st)
    case Finished(stops) =>
    case Continue(next) => PlanFromWellFormed(routeDistance, stations, tankRange, mpg, next);
  }

  /** The whole plan: stops strictly increase along the route, each is one of the
      candidates, there are never more stops than candidates, every cost is the
      charged fuel at that station's price quantized to cents (on the last stop
      the charged fuel includes the finish fuel, which `totalFuel` does not), and
      a route no longer than one tank range needs no stop. */
  lemma PlanWellFormed(routeDistance: real, stations: seq<StationWithDistance>, tankRange: real, mpg: real)
    requires tankRange > 0.0 && mpg != 0.0
    ensures WellFormedPlan(Plan(routeDistance, stations, tankRange, mpg), stations)
    ensures routeDistance <= tankRange ==> Plan(routeDistance, stations, tankRange, mpg) == []
  {
    if 0.0 < routeDistance {
      PlanFromWellFormed(routeDistance, stations, tankRange, mpg, PlannerState(0.0, 0.0, tankRange, []));
    }
  }

  // ---------------------------------------------------------------------------
  // Fuel accounting

  /** The fuel the stops are charged for, in total. */
  function FuelSum(stops: seq<Stop>): real {
    if |stops| == 0 then 0.0 else FuelSum(stops[..|stops| - 1]) + ChargedFuel(stops[|stops| - 1])
  }

  lemma FuelSumSnoc(stops: seq<Stop>, s: Stop)
    ensures FuelSum(stops + [s]) == FuelSum(stops) + ChargedFuel(s)
  {
    assert (stops + [s])[..|stops|] == stops;
  }

  /** Replacing only the last stop changes the total by the change in its charged fuel. */
  lemma FuelSumPatchLast(stops: seq<Stop>, r: seq<Stop>)
    requires |r| == |stops| > 0
    requires forall i :: 0 <= i < |stops| - 1 ==> r[i] == stops[i]
    ensures FuelSum(r) == FuelSum(stops) - ChargedFuel(stops[|stops| - 1]) + ChargedFuel(r[|r| - 1])
  {
    assert r[..|r| - 1] == stops[..|stops| - 1];
  }

  /** The finish step charges the last stop for the rest of the route too. */
  lemma FinishFuel(stops: seq<Stop>, remainingDistance: real, mpg: real)
    requires mpg != 0.0 && |stops| > 0 && stops[|stops| - 1].fuelForFinish == None
    ensures FuelSum(FinishStops(stops, remainingDistance, mpg)) == FuelSum(stops) + FuelFor(remainingDistance, mpg)
  {
    FuelSumPatchLast(stops, FinishStops(stops, remainingDistance, mpg));
  }

  /** The gap branch charges the last stop for one more tank range. */
  lemma GapFuel(stops: seq<Stop>, tankRange: real, mpg: real)
    requires mpg != 0.0 && |stops| > 0
    ensures FuelSum(GapStops(stops, tankRange, mpg)) == FuelSum(stops) + FuelFor(tankRange, mpg)
  {
    var r := GapStops(stops, tankRange, mpg);
    FuelSumPatchLast(stops, r);
    assert ChargedFuel(r[|r| - 1]) == ChargedFuel(stops[|stops| - 1]) + FuelFor(tankRange, mpg);
  }

  /** The fuel for two stretches is the fuel for both together. */
  lemma FuelForAdd(a: real, b: real, c: real, mpg: real)
    requires mpg != 0.0 && c == a + b
    ensures FuelFor(a, mpg) + FuelFor(b, mpg) == FuelFor(c, mpg)
  {
    var x, y, z := FuelFor(a, mpg), FuelFor(b, mpg), FuelFor(c, mpg);
    assert (x + y) * mpg == x * mpg + y * mpg;
    assert (x + y - z) * mpg == 0.0;
  }

  /** Once there is a stop, a pass that does not break charges it (or the new
      stop) for exactly the distance the position advances. */
  lemma ContinueFuel(routeDistance: real, stations: seq<StationWithDistance>, tankRange: real, mpg: real,
                     st: PlannerState, next: PlannerState)
    requires tankRange > 0.0 && mpg != 0.0 && AtLoopHead(routeDistance, tankRange, st)
    requires |st.optimalStops| > 0 && st.optimalStops[|st.optimalStops| - 1].fuelForFinish == None
    requires Step(routeDistance, stations, tankRange, mpg, st) == Continue(next)
    ensures |next.optimalStops| > 0 && next.optimalStops[|next.optimalStops| - 1].fuelForFinish == None
    ensures FuelSum(next.optimalStops)
         == FuelSum(st.optimalStops) + FuelFor(next.currentPosition - st.currentPosition, mpg)
  {
    var reachable := ReachableStations(stations, st.currentPosition, st.currentRange);
    if |reachable| == 0 {
      GapNext(routeDistance, stations, tankRange, mpg, st);
      GapFuel(st.optimalStops, tankRange, mpg);
      assert next.currentPosition - st.currentPosition == tankRange;
    } else {
      var best := ChooseBest(reachable, st.currentPosition, tankRange);
      NormalNext(routeDistance, stations, tankRange, mpg, st, best);
      FuelSumSnoc(st.optimalStops, NewStop(best, st.currentPosition, mpg));
    }
  }

  /** From a loop head with at least one stop, none back-filled, whose stops are
      charged for the fuel for the miles from `lead` to the current position, the
      returned stops are charged for the fuel for the miles from `lead` to the
      destination. */
  lemma {:induction false} PlanFromFuel(routeDistance: real, stations: seq<StationWithDistance>, tankRange: real,
                                        mpg: real, st: PlannerState, lead: real)
    requires tankRange > 0.0 && mpg != 0.0 && AtLoopHead(routeDistance, tankRange, st)
    requires |st.optimalStops| > 0 && st.optimalStops[|st.optimalStops| - 1].fuelForFinish == None
    requires FuelSum(st.optimalStops) == FuelFor(st.currentPosition - lead, mpg)
    ensures |PlanFrom(routeDistance, stations, tankRange, mpg, st)| > 0
    ensures FuelSum(PlanFrom(routeDistance, stations, tankRange, mpg, st)) == FuelFor(routeDistance - lead, mpg)
    decreases CountBeyond(stations, st.currentPosition), RangesLeft(routeDistance, st.totalDistance, tankRange)
  {
    StepDecreases(routeDistance, stations, tankRange, mpg, st);
    match Step(routeDistance, stations, tankRange, mpg, st)
    case Finished(stops) =>
      var remainingDistance := routeDistance - st.totalDistance;
      PlanFromFinish(routeDistance, stations, tankRange, mpg, st, remainingDistance);
      FinishFuel(st.optimalStops, remainingDistance, mpg);
      FuelForAdd(st.currentPosition - lead, remainingDistance, routeDistance - lead, mpg);
    case Continue(next) =>
      var d := next.currentPosition - st.currentPosition;
      ContinueStep(routeDistance, stations, tankRange, mpg, st, next);
      ContinueFuel(routeDistance, stations, tankRange, mpg, st, next);
      FuelForAdd(st.currentPosition - lead, d, next.currentPosition - lead, mpg);
      PlanFromFuel(routeDistance, stations, tankRange, mpg, next, lead);
  }

  /** With a candidate within the first range on a route longer than that range,
      the first pass is a normal one: it leads to a loop head with one stop, not
      back-filled, charged for the fuel to reach it from the start. */
  lemma FirstStop(routeDistance: real, stations: seq<StationWithDistance>, tankRange: real, mpg: real)
      returns (st1: PlannerState)
    requires tankRange > 0.0 && mpg != 0.0 && tankRange < routeDistance
    requires exists c :: c in stations && 0.0 < c.distanceFromStart <= tankRange
    ensures AtLoopHead(routeDistance, tankRange, st1)
    ensures |st1.optimalStops| == 1 && st1.optimalStops[0].fuelForFinish == None
    ensures FuelSum(st1.optimalStops) == FuelFor(st1.currentPosition - 0.0, mpg)
    ensures Plan(routeDistance, stations, tankRange, mpg) == PlanFrom(routeDistance, stations, tankRange, mpg, st1)
  {
    var st0 := PlannerState(0.0, 0.0, tankRange, []);
    var c :| c in stations && 0.0 < c.distanceFromStart <= tankRange;
    var reachable := ReachableStations(stations, 0.0, tankRange);
    assert c in reachable;
    var best := ChooseBest(reachable, 0.0, tankRange);
    var s := NewStop(best, 0.0, mpg);
    NormalNext(routeDistance, stations, tankRange, mpg, st0, best);
    assert [] + [s] == [s];
    st1 := PlannerState(best.distanceFromStart, best.distanceFromStart, tankRange, [s]);
    ContinueStep(routeDistance, stations, tankRange, mpg, st0, st1);
    assert FuelSum([s]) == FuelSum([]) + ChargedFuel(s);
  }

  /** Fuel accounting for the whole plan: on a route longer than one tank range
      with a candidate within the first range, there is a stop, and the stops are
      charged together for exactly the fuel that covers the route at `mpg`: each
      stop for the stretch driven to reach it (the first from the start), gap
      stretches included, and the last stop also for the rest of the route. */
  lemma PlanFuel(routeDistance: real, stations: seq<StationWithDistance>, tankRange: real, mpg: real)
    requires tankRange > 0.0 && mpg != 0.0 && tankRange < routeDistance
    requires exists c :: c in stations && 0.0 < c.distanceFromStart <= tankRange
    ensures |Plan(routeDistance, stations, tankRange, mpg)| > 0
    ensures FuelSum(Plan(routeDistance, stations, tankRange, mpg)) == FuelFor(routeDistance, mpg)
  {
    var st1 := FirstStop(routeDistance, stations, tankRange, mpg);
    PlanFromFuel(routeDistance, stations, tankRange, mpg, st1, 0.0);
    assert routeDistance - 0.0 == routeDistance;
  }

  /** What holds each time `optimize_fuel_stops` evaluates its loop condition:
      on a route of positive length the loop is at its head and will return the
      plan; otherwise nothing has happened yet. */
  predicate LoopInvariant(routeDistance: real, stations: seq<StationWithDistance>, tankRange: real, mpg: real,
                          st: PlannerState)
    requires tankRange > 0.0 && mpg != 0.0
  {
    && 0.0 <= st.totalDistance
    && (0.0 < routeDistance ==>
          && AtLoopHead(routeDistance, tankRange, st)
          && PlanFrom(routeDistance, stations, tankRange, mpg, st) == Plan(routeDistance, stations, tankRange, mpg))
    && (routeDistance <= 0.0 ==> st == PlannerState(0.0, 0.0, tankRange, []))
  }

  /** The loop invariant holds on entry. */
  lemma InvariantInit(routeDistance: real, stations: seq<StationWithDistance>, tankRange: real, mpg: real)
    requires tankRange > 0.0 && mpg != 0.0
    ensures LoopInvariant(routeDistance, stations, tankRange, mpg, PlannerState(0.0, 0.0, tankRange, []))
  {
  }

  /** A pass that does not break keeps the loop invariant, and lowers the measure. */
  lemma InvariantContinues(routeDistance: real, stations: seq<StationWithDistance>, tankRange: real, mpg: real,
                           st: PlannerState, next: PlannerState)
    requires tankRange > 0.0 && mpg != 0.0 && LoopInvariant(routeDistance, stations, tankRange, mpg, st)
    requires st.totalDistance < routeDistance
    requires Step(routeDistance, stations, tankRange, mpg, st) == Continue(next)
    ensures LoopInvariant(routeDistance, stations, tankRange, mpg, next)
    ensures 0 <= RangesLeft(routeDistance, st.totalDistance, tankRange)
    ensures || CountBeyond(stations, next.currentPosition) < CountBeyond(stations, st.currentPosition)
            || (&& CountBeyond(stations, next.currentPosition) == CountBeyond(stations, st.currentPosition)
                && RangesLeft(routeDistance, next.totalDistance, tankRange)
                   < RangesLeft(routeDistance, st.totalDistance, tankRange))
  {
    ContinueStep(routeDistance, stations, tankRange, mpg, st, next);
  }

  /** The finish branch returns the plan. */
  lemma InvariantFinish(routeDistance: real, stations: seq<StationWithDistance>, tankRange: real, mpg: real,
                        st: PlannerState, remainingDistance: real)
    requires tankRange > 0.0 && mpg != 0.0 && LoopInvariant(routeDistance, stations, tankRange, mpg, st)
    requires st.totalDistance < routeDistance
    requires remainingDistance == routeDistance - st.totalDistance <= st.currentRange
    ensures FinishStops(st.optimalStops, remainingDistance, mpg) == Plan(routeDistance, stations, tankRange, mpg)
  {
    PlanFromFinish(routeDistance, stations, tankRange, mpg, st, remainingDistance);
  }

  // ---------------------------------------------------------------------------
  // The method

  method OptimizeFuelStops(routeDistance: real, stations: seq<StationWithDistance>, tankRange: real, mpg: real)
    returns (optimalStops: seq<Stop>)
    requires tankRange > 0.0 && mpg != 0.0
    ensures optimalStops == Plan(routeDistance, stations, tankRange, mpg)
  {
    var currentRange := tankRange;
    var totalDistance := 0.0;
    optimalStops := [];
    var currentPosition := 0.0;

    InvariantInit(routeDistance, stations, tankRange, mpg);
    while totalDistance < routeDistance
      invariant LoopInvariant(routeDistance, stations, tankRange, mpg,
                              PlannerState(totalDistance, currentPosition, currentRange, optimalStops))
      decreases CountBeyond(stations, currentPosition), RangesLeft(routeDistance, totalDistance, tankRange)
    {
      ghost var st := PlannerState(totalDistance, currentPosition, currentRange, optimalStops);
      var remainingDistance := routeDistance - totalDistance;
      if remainingDistance <= currentRange {
        InvariantFinish(routeDistance, stations, tankRange, mpg, st, remainingDistance);
        optimalStops := FinishStops(optimalStops, remainingDistance, mpg);
        break;
      }

      var reachableStations := ReachableStations(stations, currentPosition, currentRange);
      if |reachableStations| == 0 {
        // No candidate in range: carry a full tank's worth from the last stop.
        GapNext(routeDistance, stations, tankRange, mpg, st);
        optimalStops := GapStops(optimalStops, tankRange, mpg);
        totalDistance := totalDistance + tankRange;
        currentPosition := currentPosition + tankRange;
        currentRange := tankRange;
      } else {
        var bestStation := ChooseBest(reachableStations, currentPosition, tankRange);
        NormalNext(routeDistance, stations, tankRange, mpg, st, bestStation);
        var stop := NewStop(bestStation, currentPosition, mpg);
        optimalStops := optimalStops + [stop];
        totalDistance := totalDistance + (bestStation.distanceFromStart - currentPosition);
        currentPosition := bestStation.distanceFromStart;
        currentRange := tankRange;
      }
      InvariantContinues(routeDistance, stations, tankRange, mpg, st,
                         PlannerState(totalDistance, currentPosition, currentRange, optimalStops));
    }
  }
}

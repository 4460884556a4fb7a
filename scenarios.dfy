/** Worked examples of the planner on concrete inputs. */
module Scenarios {
  import opened Models
  import opened Dtos
  import opened Decimals
  import opened StationLocator
  import opened StopOptimizer
  import opened CostAggregator
  import opened RoutePlanning

  /** A 600-mile route, the default 500-mile tank at 10 mpg, and one candidate at mile 460
      priced 3.50: one stop loading 46 gallons, back-filled with 14 gallons for the
      last 140 miles and charged 210.00 for all 60 gallons; its `totalFuel` stays 46. */
  lemma OneStationScenario(station: FuelStation)
    requires station.retailPrice == 3.5
    ensures var stations := [StationWithDistance(station, 460.0)];
      && Plan(600.0, stations, DefaultTankRange, DefaultMpg) == [Stop(station, 460.0, 46.0, 46.0, 210.0, Some(14.0))]
      && TotalCost(Plan(600.0, stations, DefaultTankRange, DefaultMpg)) == 210.0
  {
    assert DefaultTankRange == 500.0 && DefaultMpg == 10.0;
    var c := StationWithDistance(station, 460.0);
    var stations := [c];
    var st0 := PlannerState(0.0, 0.0, 500.0, []);
    assert ReachableStations(stations, 0.0, 500.0) == [c];
    assert ChooseBest([c], 0.0, 500.0) == c;
    assert FuelFor(460.0, 10.0) == 46.0;
    assert IsCents(161.0);
    assert FuelCost(46.0, 3.5) == 161.0;
    var s := Stop(station, 460.0, 46.0, 46.0, 161.0, None);
    assert NewStop(c, 0.0, 10.0) == s;
    var st1 := PlannerState(460.0, 460.0, 500.0, [s]);
    NormalNext(600.0, stations, 500.0, 10.0, st0, c);
    ContinueStep(600.0, stations, 500.0, 10.0, st0, st1);
    assert FuelFor(140.0, 10.0) == 14.0;
    assert IsCents(210.0);
    assert FuelCost(46.0 + 14.0, 3.5) == 210.0;
    PlanFromFinish(600.0, stations, 500.0, 10.0, st1, 140.0);
    TotalCostSingle(Stop(station, 460.0, 46.0, 46.0, 210.0, Some(14.0)));
  }

  /** A 300-mile route with the default 500-mile tank: no candidate is searched for, no stop
      is planned, and the total is zero, whatever the catalog. */
  lemma ShortRouteScenario(routePoints: seq<Point>, catalog: seq<FuelStation>, dist: (Point, Point) -> real)
    requires Located(catalog)
    ensures Locate(routePoints, 300.0, catalog, DefaultTankRange, dist, DefaultMaxDistance) == []
    ensures forall stations :: Plan(300.0, stations, DefaultTankRange, DefaultMpg) == []
    ensures TotalCost([]) == 0.0
  {
    LocateSound(routePoints, 300.0, catalog, DefaultTankRange, dist, DefaultMaxDistance);
    forall stations ensures Plan(300.0, stations, DefaultTankRange, DefaultMpg) == [] {
      PlanWellFormed(300.0, stations, DefaultTankRange, DefaultMpg);
    }
  }

  /** A stretch with no reachable candidate after a stop at mile 100 that needed
      10 gallons: with the default 500-mile tank at 10 mpg the stop now loads 60 gallons,
      and its cost is recomputed for 60 gallons at its own price. */
  lemma GapScenario(station: FuelStation, cost: real)
    ensures GapStops([Stop(station, 100.0, 10.0, 10.0, cost, None)], DefaultTankRange, DefaultMpg)
         == [Stop(station, 100.0, 60.0, 60.0, FuelCost(60.0, station.retailPrice), None)]
  {
    assert FuelFor(500.0, 10.0) == 50.0;
  }

  /** A 1200-mile route, the default 500-mile tank at 10 mpg, and one candidate at mile 700
      priced 3: nothing is reachable from the start, and with no stop yet the gap
      branch loads no fuel and records no stop, only moving on to mile 500. From
      there the candidate gets 20 gallons, back-filled with 50 for the last 500
      miles: the plan buys 70 gallons, charged 210.00, for a trip that burns 120. */
  lemma GapBeforeFirstStopScenario(station: FuelStation)
    requires station.retailPrice == 3.0
    ensures var stations := [StationWithDistance(station, 700.0)];
      && Plan(1200.0, stations, DefaultTankRange, DefaultMpg) == [Stop(station, 700.0, 20.0, 20.0, 210.0, Some(50.0))]
      && TotalCost(Plan(1200.0, stations, DefaultTankRange, DefaultMpg)) == 210.0
  {
    assert DefaultTankRange == 500.0 && DefaultMpg == 10.0;
    var c := StationWithDistance(station, 700.0);
    var stations := [c];
    var st0 := PlannerState(0.0, 0.0, 500.0, []);
    assert ReachableStations(stations, 0.0, 500.0) == [];
    assert GapStops([], 500.0, 10.0) == [];
    var st1 := PlannerState(500.0, 500.0, 500.0, []);
    GapNext(1200.0, stations, 500.0, 10.0, st0);
    ContinueStep(1200.0, stations, 500.0, 10.0, st0, st1);
    assert ReachableStations(stations, 500.0, 500.0) == [c];
    assert ChooseBest([c], 500.0, 500.0) == c;
    assert FuelFor(200.0, 10.0) == 20.0;
    assert IsCents(60.0);
    assert FuelCost(20.0, 3.0) == 60.0;
    var s := Stop(station, 700.0, 20.0, 20.0, 60.0, None);
    assert NewStop(c, 500.0, 10.0) == s;
    var st2 := PlannerState(700.0, 700.0, 500.0, [s]);
    NormalNext(1200.0, stations, 500.0, 10.0, st1, c);
    ContinueStep(1200.0, stations, 500.0, 10.0, st1, st2);
    assert FuelFor(500.0, 10.0) == 50.0;
    assert IsCents(210.0);
    assert FuelCost(20.0 + 50.0, 3.0) == 210.0;
    PlanFromFinish(1200.0, stations, 500.0, 10.0, st2, 500.0);
    TotalCostSingle(Stop(station, 700.0, 20.0, 20.0, 210.0, Some(50.0)));
  }

  /** 12.345 gallons at 3.999 cost 49.367655, which is 49.37 to the cent. */
  lemma RoundingScenario()
    ensures FuelCost(12.345, 3.999) == 49.37
  {
    assert IsCents(49.37) by {
      assert 49.37 * 100.0 == 4937.0;
    }
    RoundCentsUnique(12.345 * 3.999, 49.37);
  }

  /** Halfway values go to the even cent: 0.125 to 0.12 and 0.375 to 0.38. */
  lemma HalfEvenScenario()
    ensures RoundCents(0.125) == 0.12
    ensures RoundCents(0.375) == 0.38
  {
    assert IsHalfCent(0.125) && IsEvenCents(0.12) by {
      assert 0.125 * 100.0 == 12.5 && (12.5).Floor == 12;
      assert 0.12 * 100.0 == 12.0;
    }
    RoundCentsUnique(0.125, 0.12);
    assert IsHalfCent(0.375) && IsEvenCents(0.38) by {
      assert 0.375 * 100.0 == 37.5 && (37.5).Floor == 37;
      assert 0.38 * 100.0 == 38.0;
    }
    RoundCentsUnique(0.375, 0.38);
  }
}

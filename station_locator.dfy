/** The candidate search (`RoutePlanner.find_stations_near_route`): walk the route
    polyline, and each time the distance driven since the last checkpoint comes
    within `CheckpointMargin` of a full tank, pick the cheapest catalog station
    within `maxDistance` of that route point. The station catalog and the
    point-to-point distance (geodesic miles in the original) are parameters. */
module StationLocator {
  import opened Models
  import opened Dtos

  /** A checkpoint fires once this many miles or fewer of tank range are left. */
  const CheckpointMargin: real := 50.0

  /** The default search radius around a checkpoint, in miles. */
  const DefaultMaxDistance: real := 30.0

  /** Every catalog station has both coordinates, as the distance computation needs. */
  predicate Located(catalog: seq<FuelStation>) {
    forall s :: s in catalog ==> s.HasPosition()
  }

  /** The station lies within the search radius of `target`. */
  predicate InRadius(s: FuelStation, target: Point, maxDistance: real, dist: (Point, Point) -> real)
    requires s.HasPosition()
  {
    dist(target, s.Position()) <= maxDistance
  }

  /** The candidate built for a station found near `target`, where `offset` is the
      route distance travelled to reach `target`. */
  function Candidate(s: FuelStation, target: Point, offset: real, dist: (Point, Point) -> real)
    : (c: StationWithDistance)
    requires s.HasPosition()
    ensures c.station == s && c.RetailPrice() == s.retailPrice
    ensures c.distanceFromStart == offset + dist(target, s.Position())
  {
    StationWithDistance(s, offset + dist(target, s.Position()))
  }

  // ---------------------------------------------------------------------------
  // One checkpoint

  /** The `nearby_stations` list: a candidate for every in-radius station, in
      catalog order. */
  function Nearby(catalog: seq<FuelStation>, target: Point, offset: real, maxDistance: real,
                  dist: (Point, Point) -> real): (r: seq<StationWithDistance>)
    requires Located(catalog)
    ensures |r| <= |catalog|
    ensures forall c :: c in r ==>
      c.station in catalog && InRadius(c.station, target, maxDistance, dist)
      && c == Candidate(c.station, target, offset, dist)
  {
    if |catalog| == 0 then []
    else
      var last := catalog[|catalog| - 1];
      var rest := Nearby(catalog[..|catalog| - 1], target, offset, maxDistance, dist);
      if InRadius(last, target, maxDistance, dist) then rest + [Candidate(last, target, offset, dist)]
      else rest
  }

  /** The index of the element that `sort(key=retail_price)` moves to the front:
      the sort is stable, so it is the first candidate with the lowest price. */
  function CheapestIndex(nearby: seq<StationWithDistance>): (k: nat)
    requires |nearby| > 0
    ensures k < |nearby|
    ensures forall j :: 0 <= j < |nearby| ==> nearby[k].RetailPrice() <= nearby[j].RetailPrice()
    ensures forall j :: 0 <= j < k ==> nearby[k].RetailPrice() < nearby[j].RetailPrice()
  {
    if |nearby| == 1 then 0
    else
      var k := CheapestIndex(nearby[..|nearby| - 1]);
      var last := |nearby| - 1;
      if nearby[last].RetailPrice() < nearby[k].RetailPrice() then last else k
  }

  /** What a checkpoint appends: the front of the price-sorted list, or nothing
      when no station was found. */
  function Pick(nearby: seq<StationWithDistance>): (found: seq<StationWithDistance>)
    ensures |nearby| == 0 <==> found == []
  {
    if |nearby| > 0 then [nearby[CheapestIndex(nearby)]] else []
  }

  /** Appending one candidate moves the front of the sort to it only when it is
      strictly cheaper than the current front. */
  lemma CheapestIndexSnoc(nearby: seq<StationWithDistance>, c: StationWithDistance)
    requires |nearby| > 0
    ensures CheapestIndex(nearby + [c])
         == if c.RetailPrice() < nearby[CheapestIndex(nearby)].RetailPrice() then |nearby| else CheapestIndex(nearby)
  {
    assert (nearby + [c])[..|nearby|] == nearby;
  }

  /** Catalog station `j` is the one the checkpoint at `target` picks: it is in
      radius, no in-radius station is cheaper, and every in-radius station before
      it in the catalog is strictly dearer. */
  predicate IsCheapestAt(catalog: seq<FuelStation>, j: int, target: Point, maxDistance: real,
                         dist: (Point, Point) -> real)
    requires Located(catalog)
  {
    && 0 <= j < |catalog|
    && InRadius(catalog[j], target, maxDistance, dist)
    && (forall i :: 0 <= i < |catalog| && InRadius(catalog[i], target, maxDistance, dist) ==>
          catalog[j].retailPrice <= catalog[i].retailPrice)
    && (forall i :: 0 <= i < j && InRadius(catalog[i], target, maxDistance, dist) ==>
          catalog[j].retailPrice < catalog[i].retailPrice)
  }

  /** The catalog's earlier stations are those of its prefix, and all are located. */
  lemma PrefixLocated(catalog: seq<FuelStation>, n: int)
    requires Located(catalog) && 0 <= n <= |catalog|
    ensures Located(catalog[..n])
    ensures forall i :: 0 <= i < n ==> catalog[..n][i] == catalog[i]
  {
    forall s | s in catalog[..n] ensures s.HasPosition() {
      var i :| 0 <= i < n && catalog[..n][i] == s;
      assert catalog[i] in catalog;
    }
  }

  /** A choice over the first `n` stations stays the choice when station `n` is
      out of radius or not strictly cheaper. */
  lemma CheapestKept(catalog: seq<FuelStation>, n: int, j: int, target: Point, maxDistance: real,
                     dist: (Point, Point) -> real)
    requires Located(catalog) && n == |catalog| - 1 >= 0
    requires Located(catalog[..n]) && IsCheapestAt(catalog[..n], j, target, maxDistance, dist)
    requires InRadius(catalog[n], target, maxDistance, dist) ==> catalog[j].retailPrice <= catalog[n].retailPrice
    ensures IsCheapestAt(catalog, j, target, maxDistance, dist)
  {
    PrefixLocated(catalog, n);
    forall i | 0 <= i < |catalog| && InRadius(catalog[i], target, maxDistance, dist)
      ensures catalog[j].retailPrice <= catalog[i].retailPrice
    {
      if i < n {
        assert catalog[..n][i] == catalog[i];
      }
    }
  }

  /** Station `n` becomes the choice when it is in radius and strictly cheaper
      than every in-radius station before it. */
  lemma CheapestNew(catalog: seq<FuelStation>, n: int, target: Point, maxDistance: real,
                    dist: (Point, Point) -> real)
    requires Located(catalog) && n == |catalog| - 1 >= 0
    requires InRadius(catalog[n], target, maxDistance, dist)
    requires forall i :: 0 <= i < n && InRadius(catalog[i], target, maxDistance, dist) ==>
               catalog[n].retailPrice < catalog[i].retailPrice
    ensures IsCheapestAt(catalog, n, target, maxDistance, dist)
  {
  }

  /** The checkpoint finds nothing exactly when no station is in radius; otherwise
      the front of the sorted list is the cheapest in-radius station, earliest in
      the catalog among equal prices. */
  lemma {:induction false} NearbyCheapest(catalog: seq<FuelStation>, target: Point, offset: real,
                                          maxDistance: real, dist: (Point, Point) -> real)
    requires Located(catalog)
    ensures var nearby := Nearby(catalog, target, offset, maxDistance, dist);
      && (|nearby| == 0 <==> forall i :: 0 <= i < |catalog| ==> !InRadius(catalog[i], target, maxDistance, dist))
      && (|nearby| > 0 ==> exists j :: IsCheapestAt(catalog, j, target, maxDistance, dist)
                                  && nearby[CheapestIndex(nearby)] == Candidate(catalog[j], target, offset, dist))
  {
    if |catalog| > 0 {
      var n := |catalog| - 1;
      var pre, last := catalog[..n], catalog[n];
      PrefixLocated(catalog, n);
      NearbyCheapest(pre, target, offset, maxDistance, dist);
      var before := Nearby(pre, target, offset, maxDistance, dist);
      if InRadius(last, target, maxDistance, dist) {
        var c := Candidate(last, target, offset, dist);
        var nearby := before + [c];
        if |before| == 0 {
          assert nearby[CheapestIndex(nearby)] == c;
          CheapestNew(catalog, n, target, maxDistance, dist);
        } else {
          CheapestIndexSnoc(before, c);
          var j :| IsCheapestAt(pre, j, target, maxDistance, dist)
                   && before[CheapestIndex(before)] == Candidate(pre[j], target, offset, dist);
          if last.retailPrice < pre[j].retailPrice {
            CheapestNew(catalog, n, target, maxDistance, dist);
          } else {
            CheapestKept(catalog, n, j, target, maxDistance, dist);
          }
        }
      } else if |before| > 0 {
        var j :| IsCheapestAt(pre, j, target, maxDistance, dist)
                 && before[CheapestIndex(before)] == Candidate(pre[j], target, offset, dist);
        CheapestKept(catalog, n, j, target, maxDistance, dist);
      }
    }
  }

  /** No in-radius station is missed: every catalog station within the radius
      appears in `nearby_stations`, wrapped at its own distance from the start. */
  lemma {:induction false} NearbyComplete(catalog: seq<FuelStation>, target: Point, offset: real,
                                          maxDistance: real, dist: (Point, Point) -> real)
    requires Located(catalog)
    ensures forall s :: s in catalog && InRadius(s, target, maxDistance, dist) ==>
      Candidate(s, target, offset, dist) in Nearby(catalog, target, offset, maxDistance, dist)
  {
    if |catalog| > 0 {
      var n := |catalog| - 1;
      var pre, last := catalog[..n], catalog[n];
      PrefixLocated(catalog, n);
      NearbyComplete(pre, target, offset, maxDistance, dist);
      assert catalog == pre + [last];
      forall s | s in catalog && InRadius(s, target, maxDistance, dist)
        ensures Candidate(s, target, offset, dist) in Nearby(catalog, target, offset, maxDistance, dist)
      {
        if s != last {
          assert s in pre;
        }
      }
    }
  }

  // ---------------------------------------------------------------------------
  // The walk along the route

  /** The loop variables of `find_stations_near_route`. */
  datatype ScanState = ScanState(
    currentDistance: real,
    currentDistanceFromStart: real,
    stationsNearRoute: seq<StationWithDistance>)

  /** The length of the segment that ends at route point `i`. */
  function Segment(routePoints: seq<Point>, dist: (Point, Point) -> real, i: int): real
    requires 1 <= i < |routePoints|
  {
    dist(routePoints[i - 1], routePoints[i])
  }

  /** The route distance from the first point to point `i`: the sum of the first `i` segments. */
  function PathLength(routePoints: seq<Point>, dist: (Point, Point) -> real, i: int): real
    requires 0 <= i < |routePoints|
  {
    if i == 0 then 0.0 else PathLength(routePoints, dist, i - 1) + Segment(routePoints, dist, i)
  }

  /** Route point `i` is a checkpoint for a walk in state `st`: with its segment
      added, the distance since the last checkpoint is within the margin of a full
      tank, and the route is longer than one tank. */
  predicate IsCheckpoint(routePoints: seq<Point>, routeDistance: real, tankRange: real,
                         dist: (Point, Point) -> real, i: int, st: ScanState)
    requires 1 <= i < |routePoints|
  {
    && st.currentDistance + Segment(routePoints, dist, i) >= tankRange - CheckpointMargin
    && routeDistance > tankRange
  }

  /** One pass of the loop body, for route point `i`. */
  function ScanPoint(routePoints: seq<Point>, routeDistance: real, catalog: seq<FuelStation>, tankRange: real,
                     dist: (Point, Point) -> real, maxDistance: real, i: int, st: ScanState): (r: ScanState)
    requires Located(catalog) && 1 <= i < |routePoints|
    ensures r.currentDistanceFromStart == st.currentDistanceFromStart + Segment(routePoints, dist, i)
    ensures |st.stationsNearRoute| <= |r.stationsNearRoute| <= |st.stationsNearRoute| + 1
  {
    var segmentDistance := Segment(routePoints, dist, i);
    var currentDistance := st.currentDistance + segmentDistance;
    var currentDistanceFromStart := st.currentDistanceFromStart + segmentDistance;
    if IsCheckpoint(routePoints, routeDistance, tankRange, dist, i, st) then
      var nearby := Nearby(catalog, routePoints[i], currentDistanceFromStart, maxDistance, dist);
      ScanState(0.0, currentDistanceFromStart, st.stationsNearRoute + Pick(nearby))
    else
      ScanState(currentDistance, currentDistanceFromStart, st.stationsNearRoute)
  }

  /** The loop variables when the loop is about to handle route point `n`
      (after points `1 .. n-1`). */
  function Scan(routePoints: seq<Point>, routeDistance: real, catalog: seq<FuelStation>, tankRange: real,
                dist: (Point, Point) -> real, maxDistance: real, n: int): ScanState
    requires Located(catalog) && 1 <= n && (n <= |routePoints| || n == 1)
  {
    if n == 1 then ScanState(0.0, 0.0, [])
    else ScanPoint(routePoints, routeDistance, catalog, tankRange, dist, maxDistance, n - 1,
                   Scan(routePoints, routeDistance, catalog, tankRange, dist, maxDistance, n - 1))
  }

  /** The index just past the last route point the loop handles. */
  function End(routePoints: seq<Point>): (n: int)
    ensures 1 <= n && (n <= |routePoints| || n == 1)
  {
    if |routePoints| == 0 then 1 else |routePoints|
  }

  /** The list `find_stations_near_route` returns. */
  function Locate(routePoints: seq<Point>, routeDistance: real, catalog: seq<FuelStation>, tankRange: real,
                  dist: (Point, Point) -> real, maxDistance: real): seq<StationWithDistance>
    requires Located(catalog)
  {
    Scan(routePoints, routeDistance, catalog, tankRange, dist, maxDistance, End(routePoints)).stationsNearRoute
  }

  /** The candidate a checkpoint at route point `i` emits, if any. */
  function Found(routePoints: seq<Point>, catalog: seq<FuelStation>, dist: (Point, Point) -> real,
                 maxDistance: real, i: int): seq<StationWithDistance>
    requires Located(catalog) && 1 <= i < |routePoints|
  {
    Pick(Nearby(catalog, routePoints[i], PathLength(routePoints, dist, i), maxDistance, dist))
  }

  // ---------------------------------------------------------------------------
  // Properties of the walk

  /** `current_distance_from_start` is never reset: it is the route length so far. */
  lemma {:induction false} ScanDistanceFromStart(routePoints: seq<Point>, routeDistance: real,
                                                 catalog: seq<FuelStation>, tankRange: real,
                                                 dist: (Point, Point) -> real, maxDistance: real, n: int)
    requires Located(catalog) && 1 <= n && (n <= |routePoints| || n == 1)
    ensures n <= |routePoints| ==>
      Scan(routePoints, routeDistance, catalog, tankRange, dist, maxDistance, n).currentDistanceFromStart
      == PathLength(routePoints, dist, n - 1)
  {
    if n > 1 {
      ScanDistanceFromStart(routePoints, routeDistance, catalog, tankRange, dist, maxDistance, n - 1);
    }
  }

  /** `current_distance` and the checkpoint decisions do not depend on the catalog:
      the counter is reset at every checkpoint whether or not a station is found. */
  lemma {:induction false} CheckpointsIgnoreCatalog(routePoints: seq<Point>, routeDistance: real,
                                                    catalog1: seq<FuelStation>, catalog2: seq<FuelStation>,
                                                    tankRange: real, dist: (Point, Point) -> real,
                                                    maxDistance: real, n: int)
    requires Located(catalog1) && Located(catalog2) && 1 <= n && (n <= |routePoints| || n == 1)
    ensures Scan(routePoints, routeDistance, catalog1, tankRange, dist, maxDistance, n).currentDistance
         == Scan(routePoints, routeDistance, catalog2, tankRange, dist, maxDistance, n).currentDistance
  {
    if n > 1 {
      CheckpointsIgnoreCatalog(routePoints, routeDistance, catalog1, catalog2, tankRange, dist, maxDistance, n - 1);
    }
  }

  /** Each step emits at most one candidate, and only at a checkpoint; exactly the
      one `Found` names for that point. */
  lemma {:induction false} ScanStepEmits(routePoints: seq<Point>, routeDistance: real, catalog: seq<FuelStation>, tankRange: real,
                      dist: (Point, Point) -> real, maxDistance: real, n: int)
    requires Located(catalog) && 1 <= n < |routePoints|
    ensures var st := Scan(routePoints, routeDistance, catalog, tankRange, dist, maxDistance, n);
      Scan(routePoints, routeDistance, catalog, tankRange, dist, maxDistance, n + 1).stationsNearRoute
      == st.stationsNearRoute
         + (if IsCheckpoint(routePoints, routeDistance, tankRange, dist, n, st)
            then Found(routePoints, catalog, dist, maxDistance, n) else [])
  {
    ScanDistanceFromStart(routePoints, routeDistance, catalog, tankRange, dist, maxDistance, n);
  }

  /** At most one candidate per route point after the first. */
  lemma {:induction false} ScanLength(routePoints: seq<Point>, routeDistance: real, catalog: seq<FuelStation>,
                                      tankRange: real, dist: (Point, Point) -> real, maxDistance: real, n: int)
    requires Located(catalog) && 1 <= n && (n <= |routePoints| || n == 1)
    ensures |Scan(routePoints, routeDistance, catalog, tankRange, dist, maxDistance, n).stationsNearRoute| <= n - 1
  {
    if n > 1 {
      ScanLength(routePoints, routeDistance, catalog, tankRange, dist, maxDistance, n - 1);
    }
  }

  /** On a route no longer than one tank there is no checkpoint and no candidate. */
  lemma {:induction false} ScanShortRoute(routePoints: seq<Point>, routeDistance: real, catalog: seq<FuelStation>,
                                          tankRange: real, dist: (Point, Point) -> real, maxDistance: real, n: int)
    requires Located(catalog) && 1 <= n && (n <= |routePoints| || n == 1)
    requires routeDistance <= tankRange
    ensures Scan(routePoints, routeDistance, catalog, tankRange, dist, maxDistance, n).stationsNearRoute == []
  {
    if n > 1 {
      ScanShortRoute(routePoints, routeDistance, catalog, tankRange, dist, maxDistance, n - 1);
    }
  }

  /** A candidate is in the list after point `n - 1` exactly when some earlier
      route point was a checkpoint whose search found it. */
  lemma {:induction false} ScanEmitted(routePoints: seq<Point>, routeDistance: real, catalog: seq<FuelStation>,
                                       tankRange: real, dist: (Point, Point) -> real, maxDistance: real, n: int,
                                       c: StationWithDistance)
    requires Located(catalog) && 1 <= n <= |routePoints|
    ensures c in Scan(routePoints, routeDistance, catalog, tankRange, dist, maxDistance, n).stationsNearRoute
        <==> exists i :: 1 <= i < n
                       && IsCheckpoint(routePoints, routeDistance, tankRange, dist, i,
                                       Scan(routePoints, routeDistance, catalog, tankRange, dist, maxDistance, i))
                       && c in Found(routePoints, catalog, dist, maxDistance, i)
  {
    if n > 1 {
      ScanEmitted(routePoints, routeDistance, catalog, tankRange, dist, maxDistance, n - 1, c);
      ScanStepEmits(routePoints, routeDistance, catalog, tankRange, dist, maxDistance, n - 1);
    }
  }

  /** The whole result: empty for a route no longer than one tank, at most one
      candidate per route point after the first, and each candidate is the
      cheapest in-radius station of a checkpoint (earliest in the catalog among
      equal prices), at the route distance of that checkpoint plus its offset. */
  lemma {:induction false} LocateSound(routePoints: seq<Point>, routeDistance: real, catalog: seq<FuelStation>, tankRange: real,
                    dist: (Point, Point) -> real, maxDistance: real)
    requires Located(catalog)
    ensures var r := Locate(routePoints, routeDistance, catalog, tankRange, dist, maxDistance);
      && (routeDistance <= tankRange ==> r == [])
      && |r| <= End(routePoints) - 1
      && (forall c :: c in r ==>
            exists i, j :: 1 <= i < |routePoints|
                        && IsCheckpoint(routePoints, routeDistance, tankRange, dist, i,
                                        Scan(routePoints, routeDistance, catalog, tankRange, dist, maxDistance, i))
                        && IsCheapestAt(catalog, j, routePoints[i], maxDistance, dist)
                        && c == Candidate(catalog[j], routePoints[i], PathLength(routePoints, dist, i), dist))
  {
    var n := End(routePoints);
    ScanLength(routePoints, routeDistance, catalog, tankRange, dist, maxDistance, n);
    if routeDistance <= tankRange {
      ScanShortRoute(routePoints, routeDistance, catalog, tankRange, dist, maxDistance, n);
    }
    var r := Locate(routePoints, routeDistance, catalog, tankRange, dist, maxDistance);
    forall c | c in r
      ensures exists i, j :: 1 <= i < |routePoints|
                          && IsCheckpoint(routePoints, routeDistance, tankRange, dist, i,
                                          Scan(routePoints, routeDistance, catalog, tankRange, dist, maxDistance, i))
                          && IsCheapestAt(catalog, j, routePoints[i], maxDistance, dist)
                          && c == Candidate(catalog[j], routePoints[i], PathLength(routePoints, dist, i), dist)
    {
      ScanEmitted(routePoints, routeDistance, catalog, tankRange, dist, maxDistance, n, c);
      var i :| 1 <= i < n
               && IsCheckpoint(routePoints, routeDistance, tankRange, dist, i,
                               Scan(routePoints, routeDistance, catalog, tankRange, dist, maxDistance, i))
               && c in Found(routePoints, catalog, dist, maxDistance, i);
      NearbyCheapest(catalog, routePoints[i], PathLength(routePoints, dist, i), maxDistance, dist);
    }
  }

  // ---------------------------------------------------------------------------
  // The method

  /** The loop body at a checkpoint, in the method's own terms: the distance
      counter restarts and the checkpoint's pick is appended. */
  lemma {:induction false} ScanPointAtCheckpoint(routePoints: seq<Point>, routeDistance: real, catalog: seq<FuelStation>,
                              tankRange: real, dist: (Point, Point) -> real, maxDistance: real, i: int,
                              currentDistanceFromStart: real, nearby: seq<StationWithDistance>)
    requires Located(catalog) && 1 <= i < |routePoints|
    requires IsCheckpoint(routePoints, routeDistance, tankRange, dist, i,
                          Scan(routePoints, routeDistance, catalog, tankRange, dist, maxDistance, i))
    requires currentDistanceFromStart
          == Scan(routePoints, routeDistance, catalog, tankRange, dist, maxDistance, i).currentDistanceFromStart
             + Segment(routePoints, dist, i)
    requires nearby == Nearby(catalog, routePoints[i], currentDistanceFromStart, maxDistance, dist)
    ensures Scan(routePoints, routeDistance, catalog, tankRange, dist, maxDistance, i + 1)
         == ScanState(0.0, currentDistanceFromStart,
                      Scan(routePoints, routeDistance, catalog, tankRange, dist, maxDistance, i).stationsNearRoute
                      + Pick(nearby))
  {
  }

  /** The loop body away from a checkpoint, in the method's own terms: both
      distance counters grow by the segment length. */
  lemma {:induction false} ScanPointElsewhere(routePoints: seq<Point>, routeDistance: real, catalog: seq<FuelStation>,
                           tankRange: real, dist: (Point, Point) -> real, maxDistance: real, i: int)
    requires Located(catalog) && 1 <= i < |routePoints|
    requires !IsCheckpoint(routePoints, routeDistance, tankRange, dist, i,
                           Scan(routePoints, routeDistance, catalog, tankRange, dist, maxDistance, i))
    ensures var st := Scan(routePoints, routeDistance, catalog, tankRange, dist, maxDistance, i);
      Scan(routePoints, routeDistance, catalog, tankRange, dist, maxDistance, i + 1)
      == ScanState(st.currentDistance + Segment(routePoints, dist, i),
                   st.currentDistanceFromStart + Segment(routePoints, dist, i), st.stationsNearRoute)
  {
  }

  /** The inner loop of a checkpoint: one pass over the catalog, keeping the
      stations within `maxDistance` of `target` in catalog order. */
  method CollectNearby(catalog: seq<FuelStation>, target: Point, offset: real, maxDistance: real,
                       dist: (Point, Point) -> real)
    returns (nearbyStations: seq<StationWithDistance>)
    requires Located(catalog)
    ensures nearbyStations == Nearby(catalog, target, offset, maxDistance, dist)
  {
    nearbyStations := [];
    for k := 0 to |catalog|
      invariant nearbyStations == Nearby(catalog[..k], target, offset, maxDistance, dist)
    {
      assert catalog[..k + 1][..k] == catalog[..k];
      var station := catalog[k];
      var distanceToStation := dist(target, station.Position());
      if distanceToStation <= maxDistance {
        nearbyStations := nearbyStations + [StationWithDistance(station, offset + distanceToStation)];
      }
    }
    assert catalog[..|catalog|] == catalog;
  }

  /** What a checkpoint does: collect the stations near `target`, sort them by
      price and append the first one, if any, to the stations found so far. */
  method VisitCheckpoint(catalog: seq<FuelStation>, target: Point, offset: real, maxDistance: real,
                         dist: (Point, Point) -> real, stationsNearRoute: seq<StationWithDistance>)
    returns (found: seq<StationWithDistance>)
    requires Located(catalog)
    ensures found == stationsNearRoute + Pick(Nearby(catalog, target, offset, maxDistance, dist))
  {
    var nearbyStations := CollectNearby(catalog, target, offset, maxDistance, dist);
    found := stationsNearRoute;
    if |nearbyStations| > 0 {
      found := found + [nearbyStations[CheapestIndex(nearbyStations)]];
    }
  }

  method FindStationsNearRoute(routePoints: seq<Point>, routeDistance: real, catalog: seq<FuelStation>,
                               tankRange: real, dist: (Point, Point) -> real, maxDistance: real)
    returns (stationsNearRoute: seq<StationWithDistance>)
    requires Located(catalog)
    ensures stationsNearRoute == Locate(routePoints, routeDistance, catalog, tankRange, dist, maxDistance)
  {
    stationsNearRoute := [];
    var currentDistance := 0.0;
    var currentDistanceFromStart := 0.0;

    var i := 1;
    while i < |routePoints|
      invariant 1 <= i && (i <= |routePoints| || i == 1)
      invariant Scan(routePoints, routeDistance, catalog, tankRange, dist, maxDistance, i)
             == ScanState(currentDistance, currentDistanceFromStart, stationsNearRoute)
    {
      var segmentDistance := dist(routePoints[i - 1], routePoints[i]);
      currentDistance := currentDistance + segmentDistance;
      currentDistanceFromStart := currentDistanceFromStart + segmentDistance;

      if currentDistance >= tankRange - CheckpointMargin && routeDistance > tankRange {
        stationsNearRoute := VisitCheckpoint(catalog, routePoints[i], currentDistanceFromStart, maxDistance, dist,
                                             stationsNearRoute);
        ScanPointAtCheckpoint(routePoints, routeDistance, catalog, tankRange, dist, maxDistance, i,
                              currentDistanceFromStart, Nearby(catalog, routePoints[i], currentDistanceFromStart,
                                                               maxDistance, dist));
        // The counter restarts from this checkpoint, whether or not a station was found.
        currentDistance := 0.0;
      } else {
        ScanPointElsewhere(routePoints, routeDistance, catalog, tankRange, dist, maxDistance, i);
      }
      i := i + 1;
    }
  }
}

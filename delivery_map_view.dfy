/**
 * The route and marker logic of the delivery map screen: which deliveries are sequenced, the
 * polyline built from the sequencer's order, the marker colours and the list of points the
 * map is fitted to. Rendering itself is not modelled.
 */
module DeliveryMapView {
  import opened Wrappers
  import opened DeliveryTypes
  import opened LocationService

  /** Marker colours of the light palette (constants/colors.ts). */
  const MarkerPendingColor := "#F77F00"
  const MarkerInProgressColor := "#00A896"
  const MarkerCompletedColor := "#028090"
  const TextSecondaryColor := "#6C757D"

  /** `getMarkerColor`: one colour per handled status, the secondary text colour otherwise. */
  function MarkerColor(status: DeliveryStatus): (color: string)
    ensures color == MarkerPendingColor <==> status == Pending
    ensures color == MarkerInProgressColor <==> status == InProgress
    ensures color == MarkerCompletedColor <==> status == Completed
    ensures color == TextSecondaryColor <==> status == Cancelled
  {
    match status
    case Pending => MarkerPendingColor
    case InProgress => MarkerInProgressColor
    case Completed => MarkerCompletedColor
    case _ => TextSecondaryColor
  }

  /** The points the map is fitted to: every delivery's location, then the driver's if known. */
  function FitCoordinates(deliveries: seq<Delivery>, currentLocation: Option<Location>): (coords: seq<Location>)
    ensures |coords| == |deliveries| + (if currentLocation.Some? then 1 else 0)
    ensures forall i :: 0 <= i < |deliveries| ==> coords[i] == deliveries[i].customer.location
    ensures currentLocation.Some? ==> coords[|deliveries|] == currentLocation.value
  {
    var coordinates := seq(|deliveries|, i requires 0 <= i < |deliveries| => deliveries[i].customer.location);
    match currentLocation
    case Some(here) => coordinates + [here]
    case None => coordinates
  }

  /** The `{id, location}` pairs handed to the sequencer, one per delivery, in order. */
  function StopsOf(ds: seq<Delivery>): (stops: seq<Stop>)
    ensures |stops| == |ds|
    ensures forall i :: 0 <= i < |ds| ==> stops[i] == Stop(ds[i].id, ds[i].customer.location)
  {
    seq(|ds|, i requires 0 <= i < |ds| => Stop(ds[i].id, ds[i].customer.location))
  }

  /**
   * The locations pushed for an order of ids: for each id, the location of the first pending
   * delivery carrying it; ids that match none are skipped. Defined on the prefix already
   * visited, as the `forEach` runs.
   */
  function FoundLocations(pending: seq<Delivery>, order: seq<string>): (locs: seq<Location>)
    ensures |locs| <= |order|
    decreases |order|
  {
    if order == [] then []
    else
      var n := |order| - 1;
      FoundLocations(pending, order[..n])
        + match FindById(pending, order[n])
          case None => []
          case Some(d) => [d.customer.location]
  }

  /** When every id matches a pending delivery, each id contributes exactly its location. */
  lemma {:induction false} FoundLocationsAllFound(pending: seq<Delivery>, order: seq<string>)
    requires forall i :: 0 <= i < |order| ==> FirstWithId(pending, order[i]).Some?
    ensures var locs := FoundLocations(pending, order);
      |locs| == |order|
      && forall i :: 0 <= i < |order| ==> locs[i] == pending[FirstWithId(pending, order[i]).value].customer.location
    decreases |order|
  {
    if order != [] {
      var n := |order| - 1;
      var prefix := order[..n];
      assert forall i :: 0 <= i < n ==> prefix[i] == order[i];
      FoundLocationsAllFound(pending, prefix);
      var k := FirstWithId(pending, order[n]).value;
      assert FindById(pending, order[n]) == Some(pending[k]);
      var before := FoundLocations(pending, prefix);
      var locs := FoundLocations(pending, order);
      assert locs == before + [pending[k].customer.location];
      forall i | 0 <= i < |order|
        ensures locs[i] == pending[FirstWithId(pending, order[i]).value].customer.location
      {
        if i < n {
          assert locs[i] == before[i];
        }
      }
    }
  }

  /** The polyline computed from the driver's position through the given pending deliveries. */
  function RouteThrough(km: Haversine, currentLocation: Location, pending: seq<Delivery>): seq<Location>
  {
    [currentLocation] + FoundLocations(pending, Ids(GreedyTour(km, currentLocation, StopsOf(pending))))
  }

  /** The polyline computed from the driver's position and the PENDING deliveries among `deliveries`. */
  function OptimalRoute(km: Haversine, currentLocation: Location, deliveries: seq<Delivery>): seq<Location>
  {
    RouteThrough(km, currentLocation, WithStatus(deliveries, Pending))
  }

  /** A stop of the tour came from some pending delivery with the same id and location. */
  lemma TourStopFromPending(km: Haversine, from: Location, pending: seq<Delivery>, i: nat)
    requires i < |pending|
    ensures var s := GreedyTour(km, from, StopsOf(pending))[i];
      exists m :: 0 <= m < |pending| && pending[m].id == s.id && pending[m].customer.location == s.location
  {
    var stops := StopsOf(pending);
    GreedyTourIsPermutation(km, from, stops);
    var s := GreedyTour(km, from, stops)[i];
    assert s in multiset(stops);
    var m :| 0 <= m < |stops| && stops[m] == s;
  }

  /**
   * The route starts at the driver and has one more point than there are pending deliveries;
   * every later point is the location of the first pending delivery with the id the sequencer
   * put there.
   */
  lemma RouteShape(km: Haversine, currentLocation: Location, pending: seq<Delivery>)
    ensures var order := Ids(GreedyTour(km, currentLocation, StopsOf(pending)));
      var route := RouteThrough(km, currentLocation, pending);
      && |route| == |pending| + 1
      && route[0] == currentLocation
      && forall i :: 0 <= i < |order| ==>
           FirstWithId(pending, order[i]).Some?
           && route[i + 1] == pending[FirstWithId(pending, order[i]).value].customer.location
  {
    var tour := GreedyTour(km, currentLocation, StopsOf(pending));
    var order := Ids(tour);
    forall i | 0 <= i < |order|
      ensures FirstWithId(pending, order[i]).Some?
    {
      TourStopFromPending(km, currentLocation, pending, i);
      var m :| 0 <= m < |pending| && pending[m].id == tour[i].id && pending[m].customer.location == tour[i].location;
      assert pending[m].id == order[i];
    }
    FoundLocationsAllFound(pending, order);
  }

  /** Pending deliveries with pairwise different ids. */
  predicate DistinctIds(ds: seq<Delivery>)
  {
    forall i, j :: 0 <= i < j < |ds| ==> ds[i].id != ds[j].id
  }

  /** With distinct ids, the polyline runs from the driver through the greedy tour's stops in order. */
  lemma RouteFollowsTour(km: Haversine, currentLocation: Location, pending: seq<Delivery>)
    requires DistinctIds(pending)
    ensures var tour := GreedyTour(km, currentLocation, StopsOf(pending));
      var route := RouteThrough(km, currentLocation, pending);
      |route| == |tour| + 1 && forall i :: 0 <= i < |tour| ==> route[i + 1] == tour[i].location
  {
    var tour := GreedyTour(km, currentLocation, StopsOf(pending));
    RouteShape(km, currentLocation, pending);
    forall i | 0 <= i < |tour|
      ensures RouteThrough(km, currentLocation, pending)[i + 1] == tour[i].location
    {
      TourStopFromPending(km, currentLocation, pending, i);
      var m :| 0 <= m < |pending| && pending[m].id == tour[i].id && pending[m].customer.location == tour[i].location;
      assert Ids(tour)[i] == tour[i].id;
      var k := FirstWithId(pending, tour[i].id).value;
      assert k <= m;
      assert k == m;
    }
  }

  /**
   * Over a delivery list: the route has one point more than there are PENDING deliveries and
   * starts at the driver; with distinct pending ids it follows the greedy tour of their stops.
   */
  lemma OptimalRouteShape(km: Haversine, currentLocation: Location, deliveries: seq<Delivery>)
    ensures var pending := WithStatus(deliveries, Pending);
      var route := OptimalRoute(km, currentLocation, deliveries);
      var tour := GreedyTour(km, currentLocation, StopsOf(pending));
      && |route| == |pending| + 1
      && route[0] == currentLocation
      && (DistinctIds(pending) ==> forall i :: 0 <= i < |tour| ==> route[i + 1] == tour[i].location)
  {
    var pending := WithStatus(deliveries, Pending);
    RouteShape(km, currentLocation, pending);
    if DistinctIds(pending) {
      RouteFollowsTour(km, currentLocation, pending);
    }
  }

  /** The polyline is drawn when routes are shown and there is more than one point. */
  function DrawsPolyline(showRoute: bool, route: seq<Location>): bool
  {
    showRoute && |route| > 1
  }

  /** A route computed over at least one pending delivery is drawn exactly when routes are shown. */
  lemma ComputedRouteIsDrawn(km: Haversine, currentLocation: Location, deliveries: seq<Delivery>, showRoute: bool)
    requires WithStatus(deliveries, Pending) != []
    ensures DrawsPolyline(showRoute, OptimalRoute(km, currentLocation, deliveries)) == showRoute
  {
    OptimalRouteShape(km, currentLocation, deliveries);
  }

  /**
   * The `forEach` of `calculateOptimalRoute`: start from the driver, then push the location of
   * the first pending delivery with each returned id.
   */
  method AssembleRoute(currentLocation: Location, pendingDeliveries: seq<Delivery>, optimizedOrder: seq<string>)
    returns (routeCoordinates: seq<Location>)
    ensures routeCoordinates == [currentLocation] + FoundLocations(pendingDeliveries, optimizedOrder)
  {
    routeCoordinates := [currentLocation];
    for i := 0 to |optimizedOrder|
      invariant routeCoordinates == [currentLocation] + FoundLocations(pendingDeliveries, optimizedOrder[..i])
    {
      assert optimizedOrder[..i + 1][..i] == optimizedOrder[..i];
      var delivery := FindById(pendingDeliveries, optimizedOrder[i]);
      if delivery.Some? {
        routeCoordinates := routeCoordinates + [delivery.value.customer.location];
      }
    }
    assert optimizedOrder[..|optimizedOrder|] == optimizedOrder;
  }

  /** The map component's stored route (its `route` state). */
  class DeliveryMap {
    var route: seq<Location>

    constructor ()
      ensures route == []
    {
      route := [];
    }

    /**
     * `calculateOptimalRoute`: without a driver position or a pending delivery, return and keep
     * the stored route; otherwise sequence the pending deliveries and store the new polyline.
     */
    method CalculateOptimalRoute(km: Haversine, deliveries: seq<Delivery>, currentLocation: Option<Location>)
      modifies this
      ensures currentLocation.None? || WithStatus(deliveries, Pending) == [] ==> route == old(route)
      ensures currentLocation.Some? && WithStatus(deliveries, Pending) != [] ==>
                route == OptimalRoute(km, currentLocation.value, deliveries)
    {
      if currentLocation.None? {
        return;
      }
      var pendingDeliveries := WithStatus(deliveries, Pending);
      if |pendingDeliveries| == 0 {
        return;
      }
      var deliveryLocations := StopsOf(pendingDeliveries);
      var optimizedOrder := OptimizeRoute(km, currentLocation.value, deliveryLocations);
      var routeCoordinates := AssembleRoute(currentLocation.value, pendingDeliveries, optimizedOrder);
      route := routeCoordinates;
    }
  }
}

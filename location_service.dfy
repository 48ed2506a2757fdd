/**
 * The distance model and the nearest-neighbour route sequencer of the location service.
 *
 * The haversine formula itself is floating-point trigonometry and is not modelled: callers
 * supply it as a function `km` giving the great-circle distance in kilometres. What the
 * service does with that number (round it to one decimal, taking the product by ten as an
 * exact real) and how the sequencer uses the rounded value is modelled.
 */
module LocationService {
  import opened DeliveryTypes

  /** The haversine great-circle distance in kilometres, as floating-point code computes it. */
  type Haversine = (Location, Location) -> real

  /** One stop handed to the sequencer: a delivery id with its customer's location. */
  datatype Stop = Stop(id: string, location: Location)

  /** `Math.round`: the nearest integer, halves rounded towards positive infinity. */
  function Round(x: real): int
  {
    (x + 0.5).Floor
  }

  /** `Math.round(x)` is the integer nearest to x, a half going up. */
  lemma RoundIsNearest(x: real)
    ensures (Round(x) as real) - 0.5 <= x < (Round(x) as real) + 0.5
  {
  }

  /**
   * `calculateDistance` in tenths of a kilometre: the source returns `Math.round(km * 10) / 10`,
   * so comparing its results is comparing these integers.
   */
  function Dist(km: Haversine, from: Location, to: Location): int
  {
    Round(km(from, to) * 10.0)
  }

  /** The distance is the raw kilometres in tenths, to the nearest tenth, and never negative for a non-negative raw distance. */
  lemma DistIsRoundedTenths(km: Haversine, from: Location, to: Location)
    ensures var d := Dist(km, from, to);
      && (d as real) - 0.5 <= km(from, to) * 10.0 < (d as real) + 0.5
      && (km(from, to) >= 0.0 ==> d >= 0)
  {
    RoundIsNearest(km(from, to) * 10.0);
  }

  /** Rounding keeps the order of raw distances (but may turn a strict order into a tie). */
  lemma DistMonotone(km: Haversine, from: Location, a: Location, b: Location)
    requires km(from, a) <= km(from, b)
    ensures Dist(km, from, a) <= Dist(km, from, b)
  {
    DistIsRoundedTenths(km, from, a);
    DistIsRoundedTenths(km, from, b);
  }

  /** A point is at distance zero from itself once the haversine gives zero there. */
  lemma DistToSelf(km: Haversine, p: Location)
    requires km(p, p) == 0.0
    ensures Dist(km, p, p) == 0
  {
    DistIsRoundedTenths(km, p, p);
  }

  /** The ids of a list of stops, in order. */
  function Ids(stops: seq<Stop>): (ids: seq<string>)
    ensures |ids| == |stops|
    ensures forall i :: 0 <= i < |stops| ==> ids[i] == stops[i].id
  {
    seq(|stops|, i requires 0 <= i < |stops| => stops[i].id)
  }

  /** The ids of two lists joined are the two id lists joined. */
  lemma IdsConcat(a: seq<Stop>, b: seq<Stop>)
    ensures Ids(a + b) == Ids(a) + Ids(b)
  {
  }

  /** `splice(k, 1)`: the list without its k-th element, the others in their original order. */
  function RemoveAt<T>(s: seq<T>, k: nat): (r: seq<T>)
    requires k < |s|
    ensures |r| == |s| - 1
    ensures forall j :: 0 <= j < |r| ==> r[j] == if j < k then s[j] else s[j + 1]
  {
    s[..k] + s[k + 1..]
  }

  /** What `splice(k, 1)` removes is exactly the one element at k. */
  lemma RemoveAtMultiset<T>(s: seq<T>, k: nat)
    requires k < |s|
    ensures multiset(RemoveAt(s, k)) + multiset{s[k]} == multiset(s)
  {
    assert s == s[..k] + [s[k]] + s[k + 1..];
  }

  /**
   * Index k of `stops` is the sequencer's pick from `from`: no stop is strictly nearer, and every
   * stop before it is strictly farther (so ties go to the lowest index).
   */
  predicate IsNearest(km: Haversine, from: Location, stops: seq<Stop>, k: int)
  {
    && 0 <= k < |stops|
    && (forall j :: 0 <= j < |stops| ==> Dist(km, from, stops[k].location) <= Dist(km, from, stops[j].location))
    && (forall j :: 0 <= j < k ==> Dist(km, from, stops[j].location) > Dist(km, from, stops[k].location))
  }

  /**
   * The inner scan: start at index 0 and move to a later index only when it is strictly nearer.
   * Defined over the prefix scanned so far, as the loop runs.
   */
  function FirstNearest(km: Haversine, from: Location, stops: seq<Stop>): (k: nat)
    requires |stops| > 0
    ensures IsNearest(km, from, stops, k)
    decreases |stops|
  {
    if |stops| == 1 then 0
    else
      var n := |stops| - 1;
      var k := FirstNearest(km, from, stops[..n]);
      assert forall j :: 0 <= j < n ==> stops[..n][j] == stops[j];
      if Dist(km, from, stops[n].location) < Dist(km, from, stops[k].location) then n else k
  }

  /** Extending the scanned prefix by one stop: it becomes the pick only if strictly nearer. */
  lemma ScanStep(km: Haversine, from: Location, stops: seq<Stop>, i: nat)
    requires 1 <= i < |stops|
    ensures var k := FirstNearest(km, from, stops[..i]);
      FirstNearest(km, from, stops[..i + 1])
        == if Dist(km, from, stops[i].location) < Dist(km, from, stops[k].location) then i else k
  {
    assert stops[..i + 1][..i] == stops[..i];
  }

  /**
   * The stops in the order the sequencer visits them from `from`: take the first nearest, move
   * there, and sequence the rest.
   */
  function GreedyTour(km: Haversine, from: Location, stops: seq<Stop>): (tour: seq<Stop>)
    ensures |tour| == |stops|
    ensures |stops| == 1 ==> tour == stops
    decreases |stops|
  {
    if |stops| == 0 then []
    else
      var k := FirstNearest(km, from, stops);
      [stops[k]] + GreedyTour(km, stops[k].location, RemoveAt(stops, k))
  }

  /** The position the driver is at just before visiting `tour[i]`. */
  function Before(from: Location, tour: seq<Stop>, i: nat): Location
    requires i < |tour|
  {
    if i == 0 then from else tour[i - 1].location
  }

  /** The tour visits every input stop exactly as often as it occurs in the input. */
  lemma {:induction false} GreedyTourIsPermutation(km: Haversine, from: Location, stops: seq<Stop>)
    ensures multiset(GreedyTour(km, from, stops)) == multiset(stops)
    decreases |stops|
  {
    if |stops| > 0 {
      var k := FirstNearest(km, from, stops);
      GreedyTourIsPermutation(km, stops[k].location, RemoveAt(stops, k));
      RemoveAtMultiset(stops, k);
    }
  }

  /**
   * Greedy at every step: each visited stop is, from the position before it, no farther than
   * any stop visited later.
   */
  lemma {:induction false} GreedyTourIsNearestFirst(km: Haversine, from: Location, stops: seq<Stop>, i: nat, j: nat)
    requires i < j < |stops|
    ensures var tour := GreedyTour(km, from, stops);
      Dist(km, Before(from, tour, i), tour[i].location) <= Dist(km, Before(from, tour, i), tour[j].location)
    decreases |stops|
  {
    var tour := GreedyTour(km, from, stops);
    var k := FirstNearest(km, from, stops);
    var rest := RemoveAt(stops, k);
    assert tour == [stops[k]] + GreedyTour(km, stops[k].location, rest);
    if i == 0 {
      GreedyTourIsPermutation(km, stops[k].location, rest);
      assert tour[j] in multiset(rest);
      RemoveAtMultiset(stops, k);
      assert tour[j] in multiset(stops);
      var m :| 0 <= m < |stops| && stops[m] == tour[j];
    } else {
      GreedyTourIsNearestFirst(km, stops[k].location, rest, i - 1, j - 1);
    }
  }

  /** Splicing a stop out of the list splices its id out of the ids. */
  lemma IdsRemoveAt(stops: seq<Stop>, k: nat)
    requires k < |stops|
    ensures Ids(RemoveAt(stops, k)) == RemoveAt(Ids(stops), k)
  {
    var l := Ids(RemoveAt(stops, k));
    var r := RemoveAt(Ids(stops), k);
    forall j | 0 <= j < |l|
      ensures l[j] == r[j]
    {
      if j < k {
        assert l[j] == RemoveAt(stops, k)[j].id == stops[j].id;
      } else {
        assert l[j] == RemoveAt(stops, k)[j].id == stops[j + 1].id;
      }
    }
  }

  /** The ids the sequencer returns are exactly the input ids, each as often as it was given. */
  lemma {:induction false} GreedyRouteIsPermutation(km: Haversine, from: Location, stops: seq<Stop>)
    ensures var route := Ids(GreedyTour(km, from, stops));
      |route| == |stops| && multiset(route) == multiset(Ids(stops))
    decreases |stops|
  {
    if |stops| > 0 {
      var k := FirstNearest(km, from, stops);
      var rest := RemoveAt(stops, k);
      GreedyRouteIsPermutation(km, stops[k].location, rest);
      GreedyRouteStep(km, from, stops);
      IdsRemoveAt(stops, k);
      RemoveAtMultiset(Ids(stops), k);
    }
  }

  /** One step of the tour, on ids: the first nearest stop's id, then the route from there. */
  lemma GreedyRouteStep(km: Haversine, from: Location, stops: seq<Stop>)
    requires |stops| > 0
    ensures var k := FirstNearest(km, from, stops);
      Ids(GreedyTour(km, from, stops)) == [stops[k].id] + Ids(GreedyTour(km, stops[k].location, RemoveAt(stops, k)))
  {
    var k := FirstNearest(km, from, stops);
    IdsConcat([stops[k]], GreedyTour(km, stops[k].location, RemoveAt(stops, k)));
  }

  /** The loop's step: the route so far plus the rest of the tour is unchanged by moving one stop over. */
  lemma RouteGrowsByNearest(km: Haversine, from: Location, stops: seq<Stop>, route: seq<string>)
    requires |stops| > 0
    ensures var k := FirstNearest(km, from, stops);
      route + Ids(GreedyTour(km, from, stops))
        == (route + [stops[k].id]) + Ids(GreedyTour(km, stops[k].location, RemoveAt(stops, k)))
  {
    GreedyRouteStep(km, from, stops);
  }

  /**
   * The nearest-first scenario: from the origin, A is nearest; from A, C is nearer than B;
   * so the route is A, C, B whatever order the stops are listed in.
   */
  lemma NearestFirstScenario(km: Haversine, origin: Location, a: Stop, b: Stop, c: Stop)
    requires Dist(km, origin, a.location) < Dist(km, origin, b.location)
    requires Dist(km, origin, a.location) < Dist(km, origin, c.location)
    requires Dist(km, a.location, c.location) < Dist(km, a.location, b.location)
    ensures Ids(GreedyTour(km, origin, [a, b, c])) == [a.id, c.id, b.id]
  {
    NearerSecondGoesFirst(km, a.location, b, c);
    NearestOfThree(km, origin, a, b, c);
    GreedyRouteStep(km, origin, [a, b, c]);
    assert RemoveAt([a, b, c], 0) == [b, c];
    assert Ids(GreedyTour(km, origin, [a, b, c])) == [a.id] + [c.id, b.id];
  }

  /** Of three stops, the first is picked when it is strictly nearer than the other two. */
  lemma NearestOfThree(km: Haversine, from: Location, a: Stop, b: Stop, c: Stop)
    requires Dist(km, from, a.location) < Dist(km, from, b.location)
    requires Dist(km, from, a.location) < Dist(km, from, c.location)
    ensures FirstNearest(km, from, [a, b, c]) == 0
  {
    var k := FirstNearest(km, from, [a, b, c]);
    assert IsNearest(km, from, [a, b, c], k);
  }

  /** Of two stops, the second is visited first when it is strictly nearer. */
  lemma NearerSecondGoesFirst(km: Haversine, from: Location, b: Stop, c: Stop)
    requires Dist(km, from, c.location) < Dist(km, from, b.location)
    ensures Ids(GreedyTour(km, from, [b, c])) == [c.id, b.id]
  {
    var k := FirstNearest(km, from, [b, c]);
    assert IsNearest(km, from, [b, c], k);
    GreedyRouteStep(km, from, [b, c]);
    assert RemoveAt([b, c], 1) == [b];
  }

  /** Two stops at the same rounded distance: the one listed first is visited first. */
  lemma TieGoesToFirstListed(km: Haversine, origin: Location, d: Stop, e: Stop)
    requires Dist(km, origin, d.location) == Dist(km, origin, e.location)
    ensures GreedyTour(km, origin, [d, e])[0] == d
  {
    assert FirstNearest(km, origin, [d, e]) == 0;
  }

  /**
   * The comparison is on the rounded value: a stop 0.96 km away does not beat one listed
   * before it 1.0 km away, since both round to 1.0 km.
   */
  lemma RoundingHidesStrictlyNearer(origin: Location, d: Stop, e: Stop)
    requires d.location != e.location
    ensures var km: Haversine := (p: Location, q: Location) => if q == e.location then 0.96 else 1.0;
      km(origin, e.location) < km(origin, d.location) && GreedyTour(km, origin, [d, e])[0] == d
  {
    var km: Haversine := (p: Location, q: Location) => if q == e.location then 0.96 else 1.0;
    assert Round(9.6) == 10 && Round(10.0) == 10;
    TieGoesToFirstListed(km, origin, d, e);
  }

  /**
   * `optimizeRoute`: copy the stops, then repeatedly scan the unvisited ones for the first
   * nearest to the current position, append its id, move there and splice it out.
   */
  method OptimizeRoute(km: Haversine, currentLocation: Location, deliveryLocations: seq<Stop>)
    returns (route: seq<string>)
    ensures route == Ids(GreedyTour(km, currentLocation, deliveryLocations))
  {
    var unvisited := deliveryLocations;
    route := [];
    var current := currentLocation;
    while |unvisited| > 0
      invariant route + Ids(GreedyTour(km, current, unvisited)) == Ids(GreedyTour(km, currentLocation, deliveryLocations))
      decreases |unvisited|
    {
      var nearestIndex := 0;
      var minDistance := Dist(km, current, unvisited[0].location);
      for i := 1 to |unvisited|
        invariant nearestIndex < i
        invariant nearestIndex == FirstNearest(km, current, unvisited[..i])
        invariant minDistance == Dist(km, current, unvisited[nearestIndex].location)
      {
        ScanStep(km, current, unvisited, i);
        var distance := Dist(km, current, unvisited[i].location);
        if distance < minDistance {
          minDistance := distance;
          nearestIndex := i;
        }
      }
      assert unvisited[..|unvisited|] == unvisited;
      var nearest := unvisited[nearestIndex];
      RouteGrowsByNearest(km, current, unvisited, route);
      route := route + [nearest.id];
      current := nearest.location;
      unvisited := RemoveAt(unvisited, nearestIndex);
    }
  }
}

/** `RouteFinder`: one route, as the list of system indices it visits, with the greedy
    nearest-unvisited construction, the random and copied starts, loading, and the
    distance scans along the route. */
module RouteFinders {
  import opened Outcomes
  import opened StarSystems
  import opened Routes

  /** The first system in `ordered` that is not yet visited is the nearest unvisited one. */
  lemma FirstUnvisitedIsNearest(m: StarMap, from: nat, visited: set<nat>, k: nat)
    requires k < |OrderedDistances(m, from)|
    requires OrderedDistances(m, from)[k].system !in visited
    requires forall q :: 0 <= q < k ==> OrderedDistances(m, from)[q].system in visited
    ensures NearestUnvisited(m, from, visited, OrderedDistances(m, from)[k].system)
  {
    var ordered := OrderedDistances(m, from);
    var e := ordered[k];
    assert e in ordered;
    forall j | 0 <= j < m.n && j != from && j !in visited && j != e.system
      ensures m.dist(from, e.system) < m.dist(from, j)
              || (m.dist(from, e.system) == m.dist(from, j) && e.system < j)
    {
      assert Entry(j, m.dist(from, j)) in ordered;
      var q :| 0 <= q < |ordered| && ordered[q] == Entry(j, m.dist(from, j));
      assert k < q;
      assert Precedes(ordered[k], ordered[q]);
    }
  }

  /** While the route is shorter than the map, some system other than the last one on
      the route is still unvisited. */
  lemma UnvisitedSystemRemains(route: seq<nat>, n: nat)
    requires 0 < |route| < n && InRange(route, n) && Distinct(route)
    ensures exists j :: 0 <= j < n && j != route[|route| - 1] && j !in Elements(route)
  {
    SomeSystemMissing(route, n);
    var j :| 0 <= j < n && j !in route;
    assert route[|route| - 1] in route;
    assert j !in Elements(route);
  }

  class RouteFinder {
    /** The systems loaded at start-up (the script's global `all_systems`). */
    const stars: StarMap
    /** `visited_systems_indices`: the route. */
    var visitedSystemsIndices: seq<nat>
    /** The keys of the `visited_systems` dictionary (all its values are True). */
    var visitedSystems: set<nat>

    /** `RouteFinder()`: the class has no `__init__`, so the script's object has no route
        attributes until a method assigns them; here they start empty. */
    constructor (stars: StarMap)
      ensures this.stars == stars && visitedSystemsIndices == [] && visitedSystems == {}
    {
      this.stars := stars;
      visitedSystemsIndices := [];
      visitedSystems := {};
    }

    /** `load_route_indices`: exits with status 1 unless the list has one entry per system;
        otherwise the route becomes a copy of the list, whether or not it is a permutation. */
    method LoadRouteIndices(routeIndices: seq<nat>) returns (r: Outcome<()>)
      modifies this`visitedSystemsIndices
      ensures r == if |routeIndices| == stars.n then Returned(()) else Exited(1)
      ensures visitedSystemsIndices == if r.Returned? then routeIndices else old(visitedSystemsIndices)
    {
      if |routeIndices| != stars.n {
        return Exited(1);
      }
      visitedSystemsIndices := routeIndices;
      return Returned(());
    }

    /** `best_destination_from`: the first system, in the starter's nearest-first order,
        that the route has not visited; None when every other system is visited. */
    method BestDestinationFrom(starterSystem: nat) returns (r: Option<nat>)
      requires starterSystem < stars.n
      ensures r.None? <==>
        forall j :: 0 <= j < stars.n && j != starterSystem ==> j in visitedSystems
      ensures r.Some? ==> NearestUnvisited(stars, starterSystem, visitedSystems, r.value)
    {
      var ordered := OrderedDistances(stars, starterSystem);
      var k := 0;
      while k < |ordered|
        invariant k <= |ordered|
        invariant forall q :: 0 <= q < k ==> ordered[q].system in visitedSystems
      {
        if ordered[k].system !in visitedSystems {
          FirstUnvisitedIsNearest(stars, starterSystem, visitedSystems, k);
          return Some(ordered[k].system);
        }
        k := k + 1;
      }
      forall j | 0 <= j < stars.n && j != starterSystem ensures j in visitedSystems {
        assert Entry(j, stars.dist(starterSystem, j)) in ordered;
      }
      return None;
    }

    /** `current_system`: the last system on the route, or None for the IndexError an
        empty route or an index outside the system list raises. */
    function CurrentSystem(): (r: Option<nat>)
      reads this
      ensures r.Some? <==> 0 < |visitedSystemsIndices| && visitedSystemsIndices[|visitedSystemsIndices| - 1] < stars.n
      ensures r.Some? ==> r.value < stars.n && r.value == visitedSystemsIndices[|visitedSystemsIndices| - 1]
    {
      if |visitedSystemsIndices| == 0 then None
      else
        var last := visitedSystemsIndices[|visitedSystemsIndices| - 1];
        if last < stars.n then Some(last) else None
    }

    /** `add_system`: marks the system visited and appends it to the route. */
    method AddSystem(starSystem: nat)
      requires starSystem < stars.n
      modifies this
      ensures visitedSystems == old(visitedSystems) + {starSystem}
      ensures visitedSystemsIndices == old(visitedSystemsIndices) + [starSystem]
    {
      visitedSystems := visitedSystems + {starSystem};
      visitedSystemsIndices := visitedSystemsIndices + [starSystem];
    }

    /** `plot_basic_starting_route`: from the starting system, keep going to the nearest
        system not yet visited until every system is on the route. */
    method PlotBasicStartingRoute(startingIndex: nat)
      requires startingIndex < stars.n
      modifies this
      ensures IsGreedyRoute(stars, startingIndex, visitedSystemsIndices)
      ensures IsPermutation(visitedSystemsIndices, stars.n)
      ensures visitedSystems == Elements(visitedSystemsIndices)
    {
      visitedSystemsIndices := [];
      visitedSystems := {};
      AddSystem(startingIndex);
      while |visitedSystemsIndices| < stars.n
        invariant 0 < |visitedSystemsIndices| <= stars.n
        invariant visitedSystemsIndices[0] == startingIndex
        invariant visitedSystems == Elements(visitedSystemsIndices)
        invariant InRange(visitedSystemsIndices, stars.n) && Distinct(visitedSystemsIndices)
        invariant forall k :: 0 < k < |visitedSystemsIndices| ==>
          NearestUnvisited(stars, visitedSystemsIndices[k - 1], Elements(visitedSystemsIndices[..k]), visitedSystemsIndices[k])
        decreases stars.n - |visitedSystemsIndices|
      {
        var route := visitedSystemsIndices;
        UnvisitedSystemRemains(route, stars.n);
        var currentSystem := CurrentSystem();
        var bestDestination := BestDestinationFrom(currentSystem.value);
        if bestDestination.None? {
          // Never taken: fewer than all systems are on the route, so one is unvisited.
          assert false;
          break;
        }
        AddSystem(bestDestination.value);
        assert forall k :: 0 <= k <= |route| ==> visitedSystemsIndices[..k] == route[..k];
        assert route == visitedSystemsIndices[..|route|];
      }
      GreedyRouteIsPermutation(stars, startingIndex, visitedSystemsIndices);
    }

    /** `randomise_route`: the route becomes `random.shuffle` of 0 .. N-1, any permutation. */
    method RandomiseRoute(shuffled: seq<nat>)
      requires IsPermutation(shuffled, stars.n)
      modifies this`visitedSystemsIndices
      ensures visitedSystemsIndices == shuffled
    {
      visitedSystemsIndices := shuffled;
    }

    /** `init_from_route_finder`: the route becomes a copy of the other's. */
    method InitFromRouteFinder(other: RouteFinder)
      modifies this`visitedSystemsIndices
      ensures visitedSystemsIndices == old(other.visitedSystemsIndices)
    {
      visitedSystemsIndices := other.visitedSystemsIndices;
    }

    /** `distance_for_current_path`: the open-path length of the route; it raises when the
        route is empty, names a system that does not exist, or repeats a system twice in a
        row. */
    method DistanceForCurrentPath() returns (r: Outcome<real>)
      ensures r == if Traversable(stars, visitedSystemsIndices)
                   then Returned(Length(stars, visitedSystemsIndices)) else Raised
    {
      var route := visitedSystemsIndices;
      if |route| == 0 || route[0] >= stars.n {
        return Raised;
      }
      var totalDistance := 0.0;
      var myCurrentSystem := route[0];
      var k := 1;
      while k < |route|
        invariant 1 <= k <= |route|
        invariant myCurrentSystem == route[k - 1]
        invariant Traversable(stars, route[..k])
        invariant totalDistance == Length(stars, route[..k])
      {
        var index := route[k];
        if index >= stars.n {
          return Raised;
        }
        var distance := DistanceTo(stars, myCurrentSystem, index);
        if distance.None? {
          return Raised;
        }
        assert route[..k + 1][..k] == route[..k];
        totalDistance := totalDistance + distance.value;
        myCurrentSystem := index;
        k := k + 1;
      }
      assert route[..k] == route;
      return Returned(totalDistance);
    }

    /** `longest_hop_with_index` as written: the scan never moves on from the first system,
        so it measures each later system's distance from the first one. It raises when the
        route is empty, names a system that does not exist, or returns to its first system. */
    method LongestHopWithIndex() returns (r: Outcome<Hop>)
      ensures r.Raised? || r.Returned?
      ensures r.Returned? <==>
        && |visitedSystemsIndices| > 0 && InRange(visitedSystemsIndices, stars.n)
        && forall k :: 0 < k < |visitedSystemsIndices| ==> visitedSystemsIndices[k] != visitedSystemsIndices[0]
      ensures r.Returned? ==> IsFarthestFromFirst(stars, visitedSystemsIndices, r.value)
    {
      var route := visitedSystemsIndices;
      if |route| == 0 || route[0] >= stars.n {
        return Raised;
      }
      var longestHopIndex := -1;
      var longestHop := 0.0;
      var myCurrentSystem := route[0];
      var k := 1;
      while k < |route|
        invariant 1 <= k <= |route|
        invariant InRange(route[..k], stars.n)
        invariant forall q :: 0 < q < k ==> route[q] != route[0]
        invariant IsFarthestFromFirst(stars, route[..k], Hop(longestHop, longestHopIndex))
      {
        var index := route[k];
        if index >= stars.n {
          return Raised;
        }
        var distance := DistanceTo(stars, myCurrentSystem, index);
        if distance.None? {
          return Raised;
        }
        var prefix := route[..k + 1];
        assert forall q :: 0 <= q < k ==> prefix[q] == route[..k][q];
        if distance.value > longestHop {
          longestHop := distance.value;
          longestHopIndex := index;
          assert prefix[k] == index;
        }
        k := k + 1;
      }
      assert route[..k] == route;
      return Returned(Hop(longestHop, longestHopIndex));
    }
  }
}

/** `RouteComparator`: the optimiser. It keeps the best route found so far and its
    fitness (the open-path length), picks the best greedy start, loads a route, and
    tries random swaps of the best route, keeping a candidate only when it is strictly
    shorter. */
module RouteComparators {
  import opened Outcomes
  import opened StarSystems
  import opened Routes
  import opened Mutations
  import opened RouteFinders

  /** The route one `mutate_route_random` call tries: the best route with the drawn swaps
      applied in order. */
  ghost function RandomCandidate(best: seq<nat>, n: nat, upperDistance: int, md: MutationDraw): seq<nat>
    requires |best| == n
    requires forall k :: 0 <= k < |md.swaps| ==> ValidSwapDraw(n, upperDistance, md.swaps[k])
  {
    ApplyTranspositions(best, DrawnTranspositions(n, upperDistance, md.swaps))
  }

  /** The route `mutate_route` tries after `used` draws: the best route with the effective
      swaps among those draws applied in order. */
  ghost function ClampedCandidate(best: seq<nat>, n: nat, allowedDistance: int, ds: seq<SwapDraw>): seq<nat>
    requires |best| == n
    requires forall k :: 0 <= k < |ds| ==> ValidClampedDraw(n, allowedDistance, ds[k])
  {
    ApplyTranspositions(best, ClampedTranspositions(n, allowedDistance, ds))
  }

  /** The part of a comparator's state that `mutate_route_random` reads and changes: the
      best route's systems, its fitness, the tried mutation strings and the improvements
      counted so far. */
  datatype SearchState = SearchState(best: seq<nat>, fitness: real, tried: set<string>, successes: nat)

  /** What one `mutate_route_random` call returns from state `st`, and the state after it:
      a string already tried returns False and changes nothing; an unwalkable candidate
      raises and changes nothing; otherwise the call returns True, a strictly shorter
      candidate replaces the best route (forgetting the tried strings) and counts as a
      success, and the string is recorded when skipping is on. */
  ghost function Attempt(m: StarMap, skip: bool, upperCount: int, upperDistance: int, st: SearchState, md: MutationDraw)
    : (Outcome<bool>, SearchState)
    requires |st.best| == m.n
    requires ValidMutationDraw(m.n, upperCount, upperDistance, md)
  {
    var sig := Signature(DrawnTranspositions(m.n, upperDistance, md.swaps));
    var candidate := RandomCandidate(st.best, m.n, upperDistance, md);
    if skip && sig in st.tried then (Returned(false), st)
    else if !Traversable(m, candidate) then (Raised, st)
    else if Length(m, candidate) < st.fitness then
      (Returned(true), SearchState(candidate, Length(m, candidate), if skip then {sig} else {}, st.successes + 1))
    else
      (Returned(true), st.(tried := if skip then st.tried + {sig} else st.tried))
  }

  /** How a run of `do_mutations` ends: its outcome, the calls that returned True and
      False, the draws consumed and the final state. */
  datatype RunResult = RunResult(outcome: Outcome<()>, accepted: nat, skipped: nat, used: nat, last: SearchState)

  /** The `do_mutations` loop from state `st` at draw `i`: one `mutate_route_random` call
      per draw until `remaining` more calls have returned True, a call raises, or the
      draws run out. The counts cover the draws from `i` on. */
  ghost function Run(m: StarMap, skip: bool, upperCount: int, upperDistance: int, st: SearchState,
                     draws: seq<MutationDraw>, i: nat, remaining: int): RunResult
    requires |st.best| == m.n
    requires forall k :: 0 <= k < |draws| ==> ValidMutationDraw(m.n, upperCount, upperDistance, draws[k])
    decreases |draws| - i
  {
    if remaining <= 0 || |draws| <= i then RunResult(Returned(()), 0, 0, 0, st)
    else
      var (o, next) := Attempt(m, skip, upperCount, upperDistance, st, draws[i]);
      if o.Raised? then RunResult(Raised, 0, 0, 1, st)
      else
        var rest := Run(m, skip, upperCount, upperDistance, next, draws, i + 1, if o.value then remaining - 1 else remaining);
        RunResult(rest.outcome, rest.accepted + (if o.value then 1 else 0),
                  rest.skipped + (if o.value then 0 else 1), rest.used + 1, rest.last)
  }

  /** `rest` after `accepted` calls returned True, `skipped` returned False, and `used`
      draws were consumed before it. */
  function Shift(rest: RunResult, accepted: nat, skipped: nat, used: nat): RunResult {
    RunResult(rest.outcome, accepted + rest.accepted, skipped + rest.skipped, used + rest.used, rest.last)
  }

  /** One pass of the `do_mutations` loop at draw `i`: if the run so far is `accepted`
      True and `skipped` False results followed by the run from draw `i`, and the attempt
      with draw `i` returns `o` and leaves `next`, then the counts after the pass followed
      by the run from draw `i + 1` give the same run. */
  lemma RunAdvance(m: StarMap, skip: bool, upperCount: int, upperDistance: int, st: SearchState,
                   draws: seq<MutationDraw>, i: nat, desired: int, run: RunResult,
                   accepted: nat, skipped: nat, o: Outcome<bool>, next: SearchState,
                   accepted': nat, skipped': nat)
    requires |st.best| == m.n && i < |draws| && accepted < desired
    requires forall k :: 0 <= k < |draws| ==> ValidMutationDraw(m.n, upperCount, upperDistance, draws[k])
    requires run == Shift(Run(m, skip, upperCount, upperDistance, st, draws, i, desired - accepted), accepted, skipped, i)
    requires (o, next) == Attempt(m, skip, upperCount, upperDistance, st, draws[i])
    requires o == Returned(true) ==> accepted' == accepted + 1 && skipped' == skipped
    requires o == Returned(false) ==> accepted' == accepted && skipped' == skipped + 1
    ensures o.Raised? ==> run == RunResult(Raised, accepted, skipped, i + 1, st)
    ensures o.Returned? ==>
      |next.best| == m.n &&
      run == Shift(Run(m, skip, upperCount, upperDistance, next, draws, i + 1, desired - accepted'), accepted', skipped', i + 1)
  {
  }

  /** The run's bookkeeping: every draw used is one True, one False, or the final raise,
      and the run stops as soon as `remaining` calls have returned True. */
  lemma {:induction false} RunCounts(m: StarMap, skip: bool, upperCount: int, upperDistance: int, st: SearchState,
                                     draws: seq<MutationDraw>, i: nat, remaining: int)
    requires |st.best| == m.n
    requires forall k :: 0 <= k < |draws| ==> ValidMutationDraw(m.n, upperCount, upperDistance, draws[k])
    ensures var run := Run(m, skip, upperCount, upperDistance, st, draws, i, remaining);
      && i + run.used <= Max(i, |draws|)
      && run.used == run.accepted + run.skipped + (if run.outcome.Raised? then 1 else 0)
      && run.accepted <= Max(0, remaining)
      && (run.outcome.Returned? && i + run.used < |draws| ==> run.accepted == Max(0, remaining))
    decreases |draws| - i
  {
    if remaining > 0 && i < |draws| {
      var (o, next) := Attempt(m, skip, upperCount, upperDistance, st, draws[i]);
      if !o.Raised? {
        RunCounts(m, skip, upperCount, upperDistance, next, draws, i + 1, if o.value then remaining - 1 else remaining);
      }
    }
  }

  /** Over a run the fitness never grows, and successes are counted only among the True
      results and only with a lower fitness. */
  lemma {:induction false} RunImproves(m: StarMap, skip: bool, upperCount: int, upperDistance: int, st: SearchState,
                                       draws: seq<MutationDraw>, i: nat, remaining: int)
    requires |st.best| == m.n
    requires forall k :: 0 <= k < |draws| ==> ValidMutationDraw(m.n, upperCount, upperDistance, draws[k])
    ensures var run := Run(m, skip, upperCount, upperDistance, st, draws, i, remaining);
      && run.last.fitness <= st.fitness
      && st.successes <= run.last.successes <= st.successes + run.accepted
      && (run.last.successes > st.successes ==> run.last.fitness < st.fitness)
    decreases |draws| - i
  {
    if remaining > 0 && i < |draws| {
      var (o, next) := Attempt(m, skip, upperCount, upperDistance, st, draws[i]);
      if !o.Raised? {
        RunImproves(m, skip, upperCount, upperDistance, next, draws, i + 1, if o.value then remaining - 1 else remaining);
      }
    }
  }

  /** From a permutation of the systems no call raises, and the best route stays a
      permutation. */
  lemma {:induction false} RunKeepsPermutation(m: StarMap, skip: bool, upperCount: int, upperDistance: int, st: SearchState,
                                               draws: seq<MutationDraw>, i: nat, remaining: int)
    requires 0 < m.n && IsPermutation(st.best, m.n)
    requires forall k :: 0 <= k < |draws| ==> ValidMutationDraw(m.n, upperCount, upperDistance, draws[k])
    ensures var run := Run(m, skip, upperCount, upperDistance, st, draws, i, remaining);
      run.outcome.Returned? && IsPermutation(run.last.best, m.n)
    decreases |draws| - i
  {
    if remaining > 0 && i < |draws| {
      var ts := DrawnTranspositions(m.n, upperDistance, draws[i].swaps);
      TranspositionsKeepPermutation(st.best, ts, m.n);
      PermutationIsTraversable(m, ApplyTranspositions(st.best, ts));
      var (o, next) := Attempt(m, skip, upperCount, upperDistance, st, draws[i]);
      RunKeepsPermutation(m, skip, upperCount, upperDistance, next, draws, i + 1, if o.value then remaining - 1 else remaining);
    }
  }

  /** `d` is no longer than the greedy route from any start below `upto`, and strictly
      shorter than the greedy routes from the starts below `best`. */
  ghost predicate ShortestAmongStarts(m: StarMap, upto: nat, best: nat, d: real) {
    forall s, g :: 0 <= s < upto && IsGreedyRoute(m, s, g) ==>
      d <= Length(m, g) && (s < best ==> d < Length(m, g))
  }

  /** The greedy route from start 0 is the only candidate before the scan. */
  lemma FirstStartIsShortest(m: StarMap, route: seq<nat>)
    requires IsGreedyRoute(m, 0, route)
    ensures ShortestAmongStarts(m, 1, 0, Length(m, route))
  {
    forall s, g | 0 <= s < 1 && IsGreedyRoute(m, s, g) ensures Length(m, route) <= Length(m, g) {
      GreedyRouteIsUnique(m, 0, g, route);
    }
  }

  /** One step of the scan over starts: the greedy route from `upto` replaces the best
      exactly when strictly shorter. */
  lemma NextStartCompared(m: StarMap, upto: nat, best: nat, d: real, alternative: seq<nat>)
    requires best < upto && ShortestAmongStarts(m, upto, best, d)
    requires IsGreedyRoute(m, upto, alternative)
    ensures Length(m, alternative) < d ==> ShortestAmongStarts(m, upto + 1, upto, Length(m, alternative))
    ensures !(Length(m, alternative) < d) ==> ShortestAmongStarts(m, upto + 1, best, d)
  {
    forall g | IsGreedyRoute(m, upto, g) ensures g == alternative {
      GreedyRouteIsUnique(m, upto, g, alternative);
    }
  }

  class RouteComparator {
    /** The systems loaded at start-up. */
    const stars: StarMap
    /** Whether a mutation string already tried against the current best is skipped. */
    const skipDuplicateMutations: bool
    /** Calls of `mutate_route_random` made by `do_mutations` that returned True (were not
        skipped as duplicates), summed over all calls of `do_mutations`. */
    var totalMutationCount: nat
    /** The mutation strings tried against the current best route. */
    var existingMutationsSet: set<string>
    /** Improvements found by the current `do_mutations` call. */
    var successfulMutations: nat
    /** The best route; null until a route is assigned. */
    var bestRoute: RouteFinder?
    /** The best route's fitness: its open-path length. */
    var bestRouteFitnessValue: real

    /** After a route has been assigned: the best route has one walkable entry per system
        and its cached fitness is its length; without duplicate skipping no string is kept. */
    ghost predicate Valid()
      reads this, bestRoute
    {
      && bestRoute != null
      && bestRoute.stars == stars
      && |bestRoute.visitedSystemsIndices| == stars.n
      && Traversable(stars, bestRoute.visitedSystemsIndices)
      && bestRouteFitnessValue == Length(stars, bestRoute.visitedSystemsIndices)
      && (!skipDuplicateMutations ==> existingMutationsSet == {})
    }

    /** The search state `mutate_route_random` works on. */
    ghost function Snapshot(): SearchState
      reads this, bestRoute
      requires bestRoute != null
    {
      SearchState(bestRoute.visitedSystemsIndices, bestRouteFitnessValue, existingMutationsSet, successfulMutations)
    }

    /** `__init__` with the shortest-total fitness selector. No best route yet. */
    constructor (stars: StarMap, skipDuplicateMutations: bool)
      ensures this.stars == stars && this.skipDuplicateMutations == skipDuplicateMutations
      ensures totalMutationCount == 0 && successfulMutations == 0
      ensures existingMutationsSet == {} && bestRoute == null
    {
      this.stars := stars;
      this.skipDuplicateMutations := skipDuplicateMutations;
      totalMutationCount := 0;
      existingMutationsSet := {};
      successfulMutations := 0;
      bestRoute := null;
      bestRouteFitnessValue := 0.0;
    }

    /** `assign_best_route`: the route becomes the best route; its length becomes the
        fitness and the tried strings are forgotten, unless measuring it raises, which
        leaves the route assigned and the rest as it was. */
    method AssignBestRoute(route: RouteFinder) returns (r: Outcome<()>)
      requires route.stars == stars
      modifies this
      ensures bestRoute == route
      ensures r == if Traversable(stars, route.visitedSystemsIndices) then Returned(()) else Raised
      ensures r.Returned? ==>
        bestRouteFitnessValue == Length(stars, route.visitedSystemsIndices) && existingMutationsSet == {}
      ensures r.Raised? ==>
        bestRouteFitnessValue == old(bestRouteFitnessValue) && existingMutationsSet == old(existingMutationsSet)
      ensures r.Returned? && |route.visitedSystemsIndices| == stars.n ==> Valid()
      ensures totalMutationCount == old(totalMutationCount) && successfulMutations == old(successfulMutations)
    {
      bestRoute := route;
      var fitness := route.DistanceForCurrentPath();
      if fitness.Raised? {
        return Raised;
      }
      bestRouteFitnessValue := fitness.value;
      existingMutationsSet := {};
      return Returned(());
    }

    /** `basic_init`: either a shuffled route, or the greedy route from every start in
        turn, keeping one only when it is strictly shorter than the best so far. The
        result is as short as every greedy route, and strictly shorter than the greedy
        routes from every lower start, so ties go to the lowest start. */
    method BasicInit(completelyRandomiseStartingRoute: bool, shuffled: seq<nat>) returns (ghost bestStart: nat)
      requires 0 < stars.n
      requires completelyRandomiseStartingRoute ==> IsPermutation(shuffled, stars.n)
      modifies this
      ensures Valid() && fresh(bestRoute) && existingMutationsSet == {}
      ensures IsPermutation(bestRoute.visitedSystemsIndices, stars.n)
      ensures totalMutationCount == old(totalMutationCount) && successfulMutations == old(successfulMutations)
      ensures completelyRandomiseStartingRoute ==> bestRoute.visitedSystemsIndices == shuffled
      ensures !completelyRandomiseStartingRoute ==>
        && bestStart < stars.n
        && IsGreedyRoute(stars, bestStart, bestRoute.visitedSystemsIndices)
        && ShortestAmongStarts(stars, stars.n, bestStart, bestRouteFitnessValue)
    {
      var currentBestRoute := new RouteFinder(stars);
      if completelyRandomiseStartingRoute {
        currentBestRoute.RandomiseRoute(shuffled);
        PermutationIsTraversable(stars, shuffled);
        var assignment := AssignBestRoute(currentBestRoute);
      } else {
        currentBestRoute.PlotBasicStartingRoute(0);
      }
      PermutationIsTraversable(stars, currentBestRoute.visitedSystemsIndices);
      var measured := currentBestRoute.DistanceForCurrentPath();
      var currentBestRouteDistance := measured.value;
      var startingIndex := 1;
      bestStart := 0;
      if !completelyRandomiseStartingRoute {
        FirstStartIsShortest(stars, currentBestRoute.visitedSystemsIndices);
        while startingIndex < stars.n
          invariant 1 <= startingIndex <= stars.n && bestStart < startingIndex
          invariant fresh(currentBestRoute) && currentBestRoute.stars == stars
          invariant IsGreedyRoute(stars, bestStart, currentBestRoute.visitedSystemsIndices)
          invariant currentBestRouteDistance == Length(stars, currentBestRoute.visitedSystemsIndices)
          invariant ShortestAmongStarts(stars, startingIndex, bestStart, currentBestRouteDistance)
          invariant totalMutationCount == old(totalMutationCount) && successfulMutations == old(successfulMutations)
        {
          var alternativeRoute := new RouteFinder(stars);
          alternativeRoute.PlotBasicStartingRoute(startingIndex);
          PermutationIsTraversable(stars, alternativeRoute.visitedSystemsIndices);
          var alternative := alternativeRoute.DistanceForCurrentPath();
          var alternativeRouteDistance := alternative.value;
          NextStartCompared(stars, startingIndex, bestStart, currentBestRouteDistance, alternativeRoute.visitedSystemsIndices);
          if alternativeRouteDistance < currentBestRouteDistance {
            currentBestRoute := alternativeRoute;
            currentBestRouteDistance := alternativeRouteDistance;
            bestStart := startingIndex;
          }
          startingIndex := startingIndex + 1;
        }
        GreedyRouteIsPermutation(stars, bestStart, currentBestRoute.visitedSystemsIndices);
        PermutationIsTraversable(stars, currentBestRoute.visitedSystemsIndices);
        var assignment := AssignBestRoute(currentBestRoute);
      }
    }

    /** `load_route_indices`: exits with status 1, changing nothing, unless the list has one
        entry per system; otherwise a fresh route holding a copy of the list is assigned as
        the best route, which raises when the list cannot be walked. */
    method LoadRouteIndices(routeIndices: seq<nat>) returns (r: Outcome<()>)
      modifies this
      ensures r.Exited? <==> |routeIndices| != stars.n
      ensures r.Exited? ==>
        && r.code == 1 && bestRoute == old(bestRoute)
        && bestRouteFitnessValue == old(bestRouteFitnessValue) && existingMutationsSet == old(existingMutationsSet)
      ensures !r.Exited? ==>
        && fresh(bestRoute) && bestRoute.visitedSystemsIndices == routeIndices
        && r == if Traversable(stars, routeIndices) then Returned(()) else Raised
      ensures r.Returned? ==>
        Valid() && bestRouteFitnessValue == Length(stars, routeIndices) && existingMutationsSet == {}
      ensures r.Raised? ==>
        bestRouteFitnessValue == old(bestRouteFitnessValue) && existingMutationsSet == old(existingMutationsSet)
      ensures totalMutationCount == old(totalMutationCount) && successfulMutations == old(successfulMutations)
    {
      var route := new RouteFinder(stars);
      var loaded := route.LoadRouteIndices(routeIndices);
      if loaded.Exited? {
        return loaded;
      }
      r := AssignBestRoute(route);
    }

    /** `fitness_score_for_route`: the route's open-path length. */
    method FitnessScoreForRoute(route: RouteFinder) returns (r: Outcome<real>)
      requires route.stars == stars
      ensures r == if Traversable(stars, route.visitedSystemsIndices)
                   then Returned(Length(stars, route.visitedSystemsIndices)) else Raised
    {
      r := route.DistanceForCurrentPath();
    }

    /** `new_route_is_fitter`: the candidate is fitter exactly when it is strictly shorter
        than the best route's fitness; an equally long route is not. */
    method NewRouteIsFitter(newRoute: RouteFinder) returns (r: Outcome<bool>)
      requires newRoute.stars == stars
      ensures r == if Traversable(stars, newRoute.visitedSystemsIndices)
                   then Returned(Length(stars, newRoute.visitedSystemsIndices) < bestRouteFitnessValue)
                   else Raised
    {
      var newRouteDistance := newRoute.DistanceForCurrentPath();
      if newRouteDistance.Raised? {
        return Raised;
      }
      return Returned(newRouteDistance.value < bestRouteFitnessValue);
    }

    /** The first half of `mutate_route_random`: a copy of the best route with the drawn
        swaps made on it in order, and the mutation string naming them. */
    method SwapRandomly(upperMutationCount: int, upperMutationDistance: int, draw: MutationDraw)
      returns (mutatedRoute: RouteFinder, mutationString: string)
      requires bestRoute != null && |bestRoute.visitedSystemsIndices| == stars.n
      requires ValidMutationDraw(stars.n, upperMutationCount, upperMutationDistance, draw)
      ensures fresh(mutatedRoute) && mutatedRoute.stars == stars
      ensures mutatedRoute.visitedSystemsIndices
           == RandomCandidate(bestRoute.visitedSystemsIndices, stars.n, upperMutationDistance, draw)
      ensures mutationString == Signature(DrawnTranspositions(stars.n, upperMutationDistance, draw.swaps))
    {
      ghost var best := bestRoute.visitedSystemsIndices;
      mutatedRoute := new RouteFinder(stars);
      mutatedRoute.InitFromRouteFinder(bestRoute);
      var mutatedRouteDistance := mutatedRoute.DistanceForCurrentPath();
      var requiredMutationCount := draw.count;
      var mutationCount := 0;
      mutationString := "";
      ghost var applied: seq<Transposition> := [];
      while mutationCount < requiredMutationCount
        invariant 0 <= mutationCount <= requiredMutationCount
        invariant applied == DrawnTranspositions(stars.n, upperMutationDistance, draw.swaps[..mutationCount])
        invariant mutatedRoute.visitedSystemsIndices == ApplyTranspositions(best, applied)
        invariant mutationString == Signature(applied)
        modifies mutatedRoute
      {
        var swapDraw := draw.swaps[mutationCount];
        DrawnSwapStep(stars.n, upperMutationDistance, draw.swaps, mutationCount, best);
        var randomIndexSource := swapDraw.source;
        var randomIndexDest := SwapDestination(stars.n, swapDraw);
        var t := Transposition(randomIndexSource, randomIndexDest);
        var route := mutatedRoute.visitedSystemsIndices;
        mutatedRoute.visitedSystemsIndices :=
          route[randomIndexSource := route[randomIndexDest]][randomIndexDest := route[randomIndexSource]];
        // f"{random_index_source}-{random_index_dest}:"
        mutationString := mutationString + SwapSignature(t);
        applied := applied + [t];
        mutationCount := mutationCount + 1;
      }
      assert draw.swaps[..mutationCount] == draw.swaps;
    }

    /** `mutate_route_random`: applies the drawn swaps to a copy of the best route. A
        mutation string already tried is skipped (False, nothing changes). Otherwise the
        copy replaces the best route only when strictly shorter, the string is recorded when
        skipping is on, and the call returns True. The old best route is never altered and
        the fitness never grows. */
    method MutateRouteRandom(upperMutationCount: int, upperMutationDistance: int, draw: MutationDraw)
      returns (r: Outcome<bool>)
      requires Valid()
      requires ValidMutationDraw(stars.n, upperMutationCount, upperMutationDistance, draw)
      modifies this
      ensures Valid()
      ensures totalMutationCount == old(totalMutationCount)
      ensures old(bestRoute).visitedSystemsIndices == old(bestRoute.visitedSystemsIndices)
      ensures bestRouteFitnessValue <= old(bestRouteFitnessValue)
      ensures bestRouteFitnessValue < old(bestRouteFitnessValue) ==> fresh(bestRoute)
      ensures bestRouteFitnessValue == old(bestRouteFitnessValue) ==> bestRoute == old(bestRoute)
      ensures IsPermutation(old(bestRoute.visitedSystemsIndices), stars.n) ==>
        r.Returned? && IsPermutation(bestRoute.visitedSystemsIndices, stars.n)
      ensures r.Returned? || r.Raised?
      ensures (r, Snapshot()) == Attempt(stars, skipDuplicateMutations, upperMutationCount, upperMutationDistance, old(Snapshot()), draw)
    {
      ghost var attempt := Attempt(stars, skipDuplicateMutations, upperMutationCount, upperMutationDistance, Snapshot(), draw);
      ghost var best := bestRoute.visitedSystemsIndices;
      var mutatedRoute, mutationString := SwapRandomly(upperMutationCount, upperMutationDistance, draw);
      if IsPermutation(best, stars.n) {
        TranspositionsKeepPermutation(best, DrawnTranspositions(stars.n, upperMutationDistance, draw.swaps), stars.n);
        PermutationIsTraversable(stars, mutatedRoute.visitedSystemsIndices);
      }
      if skipDuplicateMutations && mutationString in existingMutationsSet {
        return Returned(false);
      }
      var fitter := NewRouteIsFitter(mutatedRoute);
      if fitter.Raised? {
        return Raised;
      }
      if fitter.value {
        var assignment := AssignBestRoute(mutatedRoute);
        successfulMutations := successfulMutations + 1;
      }
      if skipDuplicateMutations {
        existingMutationsSet := existingMutationsSet + {mutationString};
      }
      assert fitter.value ==> existingMutationsSet == if skipDuplicateMutations then {mutationString} else {};
      assert Snapshot() == attempt.1;
      return Returned(true);
    }

    /** One pass of the `do_mutations` loop: a `mutate_route_random` call with the next
        draw, counted as accepted (also in the lifetime total) when it returns True and as
        a skipped duplicate when it returns False. Whatever the call does, the counts so far
        followed by the rest of the run from the new state are still `run`. */
    method MutationPass(ghost run: RunResult, desiredCount: int, maxMutationCount: int, allowedMutationDistance: int,
                        draws: seq<MutationDraw>, drawsUsed: nat, mutationCount: nat, priorMutationCacheHits: nat)
      returns (attempt: Outcome<bool>, mutationCount': nat, priorMutationCacheHits': nat)
      requires Valid() && drawsUsed < |draws| && mutationCount < desiredCount
      requires forall k :: 0 <= k < |draws| ==> ValidMutationDraw(stars.n, maxMutationCount, allowedMutationDistance, draws[k])
      requires run == Shift(Run(stars, skipDuplicateMutations, maxMutationCount, allowedMutationDistance, Snapshot(),
                                draws, drawsUsed, desiredCount - mutationCount),
                            mutationCount, priorMutationCacheHits, drawsUsed)
      modifies this
      ensures Valid()
      ensures totalMutationCount == old(totalMutationCount) + (mutationCount' - mutationCount)
      ensures attempt.Returned? || attempt.Raised?
      ensures mutationCount' == mutationCount + (if attempt == Returned(true) then 1 else 0)
      ensures priorMutationCacheHits' == priorMutationCacheHits + (if attempt == Returned(false) then 1 else 0)
      ensures attempt.Raised? ==>
        run == RunResult(Raised, mutationCount, priorMutationCacheHits, drawsUsed + 1, Snapshot())
      ensures attempt.Returned? ==>
        run == Shift(Run(stars, skipDuplicateMutations, maxMutationCount, allowedMutationDistance, Snapshot(),
                         draws, drawsUsed + 1, desiredCount - mutationCount'),
                     mutationCount', priorMutationCacheHits', drawsUsed + 1)
    {
      ghost var before := Snapshot();
      attempt := MutateRouteRandom(maxMutationCount, allowedMutationDistance, draws[drawsUsed]);
      mutationCount', priorMutationCacheHits' := mutationCount, priorMutationCacheHits;
      if attempt == Returned(true) {
        mutationCount' := mutationCount + 1;
        totalMutationCount := totalMutationCount + 1;
      } else if attempt == Returned(false) {
        priorMutationCacheHits' := priorMutationCacheHits + 1;
      }
      RunAdvance(stars, skipDuplicateMutations, maxMutationCount, allowedMutationDistance, before, draws, drawsUsed,
                 desiredCount, run, mutationCount, priorMutationCacheHits, attempt, Snapshot(),
                 mutationCount', priorMutationCacheHits');
    }

    /** `do_mutations`: calls `mutate_route_random` until `desired_count` calls have
        returned True (were not skipped as duplicates), counting the calls that returned
        False as skipped duplicates and resetting the improvement count first; `draws`
        holds the random draws of the calls in order, and the loop also stops when they
        run out. The outcome, the counts and the new state are those of `Run` from the old
        state, whose bookkeeping `RunCounts`, `RunImproves` and `RunKeepsPermutation` state. */
    method DoMutations(desiredCount: int, maxMutationCount: int, allowedMutationDistance: int, draws: seq<MutationDraw>)
      returns (r: Outcome<()>, mutationCount: nat, priorMutationCacheHits: nat, drawsUsed: nat)
      requires Valid()
      requires forall k :: 0 <= k < |draws| ==> ValidMutationDraw(stars.n, maxMutationCount, allowedMutationDistance, draws[k])
      modifies this
      ensures Valid()
      ensures
        var run := Run(stars, skipDuplicateMutations, maxMutationCount, allowedMutationDistance,
                       SearchState(old(bestRoute.visitedSystemsIndices), old(bestRouteFitnessValue), old(existingMutationsSet), 0),
                       draws, 0, desiredCount);
        && r == run.outcome && mutationCount == run.accepted && priorMutationCacheHits == run.skipped
        && drawsUsed == run.used && Snapshot() == run.last
      ensures totalMutationCount == old(totalMutationCount) + mutationCount
      ensures r.Returned? || r.Raised?
      ensures drawsUsed <= |draws|
      ensures drawsUsed == mutationCount + priorMutationCacheHits + (if r.Raised? then 1 else 0)
      ensures mutationCount <= Max(0, desiredCount)
      ensures r.Returned? && drawsUsed < |draws| ==> mutationCount == Max(0, desiredCount)
      ensures successfulMutations <= mutationCount
      ensures bestRouteFitnessValue <= old(bestRouteFitnessValue)
      ensures successfulMutations > 0 ==> bestRouteFitnessValue < old(bestRouteFitnessValue)
      ensures IsPermutation(old(bestRoute.visitedSystemsIndices), stars.n) ==>
        r.Returned? && IsPermutation(bestRoute.visitedSystemsIndices, stars.n)
    {
      mutationCount := 0;
      successfulMutations := 0;
      priorMutationCacheHits := 0;
      drawsUsed := 0;
      ghost var start := Snapshot();
      ghost var run := Run(stars, skipDuplicateMutations, maxMutationCount, allowedMutationDistance, start,
                           draws, 0, desiredCount);
      r := Returned(());
      while mutationCount < desiredCount && drawsUsed < |draws|
        invariant Valid() && drawsUsed <= |draws| && r == Returned(())
        invariant totalMutationCount == old(totalMutationCount) + mutationCount
        invariant run == Shift(Run(stars, skipDuplicateMutations, maxMutationCount, allowedMutationDistance, Snapshot(),
                                   draws, drawsUsed, desiredCount - mutationCount),
                               mutationCount, priorMutationCacheHits, drawsUsed)
        decreases |draws| - drawsUsed
      {
        var attempt;
        attempt, mutationCount, priorMutationCacheHits :=
          MutationPass(run, desiredCount, maxMutationCount, allowedMutationDistance, draws, drawsUsed,
                       mutationCount, priorMutationCacheHits);
        drawsUsed := drawsUsed + 1;
        if attempt.Raised? {
          r := Raised;
          break;
        }
      }
      RunCounts(stars, skipDuplicateMutations, maxMutationCount, allowedMutationDistance, start, draws, 0, desiredCount);
      RunImproves(stars, skipDuplicateMutations, maxMutationCount, allowedMutationDistance, start, draws, 0, desiredCount);
      if IsPermutation(start.best, stars.n) {
        RunKeepsPermutation(stars, skipDuplicateMutations, maxMutationCount, allowedMutationDistance, start, draws, 0, desiredCount);
      }
    }

    /** The first half of `mutate_route`: a copy of the best route with the effective
        clamped swaps made on it until `required_mutation_count` of them are done. */
    method SwapClamped(requiredMutationCount: int, allowedMutationDistance: int, draws: seq<SwapDraw>)
      returns (mutatedRoute: RouteFinder, drawsUsed: nat)
      requires bestRoute != null && |bestRoute.visitedSystemsIndices| == stars.n
      requires forall k :: 0 <= k < |draws| ==> ValidClampedDraw(stars.n, allowedMutationDistance, draws[k])
      requires requiredMutationCount <= |ClampedTranspositions(stars.n, allowedMutationDistance, draws)|
      ensures fresh(mutatedRoute) && mutatedRoute.stars == stars
      ensures drawsUsed <= |draws|
      ensures |ClampedTranspositions(stars.n, allowedMutationDistance, draws[..drawsUsed])| == Max(0, requiredMutationCount)
      ensures drawsUsed == 0 || Effective(stars.n, draws[drawsUsed - 1])
      ensures mutatedRoute.visitedSystemsIndices
           == ClampedCandidate(bestRoute.visitedSystemsIndices, stars.n, allowedMutationDistance, draws[..drawsUsed])
    {
      ghost var best := bestRoute.visitedSystemsIndices;
      mutatedRoute := new RouteFinder(stars);
      mutatedRoute.InitFromRouteFinder(bestRoute);
      var mutatedRouteDistance := mutatedRoute.DistanceForCurrentPath();
      var mutationCount := 0;
      drawsUsed := 0;
      ghost var applied: seq<Transposition> := [];
      assert draws[..|draws|] == draws;
      while mutationCount < requiredMutationCount
        invariant drawsUsed <= |draws|
        invariant 0 <= mutationCount <= Max(0, requiredMutationCount)
        invariant applied == ClampedTranspositions(stars.n, allowedMutationDistance, draws[..drawsUsed])
        invariant mutationCount == |applied|
        invariant mutatedRoute.visitedSystemsIndices == ApplyTranspositions(best, applied)
        invariant drawsUsed == 0 || Effective(stars.n, draws[drawsUsed - 1]) || mutationCount < requiredMutationCount
        modifies mutatedRoute
        decreases |draws| - drawsUsed
      {
        assert drawsUsed < |draws|;
        var d := draws[drawsUsed];
        ClampedSwapStep(stars.n, allowedMutationDistance, draws, drawsUsed, best);
        var randomIndexSource := d.source;
        // `d.distance` is 1 unless more than 1 is allowed (see ValidClampedDraw)
        var randomIndexDest := ClampedDestination(stars.n, d);
        drawsUsed := drawsUsed + 1;
        if randomIndexDest == randomIndexSource {
          continue;
        }
        var t := Transposition(randomIndexSource, randomIndexDest);
        var route := mutatedRoute.visitedSystemsIndices;
        mutatedRoute.visitedSystemsIndices :=
          route[randomIndexSource := route[randomIndexDest]][randomIndexDest := route[randomIndexSource]];
        applied := applied + [t];
        mutationCount := mutationCount + 1;
      }
    }

    /** `mutate_route`: makes `required_mutation_count` swaps on a copy of the best route,
        each from a random position by a random distance clamped onto the route; an attempt
        whose clamped destination is its own source is drawn again. The copy replaces the
        best route exactly when strictly shorter, which is what the call returns; it does
        not count towards the successful mutations. */
    method MutateRoute(requiredMutationCount: int, allowedMutationDistance: int, draws: seq<SwapDraw>)
      returns (r: Outcome<bool>, drawsUsed: nat)
      requires Valid()
      requires forall k :: 0 <= k < |draws| ==> ValidClampedDraw(stars.n, allowedMutationDistance, draws[k])
      requires requiredMutationCount <= |ClampedTranspositions(stars.n, allowedMutationDistance, draws)|
      modifies this
      ensures Valid()
      ensures drawsUsed <= |draws|
      ensures totalMutationCount == old(totalMutationCount) && successfulMutations == old(successfulMutations)
      ensures old(bestRoute).visitedSystemsIndices == old(bestRoute.visitedSystemsIndices)
      ensures bestRouteFitnessValue <= old(bestRouteFitnessValue)
      ensures
        var ts := ClampedTranspositions(stars.n, allowedMutationDistance, draws[..drawsUsed]);
        var candidate := ClampedCandidate(old(bestRoute.visitedSystemsIndices), stars.n, allowedMutationDistance, draws[..drawsUsed]);
        && |ts| == Max(0, requiredMutationCount)
        && (drawsUsed == 0 || Effective(stars.n, draws[drawsUsed - 1]))
        && r == (if Traversable(stars, candidate) then Returned(Length(stars, candidate) < old(bestRouteFitnessValue)) else Raised)
        && (r == Returned(true) ==>
              && fresh(bestRoute) && bestRoute.visitedSystemsIndices == candidate
              && bestRouteFitnessValue == Length(stars, candidate) && existingMutationsSet == {})
        && (r != Returned(true) ==>
              && bestRoute == old(bestRoute) && bestRouteFitnessValue == old(bestRouteFitnessValue)
              && existingMutationsSet == old(existingMutationsSet))
      ensures IsPermutation(old(bestRoute.visitedSystemsIndices), stars.n) ==>
        r.Returned? && IsPermutation(bestRoute.visitedSystemsIndices, stars.n)
    {
      ghost var best := bestRoute.visitedSystemsIndices;
      var mutatedRoute;
      mutatedRoute, drawsUsed := SwapClamped(requiredMutationCount, allowedMutationDistance, draws);
      if IsPermutation(best, stars.n) {
        TranspositionsKeepPermutation(best, ClampedTranspositions(stars.n, allowedMutationDistance, draws[..drawsUsed]), stars.n);
        PermutationIsTraversable(stars, mutatedRoute.visitedSystemsIndices);
      }
      var fitter := NewRouteIsFitter(mutatedRoute);
      if fitter.Raised? {
        return Raised, drawsUsed;
      }
      if fitter.value {
        var assignment := AssignBestRoute(mutatedRoute);
        return Returned(true), drawsUsed;
      }
      return Returned(false), drawsUsed;
    }
  }
}

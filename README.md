# Travelling trucker route optimiser, modelled in Dafny

`travelling_trucker.py` finds a short open path through a set of star systems. This is a
travelling-salesman tour with no hop back to the start. The script works in four parts:

- **Distance cache.** Every system keeps a dictionary from each other system to the
  distance between them. `ordered_distances` lists that dictionary nearest first.
- **Routes.** A `RouteFinder` holds a route as a list of system indices. It can build
  one greedily (always go to the nearest unvisited system), shuffle one, copy one or
  load one, and it measures a route's length.
- **Greedy start selection.** `RouteComparator.basic_init` builds the greedy route from
  every start and keeps the shortest. It can take a shuffled route instead.
- **Local search.** `mutate_route_random` swaps a few positions of a copy of the best
  route and keeps the copy only when it is strictly shorter. Unless its swaps were
  already tried and are skipped as a duplicate, the call returns True, whether or not
  the copy was kept. `do_mutations` repeats the call until `desired_count` calls have
  returned True. `mutate_route` is a second variant that clamps each swap onto the route.

The model has seven modules:

- `Outcomes`: `Option`, and `Outcome`, which says whether a call returned a value,
  raised an uncaught `IndexError`/`KeyError`, or ended the process with `sys.exit(code)`.
- `StarSystems`: the star map (`n` systems and a distance function), the per-system
  distance dictionaries as item lists in insertion order, the nested loop that fills
  them, the dictionary lookup, and the stable sort by distance.
- `Routes`: what it means for a route to be a permutation or to be walkable, the
  open-path length, the greedy step and the greedy route, swaps, and the longest hop.
- `Mutations`: the random draws of the two mutation methods, each limited to the range
  the script draws from; the swaps the draws produce; and the mutation string.
- `RouteFinders`: the `RouteFinder` class. Its methods update its fields in place.
- `RouteComparators`: the `RouteComparator` class, with the best route, its fitness,
  the counters and the set of mutation strings as fields.
- `Scenarios`: worked examples on three systems at distances 3, 4 and 5.

Distances are a given function `dist(i, j)` on system indices. `WellFormed` assumes it
is symmetric and non-negative, and only the lemmas that need that assumption require it.
Random draws are method parameters, constrained to the values `random.randint`,
`random.choice` and `random.shuffle` can produce.

## Model

| member | source | states |
|---|---|---|
| StarSystems.Lookup | travelling_trucker.py:29-30 | `distances[target]` finds the stored value exactly when the key is present, and raises `KeyError` (None) exactly when it is absent |
| StarSystems.AddDistance | travelling_trucker.py:25-26 | `add_distance` is dictionary assignment: the key is then present with the new value and other keys read as before; an existing key keeps its place and the other entries stay where they were; a new key goes at the end of the insertion order |
| StarSystems.AddNextDistance | travelling_trucker.py:64-68 | storing the next other system's distance appends exactly one entry to the dictionary built so far |
| StarSystems.DistancesBelowContents | travelling_trucker.py:62-68 | after the inner loop has passed systems 0..upto-1, system i's dictionary holds exactly the other systems below upto, each with its distance, in increasing index order |
| StarSystems.BuildDistanceCache | travelling_trucker.py:62-68 | the nested cache loop gives every system the dictionary `Distances(m, i)` |
| StarSystems.DistancesContents | travelling_trucker.py:62-68 | each system's dictionary has every other system as a key exactly once, with its distance, and nothing else (n-1 entries) |
| StarSystems.DistanceTo | travelling_trucker.py:29-30 | `distance_to(j)` looks `j` up in the cached dictionary: it returns `dist(i, j)` for every other system, and raises `KeyError` for the system itself and for indices outside the map |
| StarSystems.FillDistances | travelling_trucker.py:64-68 | the inner cache loop gives one system exactly its dictionary `Distances(m, i)` |
| StarSystems.DistanceToSymmetric | travelling_trucker.py:67 | on a well-formed map the cache answers the same in both directions |
| StarSystems.InsertByDistance | travelling_trucker.py:33 | one insertion step of the sort keeps exactly the same entries plus the inserted one |
| StarSystems.InsertKeepsSorted | travelling_trucker.py:33 | inserting into a list sorted by distance keeps it sorted |
| StarSystems.SortByDistance | travelling_trucker.py:33 | `sorted(..., key=distance)` returns a permutation of the items, ascending by distance |
| StarSystems.InsertKeepsOrder | travelling_trucker.py:33 | stability step: an entry of lower index inserted ahead of equal distances keeps the strict (distance, index) order |
| StarSystems.SortIsStable | travelling_trucker.py:33 | since the dictionary lists systems in index order, the stable sort orders ties by index: strictly ascending by (distance, index) |
| StarSystems.OrderedDistances | travelling_trucker.py:31-35 | `ordered_distances` contains exactly the other systems with their distances, n-1 of them, nearest first with ties in index order |
| Routes.PermutationIsTraversable | travelling_trucker.py:157-166 | a permutation of the systems can be walked without IndexError or KeyError |
| Routes.LengthPrepend | travelling_trucker.py:157-166 | putting a system in front of a route adds exactly its first hop to the open-path length |
| Routes.LengthReversed | travelling_trucker.py:157-166 | on a well-formed map a walkable route is as long walked backwards (no closing hop is counted) |
| Routes.LengthNonNegative | travelling_trucker.py:157-166 | on a well-formed map a walkable route's length is at least 0 |
| Routes.Reverse | travelling_trucker.py:157-166 | the reversed route has the same number of entries, with element k taken from position len-1-k |
| Routes.SomeSystemMissing | travelling_trucker.py:112-116 | fewer than n distinct systems below n leave a system unvisited |
| Routes.NearestIsUnique | travelling_trucker.py:96-103 | with ties broken by index, each greedy step has exactly one possible destination |
| Routes.GreedyRouteIsPermutation | travelling_trucker.py:107-118 | the greedy route from a valid start visits every system exactly once |
| Routes.GreedyRouteIsUnique | travelling_trucker.py:107-118 | there is exactly one greedy route from each start |
| Routes.GreedyPrefixesAgree | travelling_trucker.py:107-118 | two greedy routes from the same start agree on every prefix |
| Routes.Transpose | travelling_trucker.py:345 | the tuple-assignment swap exchanges the two positions and leaves every other position alone |
| Routes.ApplyTranspositions | travelling_trucker.py:326-349 | applying the swaps in order keeps the route's length |
| Routes.ApplyTranspositionsAppend | travelling_trucker.py:326-349 | one more pass of the swap loop applies exactly one more swap to the current route |
| Routes.TranspositionsKeepSystems | travelling_trucker.py:345 | swapping only reorders: the route keeps the same systems, each as often |
| Routes.TranspositionsKeepPermutation | travelling_trucker.py:326-349 | swaps within the route keep a permutation a permutation |
| Routes.LongestHop | travelling_trucker.py:143-154 | corrected longest hop: the largest consecutive hop (0 if none is positive), and the position of the first hop that long, or -1 |
| Mutations.SwapBounds | travelling_trucker.py:327-343 | each drawn swap's destination is on the route, differs from the source, and lies within `upper_mutation_distance` of it |
| Mutations.DrawnTransposition | travelling_trucker.py:327-343 | the swap one set of draws makes: from the drawn source to source + direction * distance, both on the route and distinct |
| Mutations.DrawnTranspositions | travelling_trucker.py:326-349 | one swap per draw, in order, each the swap its draws make |
| Mutations.DrawnSwapStep | travelling_trucker.py:326-349 | one loop pass adds the next draw's swap, changes the route by exactly that swap, and appends its part to the string |
| Mutations.Decimal | travelling_trucker.py:347 | `str(x)` of a non-negative index is a non-empty string of decimal digits |
| Mutations.DecimalRoundTrip | travelling_trucker.py:347 | reading the decimal digits back gives the index |
| Mutations.SignatureAppend | travelling_trucker.py:347 | `mutation_string += f"{source}-{dest}:"` builds the signature of the swaps made so far |
| Mutations.SplitAt | travelling_trucker.py:347 | splitting at a separator leaves a shorter remainder |
| Mutations.SplitAfterDigits | travelling_trucker.py:347 | a field of digits followed by a non-digit separator splits exactly there |
| Mutations.SignatureRoundTrip | travelling_trucker.py:347 | the mutation string can be parsed back into exactly the swaps that made it |
| Mutations.SignatureIsInjective | travelling_trucker.py:352 | two attempts share a mutation string only when they made the same swaps, so skipping a seen string skips exactly a repeated swap list |
| Mutations.ClampedTranspositions | travelling_trucker.py:374-400 | the swaps `mutate_route` makes: one per effective attempt, in order, each on the route and moving the source |
| Mutations.ClampedSwapStep | travelling_trucker.py:374-400 | one loop pass of `mutate_route` adds a swap exactly when the clamped destination differs from the source |
| RouteFinders.FirstUnvisitedIsNearest | travelling_trucker.py:96-103 | the first unvisited system in `ordered_distances` order is the nearest unvisited one, ties to the lower index |
| RouteFinders.UnvisitedSystemRemains | travelling_trucker.py:110-116 | while the route is shorter than the map some other system is unvisited, so the `None` branch is never taken |
| RouteFinders.RouteFinder.constructor | travelling_trucker.py:89 | a new route finder has an empty route and no visited systems |
| RouteFinders.RouteFinder.LoadRouteIndices | travelling_trucker.py:90-94 | exits with status 1 when the list does not have one entry per system, otherwise copies the list as it is |
| RouteFinders.RouteFinder.BestDestinationFrom | travelling_trucker.py:96-103 | returns None exactly when every other system is visited, else the nearest unvisited system (ties to the lower index) |
| RouteFinders.RouteFinder.CurrentSystem | travelling_trucker.py:126-128 | `current_system` is the last system on the route, and raises `IndexError` (None) exactly when the route is empty or its last index is outside the system list |
| RouteFinders.RouteFinder.AddSystem | travelling_trucker.py:130-133 | the system is marked visited and appended to the route |
| RouteFinders.RouteFinder.PlotBasicStartingRoute | travelling_trucker.py:107-118 | builds the greedy route from the start: a permutation whose every step goes to the nearest unvisited system, with the visited set equal to the route's systems |
| RouteFinders.RouteFinder.RandomiseRoute | travelling_trucker.py:121-124 | the route becomes the given permutation of 0..N-1 |
| RouteFinders.RouteFinder.InitFromRouteFinder | travelling_trucker.py:188-189 | the route becomes a copy of the other route |
| RouteFinders.RouteFinder.DistanceForCurrentPath | travelling_trucker.py:157-166 | returns the open-path length when the route can be walked, and raises when it is empty, names a missing system or repeats a system in a row |
| RouteFinders.RouteFinder.LongestHopWithIndex | travelling_trucker.py:143-154 | as written: returns exactly when the route can be scanned, and then gives the farthest distance from the first system, with the system index (not the position) of the first system that far away |
| RouteComparators.FirstStartIsShortest | travelling_trucker.py:220-227 | before the scan the greedy route from start 0 is the shortest of the starts seen |
| RouteComparators.NextStartCompared | travelling_trucker.py:229-238 | one scan step keeps the later start exactly when it is strictly shorter, and keeps "shortest so far, ties to the lowest start" true |
| RouteComparators.RouteComparator.constructor | travelling_trucker.py:207-217 | a new comparator has zero counters, an empty string set and no best route |
| RouteComparators.RouteComparator.AssignBestRoute | travelling_trucker.py:250-256 | the route becomes the best route; its length becomes the fitness and the string set is cleared, unless measuring raises, which leaves the fitness and set as they were |
| RouteComparators.RouteComparator.BasicInit | travelling_trucker.py:219-243 | the kept route is either the shuffled one, or the greedy route from some start that is no longer than any greedy route and strictly shorter than those from lower starts |
| RouteComparators.RouteComparator.LoadRouteIndices | travelling_trucker.py:245-248 | exits with status 1, changing nothing, on a wrong length; otherwise a fresh copy of the list becomes the best route, with fitness equal to its length, or the call raises when the list cannot be walked |
| RouteComparators.RouteComparator.FitnessScoreForRoute | travelling_trucker.py:291-295 | the fitness of a route is its open-path length, or it raises |
| RouteComparators.RouteComparator.NewRouteIsFitter | travelling_trucker.py:297-313 | a route is fitter exactly when it is strictly shorter than the best fitness; an equally long route is not |
| RouteComparators.RouteComparator.SwapRandomly | travelling_trucker.py:316-349 | the candidate is a fresh copy of the best route with the drawn swaps applied in order, and the string is their signature |
| RouteComparators.RouteComparator.MutateRouteRandom | travelling_trucker.py:315-363 | the result and the new best route, fitness, string set and success count are exactly `Attempt` of the old ones: a string already tried returns False and changes nothing; an unwalkable candidate raises and changes nothing; otherwise the call returns True, the candidate replaces the best route (clearing the set) and counts as a success exactly when strictly shorter, and the string is added when skipping is on; the old best route is untouched, the fitness never grows, and a permutation stays a permutation |
| RouteComparators.RunCounts | travelling_trucker.py:258-285 | in the loop of `do_mutations` every draw used is one True, one skipped duplicate, or the final raise; it never makes more than `desired_count` True calls, and it stops before the draws run out only after exactly `desired_count` of them or on a raise |
| RouteComparators.RunImproves | travelling_trucker.py:258-285 | over the loop the fitness never grows, and the success count grows only with True calls and only when the fitness went down |
| RouteComparators.RunKeepsPermutation | travelling_trucker.py:258-285 | starting from a permutation of the systems no call of the loop raises, and the best route stays a permutation |
| RouteComparators.RouteComparator.MutationPass | travelling_trucker.py:273-283 | one pass of the loop makes one `mutate_route_random` call; True adds one to the call count and to the lifetime total, False adds one to the skipped duplicates; the counts so far followed by the rest of `Run` from the new state stay the whole run |
| RouteComparators.RouteComparator.DoMutations | travelling_trucker.py:258-285 | resets the success count, then the outcome, the True count, the skipped-duplicate count, the draws used and the new best route, fitness, string set and success count are exactly those of `Run`, the loop of `Attempt`s from the old state; hence (via the three `Run` lemmas) it stops after exactly `desired_count` True calls unless it raises or the draws run out, the lifetime total grows by the True calls, successes only lower the fitness, which never grows, and from a permutation it never raises |
| RouteComparators.RouteComparator.SwapClamped | travelling_trucker.py:366-400 | the candidate is a fresh copy of the best route with exactly `required_mutation_count` effective clamped swaps, and the last draw used was effective |
| RouteComparators.RouteComparator.MutateRoute | travelling_trucker.py:365-407 | returns whether the clamped candidate is strictly shorter, and replaces the best route exactly then, without counting a success |
| Scenarios.OrderedFromA | travelling_trucker.py:31-35 | on the 3-4-5 map, A's nearest-first list is B at 3 then C at 5 |
| Scenarios.GreedyFromA | travelling_trucker.py:107-118 | the greedy route from A is A, B, C, of length 7 |
| Scenarios.GreedyFromB | travelling_trucker.py:107-118 | the greedy route from B is B, A, C, of length 8 |
| Scenarios.GreedyFromC | travelling_trucker.py:107-118 | the greedy route from C is C, B, A, of length 7 |
| Scenarios.BasicInitKeepsA | travelling_trucker.py:229-243 | A and C tie at 7, and the strict comparison keeps start A |
| Scenarios.ReversingSwapIsNotFitter | travelling_trucker.py:327-363 | swap "0-2:" turns A, B, C into C, B, A, which is equally long and so is not accepted |
| Scenarios.LongestHopScanMissesTheLongestHop | travelling_trucker.py:143-154 | on B, A, C the scan as written reports 4 (B to C) while the longest hop is 5 (A to C) |
| Scenarios.RepeatedSystemCannotBeWalked | travelling_trucker.py:90-94 | a list of the right length that repeats a system in a row passes the length check but cannot be walked |

## Left out

- Loading `stars.json`, building the `all_systems` list, and all printing, including
  `print_route` and the progress line in `do_mutations`. Systems are known by their
  index, and names are not modelled.
- The `__main__` script: argument parsing, seeding and timing.
- Throughput reporting in `do_mutations`. It reads the wall clock and divides floats.
- Euclidean distances computed with `pygame.Vector3.magnitude`. A given distance
  function stands in for them.
- The pseudo-random generator. Every draw is an input limited to its range, and a
  shuffle is any permutation of 0..N-1.
- The shortest-hop fitness mode. `__init__` exits when it is chosen, so the comparator
  always uses the shortest total. The `longest_hop` and `longest_hop_index` wrappers
  exist only for that mode.
- The commented-out graph code, the unused imports, and `tsp.js` (a browser visualiser).
- Python negative indexing. Route entries are natural numbers, so a loaded list with a
  negative entry is not modelled.
- RouteComparators.RouteComparator.BasicInit: requires at least one system. With none,
  the script raises `IndexError`.
- Mutations.ValidSwapDraw: `random.randint` raises `ValueError` on an empty range
  (`upper_mutation_count` or `upper_mutation_distance` below 1, or a single system). The
  model has no valid draw for these cases instead of a raise.
- RouteComparators.RouteComparator.DoMutations: takes a finite list of draws and also
  stops when it runs out. The script would keep drawing for ever when every new
  attempt is a skipped duplicate.
- RouteComparators.RouteComparator.MutateRoute: requires enough effective draws for the
  loop to finish. With a single system every attempt clamps onto its own source, and the
  script loops for ever.
- RouteComparators.RouteComparator.SwapRandomly: the unused `mutated_route_distance`
  measurement is made on the copy. Since the best route is always walkable it cannot
  raise, and its value is never read.
- RouteComparators.RouteComparator.SwapClamped: the destination is computed in one step,
  `max(0, min(source + direction * distance, N-1))`. Here `distance` is the draw, which
  is 1 whenever no more than 1 is allowed. The unused `mutated_route_distance`
  measurement is made as in `SwapRandomly`.
- RouteFinders.RouteFinder.constructor: `RouteFinder` has no `__init__`. Its route list
  and visited dictionary exist only once `plot_basic_starting_route`,
  `randomise_route`, `load_route_indices` or `init_from_route_finder` assigns them, and
  reading them before raises `AttributeError`. The model starts them empty, so it does
  not capture that `AttributeError`.
- Float arithmetic. Distances, the path length, the fitness and the comparison in
  `new_route_is_fitter` are exact reals here, where the script adds Python floats from
  the integer 0 and compares them with a strict `<`. With rounding, the sum of a route
  and of its reverse can differ in the last bit, so `Routes.LengthReversed` need not hold
  of the floats: a reversal could be accepted as fitter, and a scan in `basic_init` over
  starts whose exact lengths tie could keep a later start than the lowest one.
- RouteComparators.RouteComparator.constructor: before the first assignment the fitness
  field holds 0.0. In the script that attribute does not exist yet, and every method
  that reads it requires a best route.

## Findings

| source | as written | input that shows it | evidently intended | confidence | as-written member | corrected member |
|---|---|---|---|---|---|---|
| travelling_trucker.py:147-154 | `longest_hop_with_index` never advances `my_current_system`. It returns the largest distance from the first system to any later one, and that system's index rather than a position in the route | the route B, A, C on the 3-4-5 map: it reports 4 (B to C), but the longest hop is A to C at 5 | the largest distance between consecutive systems, and the route position of that hop (as `mutate_route` uses it as a swap source) | high; not executed | RouteFinders.RouteFinder.LongestHopWithIndex | Routes.LongestHop |

/** Worked examples on three systems A = 0, B = 1, C = 2 with |AB| = 3, |BC| = 4 and
    |AC| = 5 light years. */
module Scenarios {
  import opened StarSystems
  import opened Routes
  import opened Mutations
  import opened RouteComparators

  function TriangleDistance(i: nat, j: nat): real {
    if i == j then 0.0
    else if i + j == 1 then 3.0
    else if i + j == 3 then 4.0
    else 5.0
  }

  const Triangle: StarMap := StarMap(3, TriangleDistance)

  /** From A the nearest system is B (3 < 5); the dictionary lists B before C. */
  lemma OrderedFromA()
    ensures OrderedDistances(Triangle, 0) == [Entry(1, 3.0), Entry(2, 5.0)]
  {
    var r := OrderedDistances(Triangle, 0);
    assert r[0] in r && r[1] in r;
    assert Precedes(r[0], r[1]);
  }

  lemma GreedyFromA()
    ensures IsGreedyRoute(Triangle, 0, [0, 1, 2]) && Length(Triangle, [0, 1, 2]) == 7.0
  {
    var r := [0, 1, 2];
    assert r[..1] == [0] && r[..2] == [0, 1] && [0, 1][..1] == [0];
    assert forall x :: x in Elements([0]) <==> x == 0;
    assert forall x :: x in Elements([0, 1]) <==> x == 0 || x == 1;
    assert NearestUnvisited(Triangle, 0, Elements([0]), 1);
    assert NearestUnvisited(Triangle, 1, Elements([0, 1]), 2);
    assert Length(Triangle, [0]) == 0.0;
    assert Length(Triangle, [0, 1]) == TriangleDistance(0, 1);
  }

  lemma GreedyFromB()
    ensures IsGreedyRoute(Triangle, 1, [1, 0, 2]) && Length(Triangle, [1, 0, 2]) == 8.0
  {
    var r := [1, 0, 2];
    assert r[..1] == [1] && r[..2] == [1, 0] && [1, 0][..1] == [1];
    assert forall x :: x in Elements([1]) <==> x == 1;
    assert forall x :: x in Elements([1, 0]) <==> x == 1 || x == 0;
    assert NearestUnvisited(Triangle, 1, Elements([1]), 0);
    assert NearestUnvisited(Triangle, 0, Elements([1, 0]), 2);
    assert Length(Triangle, [1]) == 0.0;
    assert Length(Triangle, [1, 0]) == TriangleDistance(1, 0);
  }

  lemma GreedyFromC()
    ensures IsGreedyRoute(Triangle, 2, [2, 1, 0]) && Length(Triangle, [2, 1, 0]) == 7.0
  {
    var r := [2, 1, 0];
    assert r[..1] == [2] && r[..2] == [2, 1] && [2, 1][..1] == [2];
    assert forall x :: x in Elements([2]) <==> x == 2;
    assert forall x :: x in Elements([2, 1]) <==> x == 2 || x == 1;
    assert NearestUnvisited(Triangle, 2, Elements([2]), 1);
    assert NearestUnvisited(Triangle, 1, Elements([2, 1]), 0);
    assert Length(Triangle, [2]) == 0.0;
    assert Length(Triangle, [2, 1]) == TriangleDistance(2, 1);
  }

  /** The greedy routes from A and from C tie at 7; the scan over starts keeps a later
      start only when strictly shorter, so whatever `basic_init` keeps starts at A. */
  lemma BasicInitKeepsA(bestStart: nat, best: seq<nat>)
    requires bestStart < Triangle.n && IsGreedyRoute(Triangle, bestStart, best)
    requires ShortestAmongStarts(Triangle, Triangle.n, bestStart, Length(Triangle, best))
    ensures bestStart == 0 && best == [0, 1, 2]
  {
    var fromA: seq<nat>, fromB: seq<nat>, fromC: seq<nat> := [0, 1, 2], [1, 0, 2], [2, 1, 0];
    GreedyFromA();
    GreedyFromB();
    GreedyFromC();
    assert IsGreedyRoute(Triangle, 0, fromA) && Length(Triangle, fromA) == 7.0;
    if bestStart == 1 {
      GreedyRouteIsUnique(Triangle, 1, best, fromB);
      assert false;
    } else if bestStart == 2 {
      GreedyRouteIsUnique(Triangle, 2, best, fromC);
      assert false;
    }
    GreedyRouteIsUnique(Triangle, 0, best, fromA);
  }

  /** One random swap drawn at position 0 (the direction is forced upwards) over distance 2:
      A -> B -> C becomes C -> B -> A under the string "0-2:", exactly as long, so
      `mutate_route_random` keeps the old best route. */
  lemma ReversingSwapIsNotFitter()
    ensures ValidMutationDraw(3, 1, 2, MutationDraw(1, [SwapDraw(0, -1, 2)]))
    ensures RandomCandidate([0, 1, 2], 3, 2, MutationDraw(1, [SwapDraw(0, -1, 2)])) == [2, 1, 0]
    ensures Signature(DrawnTranspositions(3, 2, [SwapDraw(0, -1, 2)])) == "0-2:"
    ensures !(Length(Triangle, [2, 1, 0]) < Length(Triangle, [0, 1, 2]))
  {
    var ds := [SwapDraw(0, -1, 2)];
    var ts := DrawnTranspositions(3, 2, ds);
    assert ts == [Transposition(0, 2)];
    assert ApplyTranspositions([0, 1, 2], ts) == ApplyTranspositions([2, 1, 0], []);
    GreedyFromA();
    GreedyFromC();
  }

  /** The longest hop of B -> A -> C is A -> C at 5, arriving at position 2; the scan as
      written measures from B each time and reports 4 (B to C) instead. */
  lemma LongestHopScanMissesTheLongestHop(h: Hop)
    requires IsFarthestFromFirst(Triangle, [1, 0, 2], h)
    ensures h == Hop(4.0, 2)
    ensures LongestHop(Triangle, [1, 0, 2]) == Hop(5.0, 2)
  {
    var r := [1, 0, 2];
    assert Triangle.dist(r[0], r[1]) == 3.0 && Triangle.dist(r[0], r[2]) == 4.0;
    assert LongestHop(Triangle, r[..2]) == Hop(3.0, 1) by {
      assert r[..2][..1] == [1];
    }
    assert r[..2] == [1, 0];
  }

  /** A list with one entry per system but a system twice in a row cannot be walked, so
      loading it passes the length check and then raises while measuring. */
  lemma RepeatedSystemCannotBeWalked()
    ensures |[0, 0, 2]| == Triangle.n && !Traversable(Triangle, [0, 0, 2])
  {
    var r := [0, 0, 2];
    assert r[0] == r[1];
  }
}

/** Routes as sequences of system indices: when one is a permutation, its open-path
    length, the greedy nearest-unvisited construction, transpositions, and the longest
    hop. */
module Routes {
  import opened StarSystems

  /** The systems a route visits. */
  function Elements(r: seq<nat>): set<nat> {
    set x | x in r
  }

  ghost predicate InRange(r: seq<nat>, n: nat) {
    forall k :: 0 <= k < |r| ==> r[k] < n
  }

  ghost predicate Distinct(r: seq<nat>) {
    forall p, q :: 0 <= p < q < |r| ==> r[p] != r[q]
  }

  /** The route visits each of the systems 0 .. n-1 exactly once. */
  ghost predicate IsPermutation(r: seq<nat>, n: nat) {
    |r| == n && InRange(r, n) && Distinct(r)
  }

  /** Walking the route raises nothing: it has a first system, every index names a system
      (else IndexError) and no system follows itself (else `distance_to` raises KeyError). */
  ghost predicate Traversable(m: StarMap, r: seq<nat>) {
    |r| > 0 && InRange(r, m.n) && forall k :: 0 < k < |r| ==> r[k - 1] != r[k]
  }

  /** The open-path length: the distances of the hops r[k] -> r[k+1], summed from the
      front; there is no hop from the last system back to the first. */
  function Length(m: StarMap, r: seq<nat>): real {
    if |r| < 2 then 0.0
    else Length(m, r[..|r| - 1]) + m.dist(r[|r| - 2], r[|r| - 1])
  }

  lemma PermutationIsTraversable(m: StarMap, r: seq<nat>)
    requires 0 < m.n && IsPermutation(r, m.n)
    ensures Traversable(m, r)
  {
  }

  /** Taking one more system onto the front of a route adds exactly its first hop. */
  lemma {:induction false} LengthPrepend(m: StarMap, a: nat, r: seq<nat>)
    requires |r| > 0
    ensures Length(m, [a] + r) == m.dist(a, r[0]) + Length(m, r)
  {
    var ar := [a] + r;
    if |r| > 1 {
      assert ar[..|ar| - 1] == [a] + r[..|r| - 1];
      LengthPrepend(m, a, r[..|r| - 1]);
    }
  }

  function Reverse(r: seq<nat>): (s: seq<nat>)
    ensures |s| == |r| && forall k :: 0 <= k < |r| ==> s[k] == r[|r| - 1 - k]
  {
    if r == [] then [] else Reverse(r[1..]) + [r[0]]
  }

  /** On a well-formed map an open path is as long walked backwards: the greedy routes
      A -> B -> C and C -> B -> A have the same length. */
  lemma {:induction false} LengthReversed(m: StarMap, r: seq<nat>)
    requires WellFormed(m) && Traversable(m, r)
    ensures Length(m, Reverse(r)) == Length(m, r)
  {
    if |r| > 1 {
      var t := r[1..];
      LengthReversed(m, t);
      var rt := Reverse(t);
      assert Reverse(r) == rt + [r[0]];
      assert (rt + [r[0]])[..|rt|] == rt;
      LengthPrepend(m, r[0], t);
      assert r == [r[0]] + t;
    }
  }

  /** Distances are never negative, so neither is a walkable route's length. */
  lemma {:induction false} LengthNonNegative(m: StarMap, r: seq<nat>)
    requires WellFormed(m) && Traversable(m, r)
    ensures 0.0 <= Length(m, r)
  {
    if |r| > 1 {
      LengthNonNegative(m, r[..|r| - 1]);
    }
  }

  /** Fewer than n distinct systems below n leave some system out. */
  lemma {:induction false} SomeSystemMissing(r: seq<nat>, n: nat)
    requires InRange(r, n) && Distinct(r) && |r| < n
    ensures exists j :: 0 <= j < n && j !in r
  {
    if n - 1 in r {
      var p :| 0 <= p < |r| && r[p] == n - 1;
      var rest := r[..p] + r[p + 1..];
      assert forall x :: x in rest ==> x in r && x != n - 1;
      SomeSystemMissing(rest, n - 1);
      var j :| 0 <= j < n - 1 && j !in rest;
      assert j !in r;
    }
  }

  /** `j` is the system a greedy step from `from` goes to: an unvisited other system,
      strictly nearer than every other candidate or as near and of a lower index. */
  ghost predicate NearestUnvisited(m: StarMap, from: nat, visited: set<nat>, j: nat) {
    && j < m.n && j != from && j !in visited
    && forall k :: 0 <= k < m.n && k != from && k !in visited && k != j ==>
         m.dist(from, j) < m.dist(from, k) || (m.dist(from, j) == m.dist(from, k) && j < k)
  }

  lemma NearestIsUnique(m: StarMap, from: nat, visited: set<nat>, j1: nat, j2: nat)
    requires NearestUnvisited(m, from, visited, j1) && NearestUnvisited(m, from, visited, j2)
    ensures j1 == j2
  {
  }

  /** The route built greedily from `s`: it starts at `s`, has one entry per system, and
      each later system is the nearest one not yet on the route (ties to the lower index). */
  ghost predicate IsGreedyRoute(m: StarMap, s: nat, r: seq<nat>) {
    && |r| == m.n && 0 < |r| && r[0] == s
    && forall k :: 0 < k < |r| ==> NearestUnvisited(m, r[k - 1], Elements(r[..k]), r[k])
  }

  lemma GreedyRouteIsPermutation(m: StarMap, s: nat, r: seq<nat>)
    requires s < m.n && IsGreedyRoute(m, s, r)
    ensures IsPermutation(r, m.n)
  {
    forall k | 0 < k < |r| ensures r[k] < m.n {
      assert NearestUnvisited(m, r[k - 1], Elements(r[..k]), r[k]);
    }
    forall p, q | 0 <= p < q < |r| ensures r[p] != r[q] {
      assert NearestUnvisited(m, r[q - 1], Elements(r[..q]), r[q]);
      assert r[..q][p] == r[p];
      assert r[p] in Elements(r[..q]);
    }
  }

  /** There is only one greedy route from each start. */
  lemma GreedyRouteIsUnique(m: StarMap, s: nat, r1: seq<nat>, r2: seq<nat>)
    requires IsGreedyRoute(m, s, r1) && IsGreedyRoute(m, s, r2)
    ensures r1 == r2
  {
    GreedyPrefixesAgree(m, s, r1, r2, |r1|);
    assert r1 == r1[..|r1|];
  }

  lemma {:induction false} GreedyPrefixesAgree(m: StarMap, s: nat, r1: seq<nat>, r2: seq<nat>, k: nat)
    requires IsGreedyRoute(m, s, r1) && IsGreedyRoute(m, s, r2)
    requires 0 < k <= |r1|
    ensures r1[..k] == r2[..k]
  {
    if k > 1 {
      GreedyPrefixesAgree(m, s, r1, r2, k - 1);
      assert r1[..k - 1] == r2[..k - 1];
      NearestIsUnique(m, r1[k - 2], Elements(r1[..k - 1]), r1[k - 1], r2[k - 1]);
      assert r1[..k] == r1[..k - 1] + [r1[k - 1]];
      assert r2[..k] == r2[..k - 1] + [r2[k - 1]];
    }
  }

  /** One swap of the systems at two positions. */
  datatype Transposition = Transposition(source: nat, dest: nat)

  ghost predicate TranspositionsWithin(ts: seq<Transposition>, len: nat) {
    forall k :: 0 <= k < |ts| ==> ts[k].source < len && ts[k].dest < len
  }

  /** Exchanges the systems at positions `t.source` and `t.dest`. */
  function Transpose(r: seq<nat>, t: Transposition): (s: seq<nat>)
    requires t.source < |r| && t.dest < |r|
    ensures |s| == |r|
    ensures s[t.source] == r[t.dest] && s[t.dest] == r[t.source]
    ensures forall k :: 0 <= k < |r| && k != t.source && k != t.dest ==> s[k] == r[k]
  {
    r[t.source := r[t.dest]][t.dest := r[t.source]]
  }

  /** Applies the swaps in order, first to last. */
  function ApplyTranspositions(r: seq<nat>, ts: seq<Transposition>): (s: seq<nat>)
    requires TranspositionsWithin(ts, |r|)
    ensures |s| == |r|
    decreases ts
  {
    if ts == [] then r else ApplyTranspositions(Transpose(r, ts[0]), ts[1..])
  }

  /** Swapping only reorders: the route keeps the same systems, each as often. */
  lemma {:induction false} TranspositionsKeepSystems(r: seq<nat>, ts: seq<Transposition>)
    requires TranspositionsWithin(ts, |r|)
    ensures multiset(ApplyTranspositions(r, ts)) == multiset(r)
    decreases ts
  {
    if ts != [] {
      var t := ts[0];
      var s := Transpose(r, t);
      TranspositionsKeepSystems(s, ts[1..]);
      assert s == r[t.source := r[t.dest]][t.dest := r[t.source]];
    }
  }

  /** Applying one more swap after a list of swaps. */
  lemma {:induction false} ApplyTranspositionsAppend(r: seq<nat>, ts: seq<Transposition>, t: Transposition)
    requires TranspositionsWithin(ts, |r|) && t.source < |r| && t.dest < |r|
    ensures TranspositionsWithin(ts + [t], |r|)
    ensures ApplyTranspositions(r, ts + [t]) == Transpose(ApplyTranspositions(r, ts), t)
    decreases ts
  {
    assert forall k :: 0 <= k < |ts + [t]| ==> (ts + [t])[k] == if k < |ts| then ts[k] else t;
    if ts != [] {
      assert (ts + [t])[1..] == ts[1..] + [t];
      ApplyTranspositionsAppend(Transpose(r, ts[0]), ts[1..], t);
    }
  }

  /** Swaps keep a permutation a permutation. */
  lemma {:induction false} TranspositionsKeepPermutation(r: seq<nat>, ts: seq<Transposition>, n: nat)
    requires IsPermutation(r, n) && TranspositionsWithin(ts, |r|)
    ensures IsPermutation(ApplyTranspositions(r, ts), n)
    decreases ts
  {
    if ts != [] {
      var s := Transpose(r, ts[0]);
      forall p, q | 0 <= p < q < |s| ensures s[p] != s[q] {
        var p' := if p == ts[0].source then ts[0].dest else if p == ts[0].dest then ts[0].source else p;
        var q' := if q == ts[0].source then ts[0].dest else if q == ts[0].dest then ts[0].source else q;
        assert s[p] == r[p'] && s[q] == r[q'] && p' != q';
      }
      TranspositionsKeepPermutation(s, ts[1..], n);
    }
  }

  /** A hop found by the longest-hop scan: its distance and an index (-1 if none). */
  datatype Hop = Hop(distance: real, index: int)

  /** What `longest_hop_with_index` computes as written: since it never moves on from the
      first system, the largest distance from `r[0]` to any later system (0 if none is
      positive), with the system index (not the position) of the first system that far
      away, or -1. */
  ghost predicate IsFarthestFromFirst(m: StarMap, r: seq<nat>, h: Hop)
    requires |r| > 0
  {
    && 0.0 <= h.distance
    && (forall k :: 0 < k < |r| ==> m.dist(r[0], r[k]) <= h.distance)
    && (h.index == -1 <==> h.distance == 0.0)
    && (h.index != -1 ==>
          exists k :: 0 < k < |r| && h.index == r[k] && m.dist(r[0], r[k]) == h.distance
                      && forall q :: 0 < q < k ==> m.dist(r[0], r[q]) < h.distance)
  }

  /** The longest hop of the route (0 if no hop is positive), with the position of the
      first hop's arriving end that long, or -1. */
  function LongestHop(m: StarMap, r: seq<nat>): (h: Hop)
    ensures 0.0 <= h.distance
    ensures forall k :: 0 < k < |r| ==> m.dist(r[k - 1], r[k]) <= h.distance
    ensures h.index == -1 <==> h.distance == 0.0
    ensures h.index != -1 ==>
      0 < h.index < |r| && m.dist(r[h.index - 1], r[h.index]) == h.distance
      && forall q :: 0 < q < h.index ==> m.dist(r[q - 1], r[q]) < h.distance
  {
    if |r| < 2 then Hop(0.0, -1)
    else
      var prefix := r[..|r| - 1];
      var h := LongestHop(m, prefix);
      var d := m.dist(r[|r| - 2], r[|r| - 1]);
      if d > h.distance then Hop(d, |r| - 1) else h
  }
}

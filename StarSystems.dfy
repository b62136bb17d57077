/** The spatial model: the systems loaded at start-up, each system's dictionary of
    distances to every other system, and that dictionary sorted by distance. */
module StarSystems {
  import opened Outcomes

  /** The systems, known by their index 0 .. n-1 in load order, and the distance between
      two of them (the magnitude of the difference of their positions). */
  datatype StarMap = StarMap(n: nat, dist: (nat, nat) -> real)

  /** Distances between distinct systems are symmetric and non-negative. */
  ghost predicate WellFormed(m: StarMap) {
    forall i, j :: 0 <= i < m.n && 0 <= j < m.n && i != j ==>
      m.dist(i, j) == m.dist(j, i) && 0.0 <= m.dist(i, j)
  }

  /** One item of a system's distance dictionary: another system and the distance to it. */
  datatype Entry = Entry(system: nat, distance: real)

  /** The keys of a dictionary held as its items in insertion order. */
  function Keys(d: seq<Entry>): set<nat> {
    set e | e in d :: e.system
  }

  /** No key occurs twice among a dictionary's items. */
  ghost predicate UniqueKeys(d: seq<Entry>) {
    forall p, q :: 0 <= p < q < |d| ==> d[p].system != d[q].system
  }

  /** Reading `d[system]`: the value stored under the key, or None for a KeyError. */
  function Lookup(d: seq<Entry>, system: nat): (r: Option<real>)
    ensures r.None? <==> system !in Keys(d)
    ensures r.Some? ==> Entry(system, r.value) in d
  {
    if d == [] then None
    else if d[0].system == system then Some(d[0].distance)
    else Lookup(d[1..], system)
  }

  /** `StarSystem.add_distance`, the assignment `d[system] = distance`: afterwards the
      key is present with the new value and every other key reads as before; an existing
      key keeps its place (the other entries stay where they were), and a new key goes at
      the end of the insertion order. */
  function AddDistance(d: seq<Entry>, system: nat, distance: real): (r: seq<Entry>)
    ensures Keys(r) == Keys(d) + {system}
    ensures Lookup(r, system) == Some(distance)
    ensures forall k :: k != system ==> Lookup(r, k) == Lookup(d, k)
    ensures system !in Keys(d) ==> r == d + [Entry(system, distance)]
    ensures system in Keys(d) ==>
      |r| == |d| && forall p :: 0 <= p < |d| && d[p].system != system ==> r[p] == d[p]
  {
    if d == [] then [Entry(system, distance)]
    else
      KeysCons(d[0], d[1..]);
      assert d == [d[0]] + d[1..];
      if d[0].system == system then
        KeysCons(Entry(system, distance), d[1..]);
        [Entry(system, distance)] + d[1..]
      else
        var t := AddDistance(d[1..], system, distance);
        KeysCons(d[0], t);
        [d[0]] + t
  }

  lemma KeysCons(e: Entry, t: seq<Entry>)
    ensures Keys([e] + t) == {e.system} + Keys(t)
  {
    assert forall x :: x in [e] + t <==> x == e || x in t;
  }

  /** The items of system `i`'s distance dictionary after the cache loop has visited the
      systems 0 .. upto-1: one entry for each of them except `i` itself, in index order. */
  function DistancesBelow(m: StarMap, i: nat, upto: nat): seq<Entry> {
    if upto == 0 then []
    else DistancesBelow(m, i, upto - 1)
         + (if upto - 1 == i then [] else [Entry(upto - 1, m.dist(i, upto - 1))])
  }

  /** System `i`'s distance dictionary once the cache is built. */
  function Distances(m: StarMap, i: nat): seq<Entry> {
    DistancesBelow(m, i, m.n)
  }

  /** The dictionary holds exactly the other systems below `upto`, each with its distance
      from `i`, in strictly increasing index order. */
  lemma {:induction false} DistancesBelowContents(m: StarMap, i: nat, upto: nat)
    ensures forall e :: e in DistancesBelow(m, i, upto) <==>
      e.system < upto && e.system != i && e.distance == m.dist(i, e.system)
    ensures forall p, q :: 0 <= p < q < |DistancesBelow(m, i, upto)| ==>
      DistancesBelow(m, i, upto)[p].system < DistancesBelow(m, i, upto)[q].system
    ensures |DistancesBelow(m, i, upto)| == if i < upto then upto - 1 else upto
  {
    if upto > 0 {
      DistancesBelowContents(m, i, upto - 1);
    }
  }

  /** Storing the next system's distance extends the dictionary by one entry at the end. */
  lemma AddNextDistance(m: StarMap, i: nat, upto: nat)
    requires upto != i
    ensures AddDistance(DistancesBelow(m, i, upto), upto, m.dist(i, upto)) == DistancesBelow(m, i, upto + 1)
  {
    DistancesBelowContents(m, i, upto);
    assert upto !in Keys(DistancesBelow(m, i, upto));
  }

  /** The inner cache loop for system `start`: for every other system, store the
      distance in `start`'s dictionary. */
  method FillDistances(m: StarMap, start: nat) returns (distances: seq<Entry>)
    ensures distances == Distances(m, start)
  {
    distances := [];
    var end := 0;
    while end < m.n
      invariant end <= m.n
      invariant distances == DistancesBelow(m, start, end)
    {
      if end != start {
        AddNextDistance(m, start, end);
        distances := AddDistance(distances, end, m.dist(start, end));
      }
      assert distances == DistancesBelow(m, start, end + 1);
      end := end + 1;
    }
  }

  /** The cache loop: for every system, for every other system, store the distance in the
      first system's dictionary. */
  method BuildDistanceCache(m: StarMap) returns (cache: seq<seq<Entry>>)
    ensures |cache| == m.n
    ensures forall i :: 0 <= i < m.n ==> cache[i] == Distances(m, i)
  {
    cache := [];
    var start := 0;
    while start < m.n
      invariant start <= m.n && |cache| == start
      invariant forall i :: 0 <= i < start ==> cache[i] == Distances(m, i)
    {
      var distances := FillDistances(m, start);
      cache := cache + [distances];
      start := start + 1;
    }
  }

  /** Every key of system `i`'s dictionary is another system, and every other system is
      a key, stored with its distance from `i`. */
  lemma DistancesContents(m: StarMap, i: nat)
    ensures forall e :: e in Distances(m, i) <==>
      e.system < m.n && e.system != i && e.distance == m.dist(i, e.system)
    ensures UniqueKeys(Distances(m, i))
    ensures |Distances(m, i)| == if i < m.n then m.n - 1 else m.n
  {
    DistancesBelowContents(m, i, m.n);
  }

  /** `StarSystem.distance_to`: the cached distance from `i` to `j`. The lookup finds the
      distance for every other system, and raises KeyError (None) for the system itself
      and for indices outside the map. */
  function DistanceTo(m: StarMap, i: nat, j: nat): (r: Option<real>)
    ensures r == if j < m.n && j != i then Some(m.dist(i, j)) else None
  {
    var d := Distances(m, i);
    DistancesContents(m, i);
    if j < m.n && j != i then
      assert Entry(j, m.dist(i, j)) in d;
      assert Entry(j, Lookup(d, j).value) in d;
      Lookup(d, j)
    else
      assert j !in Keys(d);
      Lookup(d, j)
  }

  /** On a well-formed map the cache answers the same in both directions. */
  lemma DistanceToSymmetric(m: StarMap, i: nat, j: nat)
    requires WellFormed(m) && i < m.n && j < m.n
    ensures DistanceTo(m, i, j) == DistanceTo(m, j, i)
  {
  }

  /** Entry `a` comes before entry `b`: it is nearer, or as near and of a lower index. */
  predicate Precedes(a: Entry, b: Entry) {
    a.distance < b.distance || (a.distance == b.distance && a.system < b.system)
  }

  ghost predicate SortedByDistance(s: seq<Entry>) {
    forall p, q :: 0 <= p < q < |s| ==> s[p].distance <= s[q].distance
  }

  /** Strictly ascending by distance, ties in ascending index order. */
  ghost predicate AscendingNearestFirst(s: seq<Entry>) {
    forall p, q :: 0 <= p < q < |s| ==> Precedes(s[p], s[q])
  }

  /** Inserts `e` before the first entry at least as far away. */
  function InsertByDistance(e: Entry, s: seq<Entry>): (r: seq<Entry>)
    ensures multiset(r) == multiset(s) + multiset{e}
  {
    if s == [] || e.distance <= s[0].distance then [e] + s
    else
      assert s == [s[0]] + s[1..];
      [s[0]] + InsertByDistance(e, s[1..])
  }

  lemma {:induction false} InsertKeepsSorted(e: Entry, s: seq<Entry>)
    requires SortedByDistance(s)
    ensures SortedByDistance(InsertByDistance(e, s))
  {
    if !(s == [] || e.distance <= s[0].distance) {
      InsertKeepsSorted(e, s[1..]);
      var t := InsertByDistance(e, s[1..]);
      forall x | x in t ensures s[0].distance <= x.distance {
        assert x in multiset(t);
      }
    }
  }

  /** Python's `sorted(..., key=distance)`: a stable sort, here an insertion sort that
      inserts each entry ahead of the later entries at the same distance. */
  function SortByDistance(s: seq<Entry>): (r: seq<Entry>)
    ensures multiset(r) == multiset(s)
    ensures SortedByDistance(r)
  {
    if s == [] then []
    else
      var t := SortByDistance(s[1..]);
      InsertKeepsSorted(s[0], t);
      assert s == [s[0]] + s[1..];
      InsertByDistance(s[0], t)
  }

  lemma {:induction false} InsertKeepsOrder(e: Entry, s: seq<Entry>)
    requires AscendingNearestFirst(s)
    requires forall x :: x in s ==> e.system < x.system
    ensures AscendingNearestFirst(InsertByDistance(e, s))
  {
    if s == [] || e.distance <= s[0].distance {
      var r := [e] + s;
      forall p, q | 0 <= p < q < |r| ensures Precedes(r[p], r[q]) {
        if p == 0 && q > 1 {
          assert Precedes(s[0], s[q - 1]);
        }
      }
    } else {
      InsertKeepsOrder(e, s[1..]);
      var t := InsertByDistance(e, s[1..]);
      var r := [s[0]] + t;
      forall p, q | 0 <= p < q < |r| ensures Precedes(r[p], r[q]) {
        if p == 0 {
          assert r[q] in multiset(t);
          assert r[q] == e || r[q] in s[1..];
        }
      }
    }
  }

  /** Stability: when the input lists the systems in increasing index order (as every
      distance dictionary does), the sorted list is ascending by distance with ties in
      ascending index order. */
  lemma {:induction false} SortIsStable(s: seq<Entry>)
    requires forall p, q :: 0 <= p < q < |s| ==> s[p].system < s[q].system
    ensures AscendingNearestFirst(SortByDistance(s))
  {
    if s != [] {
      SortIsStable(s[1..]);
      var t := SortByDistance(s[1..]);
      forall x | x in t ensures s[0].system < x.system {
        assert x in multiset(s[1..]);
      }
      InsertKeepsOrder(s[0], t);
    }
  }

  /** `StarSystem.ordered_distances`: the other systems nearest first, ties in index order. */
  function OrderedDistances(m: StarMap, i: nat): (r: seq<Entry>)
    ensures forall e :: e in r <==>
      e.system < m.n && e.system != i && e.distance == m.dist(i, e.system)
    ensures AscendingNearestFirst(r)
    ensures |r| == if i < m.n then m.n - 1 else m.n
  {
    DistancesContents(m, i);
    DistancesBelowContents(m, i, m.n);
    SortIsStable(Distances(m, i));
    var r := SortByDistance(Distances(m, i));
    assert forall e :: e in r <==> e in multiset(Distances(m, i));
    r
  }
}

/** The random swaps of a mutation and the signature string that names them. The draws of
    `random.randint` and `random.choice` are inputs here, each limited to the range the
    optimiser draws it from. */
module Mutations {
  import opened Outcomes
  import opened Routes

  /** The draws for one swap of `mutate_route_random`: `randint(0, N-1)` for the source
      position, `choice([1, -1])` for the direction, `randint(1, ...)` for the distance. */
  datatype SwapDraw = SwapDraw(source: int, direction: int, distance: int)

  /** The draws for one call: `randint(1, upper_mutation_count)` swaps, and their draws. */
  datatype MutationDraw = MutationDraw(count: int, swaps: seq<SwapDraw>)

  function Min(a: int, b: int): int {
    if a <= b then a else b
  }

  function Max(a: int, b: int): int {
    if a <= b then b else a
  }

  /** The direction used: always up from the first position, always down from the last. */
  function SwapDirection(n: nat, source: int, drawn: int): int {
    if source == 0 then 1 else if source == n - 1 then -1 else drawn
  }

  /** How far a swap can reach from `source` in `direction` before the route's edge. */
  function MaxSwapDistance(n: nat, source: int, direction: int): int {
    if direction == -1 then source else n - 1 - source
  }

  /** The values the three draws of one swap can take on a route of `n` systems. */
  predicate ValidSwapDraw(n: nat, upperDistance: int, d: SwapDraw) {
    && 0 <= d.source <= n - 1
    && (d.direction == 1 || d.direction == -1)
    && 1 <= d.distance
    && d.distance <= Min(upperDistance, MaxSwapDistance(n, d.source, SwapDirection(n, d.source, d.direction)))
  }

  /** The values the draws of one `mutate_route_random` call can take. */
  predicate ValidMutationDraw(n: nat, upperCount: int, upperDistance: int, md: MutationDraw) {
    && 1 <= md.count <= upperCount
    && |md.swaps| == md.count
    && forall k :: 0 <= k < |md.swaps| ==> ValidSwapDraw(n, upperDistance, md.swaps[k])
  }

  /** The position the source is swapped with. */
  function SwapDestination(n: nat, d: SwapDraw): int {
    d.source + SwapDirection(n, d.source, d.direction) * d.distance
  }

  /** Each swap stays on the route, moves the system somewhere else, and reaches no
      further than the allowed mutation distance. */
  lemma SwapBounds(n: nat, upperDistance: int, d: SwapDraw)
    requires ValidSwapDraw(n, upperDistance, d)
    ensures 0 <= SwapDestination(n, d) < n
    ensures SwapDestination(n, d) != d.source
    ensures -upperDistance <= SwapDestination(n, d) - d.source <= upperDistance
  {
  }

  /** The swap one set of draws makes. */
  function DrawnTransposition(n: nat, upperDistance: int, d: SwapDraw): (t: Transposition)
    requires ValidSwapDraw(n, upperDistance, d)
    ensures t.source == d.source && t.dest == SwapDestination(n, d)
    ensures t.source < n && t.dest < n && t.source != t.dest
  {
    SwapBounds(n, upperDistance, d);
    Transposition(d.source, SwapDestination(n, d))
  }

  /** The swaps that a call's draws make, in order. */
  function DrawnTranspositions(n: nat, upperDistance: int, ds: seq<SwapDraw>): (ts: seq<Transposition>)
    requires forall k :: 0 <= k < |ds| ==> ValidSwapDraw(n, upperDistance, ds[k])
    ensures |ts| == |ds| && TranspositionsWithin(ts, n)
    ensures forall k :: 0 <= k < |ds| ==> ts[k] == DrawnTransposition(n, upperDistance, ds[k])
  {
    if ds == [] then []
    else
      var last := ds[|ds| - 1];
      assert ValidSwapDraw(n, upperDistance, last);
      DrawnTranspositions(n, upperDistance, ds[..|ds| - 1]) + [DrawnTransposition(n, upperDistance, last)]
  }

  /** One step of a call's swap loop: the swap of the next draw follows the swaps before
      it, the route changes by exactly that swap, and the string grows by its part. */
  lemma DrawnSwapStep(n: nat, upperDistance: int, ds: seq<SwapDraw>, k: nat, best: seq<nat>)
    requires k < |ds| && |best| == n
    requires forall q :: 0 <= q < |ds| ==> ValidSwapDraw(n, upperDistance, ds[q])
    ensures ValidSwapDraw(n, upperDistance, ds[k])
    ensures
      var t := DrawnTransposition(n, upperDistance, ds[k]);
      var prior := DrawnTranspositions(n, upperDistance, ds[..k]);
      && DrawnTranspositions(n, upperDistance, ds[..k + 1]) == prior + [t]
      && ApplyTranspositions(best, prior + [t]) == Transpose(ApplyTranspositions(best, prior), t)
      && Signature(prior + [t]) == Signature(prior) + SwapSignature(t)
  {
    assert ds[..k + 1][..k] == ds[..k];
    assert ValidSwapDraw(n, upperDistance, ds[k]);
    var t := DrawnTransposition(n, upperDistance, ds[k]);
    var prior := DrawnTranspositions(n, upperDistance, ds[..k]);
    ApplyTranspositionsAppend(best, prior, t);
    SignatureAppend(prior, t);
  }

  // ----- The signature string -----

  function DigitChar(d: nat): char
    requires d < 10
  {
    "0123456789"[d]
  }

  predicate IsDigit(c: char) {
    '0' <= c <= '9'
  }

  function DigitValue(c: char): nat
    requires IsDigit(c)
  {
    (c - '0') as nat
  }

  /** `str(x)` for a non-negative integer: its decimal digits, most significant first. */
  function Decimal(x: nat): (s: string)
    ensures |s| > 0 && forall k :: 0 <= k < |s| ==> IsDigit(s[k])
  {
    if x < 10 then [DigitChar(x)] else Decimal(x / 10) + [DigitChar(x % 10)]
  }

  /** The number a string of decimal digits denotes. */
  function DecimalValue(s: string): nat
    requires forall k :: 0 <= k < |s| ==> IsDigit(s[k])
  {
    if s == [] then 0 else 10 * DecimalValue(s[..|s| - 1]) + DigitValue(s[|s| - 1])
  }

  lemma {:induction false} DecimalRoundTrip(x: nat)
    ensures DecimalValue(Decimal(x)) == x
  {
    if x >= 10 {
      DecimalRoundTrip(x / 10);
      var s := Decimal(x);
      assert s[..|s| - 1] == Decimal(x / 10);
    }
  }

  /** `f"{source}-{dest}:"`: what one swap adds to the mutation string. */
  function SwapSignature(t: Transposition): string {
    Decimal(t.source) + "-" + Decimal(t.dest) + ":"
  }

  /** The mutation string of a list of swaps. */
  function Signature(ts: seq<Transposition>): string {
    if ts == [] then "" else SwapSignature(ts[0]) + Signature(ts[1..])
  }

  /** The loop builds the string by appending each swap's part. */
  lemma {:induction false} SignatureAppend(ts: seq<Transposition>, t: Transposition)
    ensures Signature(ts + [t]) == Signature(ts) + SwapSignature(t)
  {
    if ts != [] {
      assert (ts + [t])[1..] == ts[1..] + [t];
      SignatureAppend(ts[1..], t);
    }
  }

  /** The text before the first `c` and the text after it, if `c` occurs. */
  function SplitAt(s: string, c: char): (r: Option<(string, string)>)
    ensures r.Some? ==> |r.value.1| < |s|
  {
    if s == [] then None
    else if s[0] == c then Some(([], s[1..]))
    else match SplitAt(s[1..], c)
      case None => None
      case Some(p) => Some(([s[0]] + p.0, p.1))
  }

  lemma {:induction false} SplitAfterDigits(w: string, c: char, rest: string)
    requires forall k :: 0 <= k < |w| ==> IsDigit(w[k])
    requires !IsDigit(c)
    ensures SplitAt(w + [c] + rest, c) == Some((w, rest))
  {
    if w != [] {
      assert (w + [c] + rest)[1..] == w[1..] + [c] + rest;
      SplitAfterDigits(w[1..], c, rest);
      assert [w[0]] + w[1..] == w;
    }
  }

  predicate AllDigits(s: string) {
    forall k :: 0 <= k < |s| ==> IsDigit(s[k])
  }

  /** Reads a mutation string back into its swaps; None if it is not one. */
  function ParseSignature(s: string): Option<seq<Transposition>>
    decreases |s|
  {
    if s == [] then Some([])
    else match SplitAt(s, '-')
      case None => None
      case Some(p) =>
        match SplitAt(p.1, ':')
        case None => None
        case Some(q) =>
          if !AllDigits(p.0) || !AllDigits(q.0) then None
          else match ParseSignature(q.1)
            case None => None
            case Some(ts) => Some([Transposition(DecimalValue(p.0), DecimalValue(q.0))] + ts)
  }

  /** The mutation string records the swaps exactly: reading it back gives them. */
  lemma {:induction false} SignatureRoundTrip(ts: seq<Transposition>)
    ensures ParseSignature(Signature(ts)) == Some(ts)
  {
    if ts != [] {
      var t := ts[0];
      var rest := Signature(ts[1..]);
      var a, b := Decimal(t.source), Decimal(t.dest);
      assert Signature(ts) == a + ['-'] + (b + [':'] + rest);
      SplitAfterDigits(a, '-', b + [':'] + rest);
      SplitAfterDigits(b, ':', rest);
      DecimalRoundTrip(t.source);
      DecimalRoundTrip(t.dest);
      SignatureRoundTrip(ts[1..]);
      assert [Transposition(t.source, t.dest)] + ts[1..] == ts;
    }
  }

  /** So two calls share a mutation string exactly when they made the same swaps, and
      skipping a seen string skips exactly a repeated swap list. */
  lemma SignatureIsInjective(ts1: seq<Transposition>, ts2: seq<Transposition>)
    requires Signature(ts1) == Signature(ts2)
    ensures ts1 == ts2
  {
    SignatureRoundTrip(ts1);
    SignatureRoundTrip(ts2);
  }

  // ----- The draws of the second mutation variant, `mutate_route` -----

  /** The values the draws of one attempt of `mutate_route` can take: the distance is
      drawn only when the allowed distance exceeds 1, and is 1 otherwise. */
  predicate ValidClampedDraw(n: nat, allowedDistance: int, d: SwapDraw) {
    && 0 <= d.source <= n - 1
    && (d.direction == 1 || d.direction == -1)
    && (if allowedDistance > 1 then 1 <= d.distance <= allowedDistance else d.distance == 1)
  }

  /** The destination, clamped onto the route. */
  function ClampedDestination(n: nat, d: SwapDraw): int {
    Max(0, Min(d.source + d.direction * d.distance, n - 1))
  }

  /** The attempt swaps something (else the source draws again). */
  predicate Effective(n: nat, d: SwapDraw) {
    ClampedDestination(n, d) != d.source
  }

  /** The swaps that a run of attempts makes, in order, leaving out the attempts that
      would swap a position with itself. */
  function ClampedTranspositions(n: nat, allowedDistance: int, ds: seq<SwapDraw>): (ts: seq<Transposition>)
    requires forall k :: 0 <= k < |ds| ==> ValidClampedDraw(n, allowedDistance, ds[k])
    ensures TranspositionsWithin(ts, n) && |ts| <= |ds|
    ensures forall k :: 0 <= k < |ts| ==> ts[k].source != ts[k].dest
  {
    if ds == [] then []
    else
      var last := ds[|ds| - 1];
      var prior := ClampedTranspositions(n, allowedDistance, ds[..|ds| - 1]);
      assert ValidClampedDraw(n, allowedDistance, last);
      if Effective(n, last)
      then prior + [Transposition(last.source, ClampedDestination(n, last))]
      else prior
  }

  /** One step of the clamped loop: an effective attempt adds its swap after the swaps
      before it and changes the route by exactly that swap; any other attempt adds none. */
  lemma ClampedSwapStep(n: nat, allowedDistance: int, ds: seq<SwapDraw>, k: nat, best: seq<nat>)
    requires k < |ds| && |best| == n
    requires forall q :: 0 <= q < |ds| ==> ValidClampedDraw(n, allowedDistance, ds[q])
    ensures ValidClampedDraw(n, allowedDistance, ds[k])
    ensures
      var t := Transposition(ds[k].source, ClampedDestination(n, ds[k]));
      var prior := ClampedTranspositions(n, allowedDistance, ds[..k]);
      && t.source < n && t.dest < n
      && ClampedTranspositions(n, allowedDistance, ds[..k + 1])
         == prior + (if Effective(n, ds[k]) then [t] else [])
      && ApplyTranspositions(best, prior + [t]) == Transpose(ApplyTranspositions(best, prior), t)
  {
    assert ds[..k + 1][..k] == ds[..k];
    assert ValidClampedDraw(n, allowedDistance, ds[k]);
    var t := Transposition(ds[k].source, ClampedDestination(n, ds[k]));
    ApplyTranspositionsAppend(best, ClampedTranspositions(n, allowedDistance, ds[..k]), t);
  }
}

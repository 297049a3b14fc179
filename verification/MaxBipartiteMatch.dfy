/** The Ford-Fulkerson bipartite matcher behind gMock's UnorderedElementsAre.
    Left nodes are elements, right nodes are matchers. The main results are that
    Compute returns a matching of maximum cardinality although it searches from
    each left node only once, and that FindPairing decides exactly whether some
    matching covers every matcher. */
module MaxBipartiteMatch {

  const UNUSED := -1  // kUnused, size_t(-1) in the source

  type Pair = (int, int)  // an element and the matcher it is assigned to

  /** The bit matrix that says which element satisfies which matcher, stored flat
      in element-major order. */
  datatype MatchMatrix = MatchMatrix(numElements: nat, numMatchers: nat, matched: seq<bool>) {
    ghost predicate Valid() {
      |matched| == numElements * numMatchers
    }

    function SpaceIndex(ilhs: nat, irhs: nat): (i: nat)
      requires Valid() && ilhs < numElements && irhs < numMatchers
      ensures i < |matched|
    {
      RowFits(ilhs, numElements, numMatchers);
      ilhs * numMatchers + irhs
    }

    predicate HasEdge(ilhs: nat, irhs: nat)
      requires Valid() && ilhs < numElements && irhs < numMatchers
    {
      matched[SpaceIndex(ilhs, irhs)]
    }

    ghost predicate Edge(l: int, r: int)
      requires Valid()
    {
      0 <= l < numElements && 0 <= r < numMatchers && HasEdge(l, r)
    }
  }

  lemma RowFits(row: nat, rows: nat, width: nat)
    requires row < rows
    ensures row * width + width <= rows * width
  {
    assert (row + 1) * width <= rows * width;
  }

  /** A set of edges that uses no left and no right node twice. */
  ghost predicate IsMatching(g: MatchMatrix, m: set<Pair>)
    requires g.Valid()
  {
    && (forall p | p in m :: g.Edge(p.0, p.1))
    && (forall p, q | p in m && q in m && p.0 == q.0 :: p == q)
    && (forall p, q | p in m && q in m && p.1 == q.1 :: p == q)
  }

  ghost predicate Covered(m: set<Pair>, r: int) {
    exists p :: p in m && p.1 == r
  }

  ghost predicate CoversAllMatchers(g: MatchMatrix, m: set<Pair>) {
    forall r | 0 <= r < g.numMatchers :: Covered(m, r)
  }

  // ---------------------------------------------------------------------------
  // The state of the search, as predicates on the two vectors
  // ---------------------------------------------------------------------------

  ghost predicate Shaped(g: MatchMatrix, left: seq<int>, right: seq<int>) {
    && |left| == g.numElements
    && |right| == g.numMatchers
    && (forall l | 0 <= l < |left| :: UNUSED <= left[l] < |right|)
    && (forall r | 0 <= r < |right| :: UNUSED <= right[r] < |left|)
  }

  /** left and right refer to each other along edges, except that the right node
      `stale` may still name a left node that has moved on. */
  ghost predicate MutualExcept(g: MatchMatrix, left: seq<int>, right: seq<int>, stale: int)
    requires g.Valid()
  {
    && Shaped(g, left, right)
    && (forall l | 0 <= l < |left| && left[l] != UNUSED :: right[left[l]] == l && g.Edge(l, left[l]))
    && (forall r | 0 <= r < |right| && r != stale && right[r] != UNUSED :: left[right[r]] == r)
  }

  /** The documented invariant: every entry is unused or mutually referent. */
  ghost predicate Mutual(g: MatchMatrix, left: seq<int>, right: seq<int>)
    requires g.Valid()
  {
    MutualExcept(g, left, right, UNUSED)
  }

  ghost predicate NeighboursIn(g: MatchMatrix, l: int, s: set<int>)
    requires g.Valid()
  {
    forall r | g.Edge(l, r) :: r in s
  }

  /** A set of right nodes no augmenting path can leave: each is matched and its
      partner has neighbours inside the set only. */
  ghost predicate DeadEnd(g: MatchMatrix, right: seq<int>, dead: set<int>)
    requires g.Valid()
  {
    forall r | r in dead :: 0 <= r < |right| && right[r] != UNUSED && NeighboursIn(g, right[r], dead)
  }

  ghost function Marked(seen: seq<bool>): set<int> {
    set r | 0 <= r < |seen| && seen[r]
  }

  ghost function Unmarked(seen: seq<bool>): set<int> {
    set r | 0 <= r < |seen| && !seen[r]
  }

  /** Nodes seen since `before` are matched, and their partners' neighbours are all seen. */
  ghost predicate NewlySeenExhausted(g: MatchMatrix, right: seq<int>, before: seq<bool>, now: seq<bool>)
    requires g.Valid() && |before| == |now| == |right|
  {
    forall r | 0 <= r < |now| && now[r] && !before[r] ::
      right[r] != UNUSED && NeighboursIn(g, right[r], Marked(now))
  }

  ghost predicate SeenGrows(before: seq<bool>, now: seq<bool>) {
    |before| == |now| && forall r | 0 <= r < |before| && before[r] :: now[r]
  }

  /** Marking one more node leaves fewer unmarked. */
  lemma UnmarkedShrinks(before: seq<bool>, now: seq<bool>, r: nat)
    requires SeenGrows(before, now) && r < |now| && !now[r]
    ensures Unmarked(now[r := true]) < Unmarked(before)
  {
    assert r in Unmarked(before) && r !in Unmarked(now[r := true]);
  }

  /** What a failed search from ilhs leaves behind. */
  ghost predicate Exhausted(g: MatchMatrix, right: seq<int>, before: seq<bool>, now: seq<bool>, ilhs: int)
    requires g.Valid()
  {
    && SeenGrows(before, now) && |now| == |right|
    && NeighboursIn(g, ilhs, Marked(now))
    && NewlySeenExhausted(g, right, before, now)
  }

  /** What a successful search from ilhs makes of the two vectors: the matching is
      again mutual but for the node ilhs was matched to, ilhs alone is newly matched
      on the left, only nodes unseen before are touched, and dead ends are untouched. */
  ghost predicate Augmented(g: MatchMatrix, left: seq<int>, right: seq<int>, seen: seq<bool>, ilhs: int,
                            left': seq<int>, right': seq<int>)
    requires g.Valid()
  {
    && |left'| == |left| && |right'| == |right| == |seen| && 0 <= ilhs < |left|
    && Shaped(g, left, right)
    && MutualExcept(g, left', right', left[ilhs])
    && left'[ilhs] != UNUSED && left'[ilhs] != left[ilhs]
    && (forall l | 0 <= l < |left| && l != ilhs :: left'[l] == UNUSED <==> left[l] == UNUSED)
    && (forall l | 0 <= l < |left| && l != ilhs && left'[l] != left[l] :: left[l] != UNUSED && !seen[left[l]])
    && (forall r | 0 <= r < |right| && seen[r] :: right'[r] == right[r])
    && (forall r | 0 <= r < |right| && right[r] != UNUSED :: right'[r] != UNUSED)
  }

  ghost predicate DeadUntouched(g: MatchMatrix, right: seq<int>, right': seq<int>, dead: set<int>, ilhs: int)
    requires g.Valid()
  {
    && |right| == |right'|
    && !NeighboursIn(g, ilhs, dead)
    && forall r | r in dead && 0 <= r < |right| :: right'[r] == right[r]
  }

  lemma AugmentDirectly(g: MatchMatrix, left: seq<int>, right: seq<int>, seen: seq<bool>, ilhs: int, irhs: int)
    requires g.Valid() && Mutual(g, left, right) && |seen| == |right|
    requires g.Edge(ilhs, irhs) && !seen[irhs] && right[irhs] == UNUSED
    requires left[ilhs] == UNUSED || seen[left[ilhs]]
    ensures Augmented(g, left, right, seen, ilhs, left[ilhs := irhs], right[irhs := ilhs])
  {
  }

  lemma AugmentThrough(g: MatchMatrix, left: seq<int>, right: seq<int>, seen: seq<bool>, seen': seq<bool>,
                       ilhs: int, irhs: int, left1: seq<int>, right1: seq<int>)
    requires g.Valid() && Mutual(g, left, right) && |seen| == |right|
    requires g.Edge(ilhs, irhs) && !seen[irhs] && right[irhs] != UNUSED
    requires left[ilhs] == UNUSED || seen[left[ilhs]]
    requires SeenGrows(seen, seen') && seen'[irhs]
    requires Augmented(g, left, right, seen', right[irhs], left1, right1)
    ensures Augmented(g, left, right, seen, ilhs, left1[ilhs := irhs], right1[irhs := ilhs])
  {
    assert left[right[irhs]] == irhs;
    assert ilhs != right[irhs];
    assert left1[ilhs] == left[ilhs];
  }

  // ---------------------------------------------------------------------------
  // Maximality
  // ---------------------------------------------------------------------------

  /** The pairs read off the first n entries of left, in order. */
  function PairsUpTo(left: seq<int>, n: nat): seq<Pair>
    requires n <= |left| && forall l | 0 <= l < n :: UNUSED <= left[l]
  {
    if n == 0 then []
    else if left[n - 1] == UNUSED then PairsUpTo(left, n - 1)
    else PairsUpTo(left, n - 1) + [(n - 1, left[n - 1])]
  }

  ghost function Elements<T>(s: seq<T>): set<T> {
    set x | x in s
  }

  lemma {:induction false} PairIsEntry(left: seq<int>, n: nat, p: Pair)
    requires n <= |left| && forall l | 0 <= l < n :: UNUSED <= left[l]
    ensures p in PairsUpTo(left, n) <==> 0 <= p.0 < n && left[p.0] == p.1 != UNUSED
  {
    if n > 0 {
      PairIsEntry(left, n - 1, p);
    }
  }

  lemma SnocSize<T>(s: seq<T>, x: T)
    requires x !in s
    ensures |Elements(s + [x])| == |Elements(s)| + 1
  {
    assert Elements(s + [x]) == Elements(s) + {x};
  }

  lemma {:induction false} PairsAreDistinct(left: seq<int>, n: nat)
    requires n <= |left| && forall l | 0 <= l < n :: UNUSED <= left[l]
    ensures |Elements(PairsUpTo(left, n))| == |PairsUpTo(left, n)|
  {
    if n > 0 {
      PairsAreDistinct(left, n - 1);
      PairIsEntry(left, n - 1, (n - 1, left[n - 1]));
      if left[n - 1] != UNUSED {
        SnocSize(PairsUpTo(left, n - 1), (n - 1, left[n - 1]));
      }
    }
  }

  /** A mutual pair of vectors represents a matching. */
  lemma MutualIsMatching(g: MatchMatrix, left: seq<int>, right: seq<int>)
    requires g.Valid() && Mutual(g, left, right)
    ensures IsMatching(g, Elements(PairsUpTo(left, |left|)))
    ensures |Elements(PairsUpTo(left, |left|))| == |PairsUpTo(left, |left|)|
  {
    PairsAreDistinct(left, |left|);
    forall p | p in PairsUpTo(left, |left|)
      ensures 0 <= p.0 < |left| && left[p.0] == p.1 != UNUSED
    {
      PairIsEntry(left, |left|, p);
    }
  }

  lemma {:induction false} InjectionBound<A, B>(a: set<A>, b: set<B>, f: A -> B)
    requires forall x | x in a :: f(x) in b
    requires forall x, y | x in a && y in a && f(x) == f(y) :: x == y
    ensures |a| <= |b|
    decreases a
  {
    if a != {} {
      var x :| x in a;
      InjectionBound(a - {x}, b - {f(x)}, f);
    }
  }

  /** The vertex cover argument. The dead right nodes, together with the left nodes
      matched outside them, touch every edge, and each is the end of one matched pair. */
  ghost function Charge(left: seq<int>, right: seq<int>, dead: set<int>, p: Pair): Pair {
    if p.1 in dead && 0 <= p.1 < |right| then (right[p.1], p.1)
    else if 0 <= p.0 < |left| then (p.0, left[p.0])
    else (UNUSED, UNUSED)
  }

  lemma ChargeIsMatched(g: MatchMatrix, left: seq<int>, right: seq<int>, dead: set<int>, p: Pair)
    requires g.Valid() && Mutual(g, left, right) && DeadEnd(g, right, dead)
    requires forall l | 0 <= l < |left| && left[l] == UNUSED :: NeighboursIn(g, l, dead)
    requires g.Edge(p.0, p.1)
    ensures var q := Charge(left, right, dead, p);
      0 <= q.0 < |left| && left[q.0] == q.1 != UNUSED && (q.1 in dead <==> p.1 in dead)
  {
    assert NeighboursIn(g, p.0, dead) ==> p.1 in dead;
  }

  lemma DeadEndIsMaximum(g: MatchMatrix, left: seq<int>, right: seq<int>, dead: set<int>, m: set<Pair>)
    requires g.Valid() && Mutual(g, left, right) && DeadEnd(g, right, dead)
    requires forall l | 0 <= l < |left| && left[l] == UNUSED :: NeighboursIn(g, l, dead)
    requires IsMatching(g, m)
    ensures |m| <= |PairsUpTo(left, |left|)|
  {
    PairsAreDistinct(left, |left|);
    var f := p => Charge(left, right, dead, p);
    forall p | p in m
      ensures f(p) in Elements(PairsUpTo(left, |left|))
      ensures f(p).1 in dead <==> p.1 in dead
    {
      ChargeIsMatched(g, left, right, dead, p);
      PairIsEntry(left, |left|, f(p));
    }
    InjectionBound(m, Elements(PairsUpTo(left, |left|)), f);
  }

  // ---------------------------------------------------------------------------
  // The matcher
  // ---------------------------------------------------------------------------

  class MaxBipartiteMatchState {
    const graph: MatchMatrix
    var left: seq<int>
    var right: seq<int>

    constructor (g: MatchMatrix)
      requires g.Valid()
      ensures graph == g
      ensures left == seq(g.numElements, _ => UNUSED) && right == seq(g.numMatchers, _ => UNUSED)
    {
      graph := g;
      left := seq(g.numElements, _ => UNUSED);
      right := seq(g.numMatchers, _ => UNUSED);
    }

    /** Depth-first search from left node ilhs to the sink in the residual graph.
        `dead` is any dead end of the current matching: the search cannot succeed
        through it, so its matches survive. */
    method TryAugment(ilhs: nat, seen: array<bool>, ghost dead: set<int>) returns (found: bool)
      requires graph.Valid() && Mutual(graph, left, right)
      requires ilhs < |left| && seen.Length == |right|
      requires left[ilhs] == UNUSED || seen[left[ilhs]]
      requires DeadEnd(graph, right, dead)
      modifies this, seen
      ensures SeenGrows(old(seen[..]), seen[..])
      ensures !found ==> left == old(left) && right == old(right)
      ensures !found ==> Exhausted(graph, right, old(seen[..]), seen[..], ilhs)
      ensures found ==> Augmented(graph, old(left), old(right), old(seen[..]), ilhs, left, right)
      ensures found ==> DeadUntouched(graph, old(right), right, dead, ilhs)
      decreases Unmarked(seen[..])
    {
      var irhs := 0;
      while irhs < graph.numMatchers
        invariant 0 <= irhs <= graph.numMatchers
        invariant left == old(left) && right == old(right)
        invariant SeenGrows(old(seen[..]), seen[..])
        invariant NewlySeenExhausted(graph, right, old(seen[..]), seen[..])
        invariant forall r | 0 <= r < irhs && graph.Edge(ilhs, r) :: seen[r]
      {
        if seen[irhs] || !graph.HasEdge(ilhs, irhs) {
          irhs := irhs + 1;
          continue;
        }
        ghost var entry := seen[..];
        seen[irhs] := true;
        ghost var marked := seen[..];
        assert marked == entry[irhs := true];
        UnmarkedShrinks(old(seen[..]), entry, irhs);
        if right[irhs] == UNUSED {
          AugmentDirectly(graph, left, right, old(seen[..]), ilhs, irhs);
          left, right := left[ilhs := irhs], right[irhs := ilhs];
          return true;
        }
        var open := TryAugment(right[irhs], seen, dead);
        if open {
          AugmentThrough(graph, old(left), old(right), old(seen[..]), marked, ilhs, irhs, left, right);
          left, right := left[ilhs := irhs], right[irhs := ilhs];
          return true;
        }
        irhs := irhs + 1;
      }
      return false;
    }

    /** Compute returns the pairs of a matching than which no matching is larger. */
    method Compute() returns (result: seq<Pair>)
      requires graph.Valid()
      requires left == seq(graph.numElements, _ => UNUSED) && right == seq(graph.numMatchers, _ => UNUSED)
      modifies this
      ensures Mutual(graph, left, right) && result == PairsUpTo(left, |left|)
      ensures IsMatching(graph, Elements(result)) && |Elements(result)| == |result|
      ensures forall m | IsMatching(graph, m) :: |m| <= |result|
    {
      ghost var dead: set<int> := {};
      var ilhs := 0;
      while ilhs < graph.numElements
        invariant 0 <= ilhs <= graph.numElements
        invariant Mutual(graph, left, right)
        invariant DeadEnd(graph, right, dead)
        invariant forall l | ilhs <= l < |left| :: left[l] == UNUSED
        invariant forall l | 0 <= l < ilhs && left[l] == UNUSED :: NeighboursIn(graph, l, dead)
      {
        var seen := new bool[graph.numMatchers](_ => false);
        var found := TryAugment(ilhs, seen, dead);
        if !found {
          dead := dead + Marked(seen[..]);
        }
        ilhs := ilhs + 1;
      }
      result := [];
      ilhs := 0;
      while ilhs < |left|
        invariant 0 <= ilhs <= |left|
        invariant result == PairsUpTo(left, ilhs)
      {
        var irhs := left[ilhs];
        if irhs != UNUSED {
          result := result + [(ilhs, irhs)];
        }
        ilhs := ilhs + 1;
      }
      MutualIsMatching(graph, left, right);
      forall m | IsMatching(graph, m) ensures |m| <= |result| {
        DeadEndIsMaximum(graph, left, right, dead, m);
      }
    }
  }

  method FindMaxBipartiteMatching(g: MatchMatrix) returns (result: seq<Pair>)
    requires g.Valid()
    ensures IsMatching(g, Elements(result)) && |Elements(result)| == |result|
    ensures forall m | IsMatching(g, m) :: |m| <= |result|
  {
    var state := new MaxBipartiteMatchState(g);
    result := state.Compute();
  }

  /** A matching covers every matcher exactly when it has one pair per matcher. */
  lemma CoverIsFullSize(g: MatchMatrix, m: set<Pair>)
    requires g.Valid() && IsMatching(g, m)
    ensures |m| <= g.numMatchers
    ensures CoversAllMatchers(g, m) <==> |m| == g.numMatchers
  {
    SubsetSize(MatchersOf(m), Range(g.numMatchers));
    assert CoversAllMatchers(g, m) <==> MatchersOf(m) == Range(g.numMatchers);
  }

  lemma {:induction false} SubsetSize<T>(a: set<T>, b: set<T>)
    requires a <= b
    ensures |a| <= |b| && (|a| == |b| ==> a == b)
  {
    if a != {} {
      var x :| x in a;
      SubsetSize(a - {x}, b - {x});
    }
  }

  ghost function Range(n: nat): (s: set<int>)
    ensures |s| == n && forall r :: r in s <==> 0 <= r < n
  {
    if n == 0 then {} else Range(n - 1) + {n - 1}
  }

  /** The right nodes of a set of pairs, one for each when no right node repeats. */
  ghost function MatchersOf(m: set<Pair>): (hit: set<int>)
    requires forall p, q | p in m && q in m && p.1 == q.1 :: p == q
    ensures forall r :: r in hit <==> Covered(m, r)
    ensures |hit| == |m|
  {
    if m == {} then {} else
      var p :| p in m;
      var rest := MatchersOf(m - {p});
      assert !Covered(m - {p}, p.1);
      assert forall r :: Covered(m, r) <==> Covered(m - {p}, r) || r == p.1;
      rest + {p.1}
  }

  /** The decision gMock reports: true exactly when some assignment of distinct
      elements satisfies every matcher. */
  method FindPairing(g: MatchMatrix) returns (result: bool, pairing: seq<Pair>)
    requires g.Valid()
    ensures result <==> exists m :: IsMatching(g, m) && CoversAllMatchers(g, m)
    ensures result ==> IsMatching(g, Elements(pairing)) && CoversAllMatchers(g, Elements(pairing))
  {
    pairing := FindMaxBipartiteMatching(g);
    CoverIsFullSize(g, Elements(pairing));
    result := |pairing| == g.numMatchers;
    forall m | IsMatching(g, m) ensures CoversAllMatchers(g, m) ==> result {
      CoverIsFullSize(g, m);
    }
  }
}

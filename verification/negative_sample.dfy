/** negative_sample.cpp: the two samplers of negative graphs. Both add, for
    every adjacency entry of the positive graph, NEGATIVE_RATIO candidate
    edges from the node to a sampled target, skipping a target equal to the
    node itself. `SampleNegativeGraph` draws targets in proportion to their
    degree (`Prop_Sampler` over the degrees); `SampleLocalNegativeGraph`
    draws a uniform neighbour of the neighbour t, so every target is two
    steps away. The uniform draws in [0, 1) are an explicit input, one per
    candidate, in loop order. */
module NegativeSample {
  import opened Seqs
  import opened Graphs
  import Sampling

  const NEGATIVE_RATIO: nat := 2

  predicate NoSelfLoops(g: Graph)
  {
    forall a, k :: 0 <= a < |g.edge| && 0 <= k < |g.edge[a]| ==> g.edge[a][k] != a
  }

  /** Draws of `uniform_real_distribution(0, 1)`. */
  predicate UnitDraws(draws: seq<real>)
  {
    forall k :: 0 <= k < |draws| ==> 0.0 <= draws[k] < 1.0
  }

  /** The graph g with the given edges added in order. */
  function AddEdges(g: Graph, pairs: seq<(int, int)>): (r: Graph)
    requires forall k :: 0 <= k < |pairs| ==> 0 <= pairs[k].0 < |g.edge| && 0 <= pairs[k].1 < |g.edge|
    ensures r.size == g.size && |r.edge| == |g.edge|
  {
    if |pairs| == 0 then g
    else
      var last := pairs[|pairs| - 1];
      AddEdge(AddEdges(g, pairs[..|pairs| - 1]), last.0, last.1)
  }

  /** r is neg with the non-loop edges `added` added: what both samplers
      keep while they run. */
  predicate Extends(neg: Graph, r: Graph, added: seq<(int, int)>)
  {
    && Valid(neg)
    && (forall k :: 0 <= k < |added| ==>
          0 <= added[k].0 < neg.size && 0 <= added[k].1 < neg.size && added[k].0 != added[k].1)
    && r == AddEdges(neg, added) && Valid(r)
    && Entries(r) == Entries(neg) + 2 * |added|
    && (Symmetric(neg) ==> Symmetric(r))
    && (NoSelfLoops(neg) ==> NoSelfLoops(r))
  }

  /** A non-loop edge added to a graph without self-loops leaves it without. */
  lemma AddEdgeKeepsNoSelfLoops(g: Graph, x: int, y: int)
    requires 0 <= x < |g.edge| && 0 <= y < |g.edge| && x != y
    requires NoSelfLoops(g)
    ensures NoSelfLoops(AddEdge(g, x, y))
  {
    var r := AddEdge(g, x, y);
    forall a, k | 0 <= a < |r.edge| && 0 <= k < |r.edge[a]|
      ensures r.edge[a][k] != a
    {
      assert r.edge[a][k] in multiset(r.edge[a]);
      assert multiset(g.edge[a])[a] == 0;
    }
  }

  /** Adding one more non-loop edge keeps the sampler's invariant. */
  lemma AddOne(neg: Graph, r: Graph, added: seq<(int, int)>, i: int, target: int)
    requires Extends(neg, r, added) && 0 <= i < neg.size && 0 <= target < neg.size && i != target
    ensures Extends(neg, AddEdge(r, i, target), added + [(i, target)])
  {
    var added' := added + [(i, target)];
    assert added'[..|added|] == added;
    AddEdgeKeepsValid(r, i, target);
    AddEdgeEntries(r, i, target);
    if Symmetric(neg) {
      AddEdgeKeepsSymmetric(r, i, target);
    }
    if NoSelfLoops(neg) {
      AddEdgeKeepsNoSelfLoops(r, i, target);
    }
  }

  /** One candidate edge (i, target): added unless target is i itself. */
  function Candidate(neg: Graph, r: Graph, added: seq<(int, int)>, i: int, target: int): (out: (Graph, seq<(int, int)>))
    requires Extends(neg, r, added) && 0 <= i < neg.size && 0 <= target < neg.size
    ensures Extends(neg, out.0, out.1)
    ensures out.1 == if target == i then added else added + [(i, target)]
  {
    if target == i then (r, added)
    else
      AddOne(neg, r, added, i, target);
      (AddEdge(r, i, target), added + [(i, target)])
  }

  /** The degrees of the nodes, as sampling weights. */
  function Degrees(g: Graph): (r: seq<real>)
    requires Valid(g)
    ensures |r| == g.size && Sampling.NonNegative(r)
    ensures forall i :: 0 <= i < g.size ==> r[i] == |g.edge[i]| as real
  {
    seq(g.size, i requires 0 <= i < g.size => |g.edge[i]| as real)
  }

  /** A sampled index past the first has positive weight: the running sums
      step up exactly there. */
  lemma SampleHasWeight(x: seq<real>, ps: seq<real>, u: real)
    requires |x| >= 1 && |ps| == |x|
    requires forall k :: 0 <= k < |x| ==> ps[k] == RealSum(x[..k + 1])
    ensures var r := Sampling.GetSample(ps, u); 0 < r < |x| ==> x[r] > 0.0
  {
    var r := Sampling.GetSample(ps, u);
    if 0 < r < |x| {
      assert x[..r + 1][..r] == x[..r];
      assert x[..r + 1] == x[..r] + [x[r]];
      RealSumAppend(x[..r], x[r]);
      assert ps[r - 1] == RealSum(x[..r - 1 + 1]);
      assert ps[r - 1] < ps[|ps| - 1] * u <= ps[r];
    }
  }

  /** A target drawn by degree: a node other than 0 has at least one
      neighbour. */
  predicate DegreeTarget(pos: Graph, target: int)
    requires Valid(pos)
  {
    0 <= target < pos.size && (target == 0 || |pos.edge[target]| > 0)
  }

  /** ps holds the running sums of the degrees, as `PropSampler` builds
      them. */
  predicate DegreeSampler(pos: Graph, ps: seq<real>)
    requires Valid(pos)
  {
    |ps| == pos.size && forall k :: 0 <= k < |ps| ==> ps[k] == RealSum(Degrees(pos)[..k + 1])
  }

  /** Every added edge ends at a target drawn by degree. */
  predicate DegreeTargets(pos: Graph, added: seq<(int, int)>)
    requires Valid(pos)
  {
    forall k :: 0 <= k < |added| ==> DegreeTarget(pos, added[k].1)
  }

  /** `sampler.GetSample()` over the degrees with the draw u. */
  function DegreeSample(pos: Graph, ps: seq<real>, u: real): (target: int)
    requires Valid(pos) && pos.size >= 1 && 0.0 <= u < 1.0
    requires DegreeSampler(pos, ps)
    ensures DegreeTarget(pos, target)
  {
    var rate := Degrees(pos);
    assert ps[|ps| - 1] == RealSum(rate[..|ps|]) && rate[..|ps|] == rate;
    SampleHasWeight(rate, ps, u);
    Sampling.GetSample(ps, u)
  }

  /** The running sums of the degrees. */
  function DegreeSums(pos: Graph): (ps: seq<real>)
    requires Valid(pos)
    ensures DegreeSampler(pos, ps)
  {
    seq(pos.size, k requires 0 <= k < pos.size => RealSum(Degrees(pos)[..k + 1]))
  }

  /** The edge a candidate adds: none when the target is the node itself. */
  function Kept(i: int, target: int): seq<(int, int)>
  {
    if target == i then [] else [(i, target)]
  }

  /** The edges node i adds for the draws us, one degree-proportional
      target per draw, in draw order. */
  function DegreeCandidates(pos: Graph, i: int, us: seq<real>): (r: seq<(int, int)>)
    requires Valid(pos) && 0 <= i < pos.size && UnitDraws(us)
    ensures |r| <= |us|
    ensures forall k :: 0 <= k < |r| ==> r[k].0 == i && DegreeTarget(pos, r[k].1)
  {
    if |us| == 0 then []
    else DegreeCandidates(pos, i, us[..|us| - 1]) + Kept(i, DegreeSample(pos, DegreeSums(pos), us[|us| - 1]))
  }

  lemma DegreeCandidatesStep(pos: Graph, i: int, us: seq<real>, j: int)
    requires Valid(pos) && 0 <= i < pos.size && UnitDraws(us) && 0 <= j < |us|
    ensures DegreeCandidates(pos, i, us[..j + 1])
      == DegreeCandidates(pos, i, us[..j]) + Kept(i, DegreeSample(pos, DegreeSums(pos), us[j]))
  {
    assert us[..j + 1][..j] == us[..j];
  }

  /** Where the draws of node i start: NEGATIVE_RATIO per adjacency entry of
      the nodes before it. */
  function Cursor(pos: Graph, i: int): (c: nat)
    requires Valid(pos) && 0 <= i <= pos.size
  {
    NEGATIVE_RATIO * TotalLength(pos.edge[..i])
  }

  /** The draws of node i: the next NEGATIVE_RATIO * |edge[i]| of them. */
  function NodeDraws(pos: Graph, draws: seq<real>, i: int): (us: seq<real>)
    requires Valid(pos) && 0 <= i < pos.size && |draws| == NEGATIVE_RATIO * TotalLength(pos.edge)
    requires UnitDraws(draws)
    ensures Cursor(pos, i + 1) == Cursor(pos, i) + NEGATIVE_RATIO * |pos.edge[i]| <= |draws|
    ensures us == draws[Cursor(pos, i)..Cursor(pos, i + 1)] && UnitDraws(us)
  {
    TotalLengthPrefix(pos.edge, i);
    draws[Cursor(pos, i)..Cursor(pos, i) + NEGATIVE_RATIO * |pos.edge[i]|]
  }

  /** The edges `SampleNegativeGraph` adds for the nodes below n, node by
      node. */
  function DegreeAdded(pos: Graph, draws: seq<real>, n: int): (r: seq<(int, int)>)
    requires Valid(pos) && 0 <= n <= pos.size
    requires |draws| == NEGATIVE_RATIO * TotalLength(pos.edge) && UnitDraws(draws)
  {
    if n == 0 then []
    else DegreeAdded(pos, draws, n - 1) + DegreeCandidates(pos, n - 1, NodeDraws(pos, draws, n - 1))
  }

  /** Appending is associative; stated once so the loops below need not
      re-derive it. */
  lemma AppendAssoc<T>(a: seq<T>, b: seq<T>, c: seq<T>)
    ensures (a + b) + c == a + (b + c)
  {
  }

  /** One candidate step of a sampler, as a method: the edge (i, target) is
      added to r and to `added` unless target is i. */
  method AddCandidate(neg: Graph, r: Graph, added: seq<(int, int)>, i: int, target: int)
    returns (r': Graph, added': seq<(int, int)>)
    requires Extends(neg, r, added) && 0 <= i < neg.size && 0 <= target < neg.size
    ensures Extends(neg, r', added') && added' == added + Kept(i, target)
  {
    var out := Candidate(neg, r, added, i, target);
    r', added' := out.0, out.1;
  }

  /** Degree targets followed by degree targets. */
  lemma DegreeTargetsAppend(pos: Graph, a: seq<(int, int)>, b: seq<(int, int)>)
    requires Valid(pos) && DegreeTargets(pos, a) && DegreeTargets(pos, b)
    ensures DegreeTargets(pos, a + b)
  {
    forall k | 0 <= k < |a + b|
      ensures DegreeTarget(pos, (a + b)[k].1)
    {
      if k >= |a| {
        assert (a + b)[k] == b[k - |a|];
      }
    }
  }

  /** The inner loop of `SampleNegativeGraph` for node i: one degree-
      proportional draw per entry of `us`. */
  method DegreeDraws(pos: Graph, neg: Graph, ps: seq<real>, i: int, us: seq<real>,
                     r0: Graph, added0: seq<(int, int)>) returns (r: Graph, added: seq<(int, int)>)
    requires Valid(pos) && neg.size == pos.size && 0 <= i < pos.size && UnitDraws(us)
    requires DegreeSampler(pos, ps)
    requires Extends(neg, r0, added0)
    ensures Extends(neg, r, added)
    ensures added == added0 + DegreeCandidates(pos, i, us)
  {
    assert ps == DegreeSums(pos);
    r, added := r0, added0;
    for j := 0 to |us|
      invariant Extends(neg, r, added)
      invariant added == added0 + DegreeCandidates(pos, i, us[..j])
    {
      var target := DegreeSample(pos, ps, us[j]);
      ghost var c := DegreeCandidates(pos, i, us[..j]);
      r, added := AddCandidate(neg, r, added, i, target);
      DegreeCandidatesStep(pos, i, us, j);
      AppendAssoc(added0, c, Kept(i, target));
    }
    assert us[..|us|] == us;
  }

  /** `SampleNegativeGraph(positive, negative)`: for every node i,
      |edge[i]| * NEGATIVE_RATIO degree-proportional draws; each target other
      than i is added as an edge. Returns the graph and the added edges. */
  method SampleNegativeGraph(pos: Graph, neg: Graph, draws: seq<real>) returns (r: Graph, added: seq<(int, int)>)
    requires Valid(pos) && Valid(neg) && neg.size == pos.size
    requires |draws| == NEGATIVE_RATIO * TotalLength(pos.edge) && UnitDraws(draws)
    ensures added == DegreeAdded(pos, draws, pos.size)
    ensures Extends(neg, r, added) && |added| <= |draws|
    ensures forall k :: 0 <= k < |added| ==> DegreeTarget(pos, added[k].1)
  {
    var ps := Sampling.PropSampler(Degrees(pos));
    assert DegreeSampler(pos, ps);
    r, added := neg, [];
    var cursor := 0;
    for i := 0 to pos.size
      invariant DegreeSoFar(pos, neg, draws, i, cursor, r, added)
    {
      r, added, cursor := DegreeNode(pos, neg, draws, ps, i, cursor, r, added);
    }
    assert pos.edge[..pos.size] == pos.edge;
  }

  /** The state of `SampleNegativeGraph` once nodes 0..i-1 have drawn. */
  predicate DegreeSoFar(pos: Graph, neg: Graph, draws: seq<real>, i: int, cursor: int, r: Graph, added: seq<(int, int)>)
    requires Valid(pos) && 0 <= i <= pos.size
    requires |draws| == NEGATIVE_RATIO * TotalLength(pos.edge) && UnitDraws(draws)
  {
    && cursor == Cursor(pos, i) && |added| <= cursor
    && added == DegreeAdded(pos, draws, i)
    && Extends(neg, r, added) && DegreeTargets(pos, added)
  }

  /** One turn of the loop of `SampleNegativeGraph`: node i's draws. */
  method DegreeNode(pos: Graph, neg: Graph, draws: seq<real>, ps: seq<real>, i: int, cursor: int,
                    r0: Graph, added0: seq<(int, int)>) returns (r: Graph, added: seq<(int, int)>, cursor': int)
    requires Valid(pos) && Valid(neg) && neg.size == pos.size && 0 <= i < pos.size
    requires |draws| == NEGATIVE_RATIO * TotalLength(pos.edge) && UnitDraws(draws)
    requires DegreeSampler(pos, ps)
    requires DegreeSoFar(pos, neg, draws, i, cursor, r0, added0)
    ensures DegreeSoFar(pos, neg, draws, i + 1, cursor', r, added)
  {
    var us := NodeDraws(pos, draws, i);
    r, added := DegreeDraws(pos, neg, ps, i, us, r0, added0);
    DegreeTargetsAppend(pos, added0, DegreeCandidates(pos, i, us));
    cursor' := cursor + |us|;
  }

  /** target is a neighbour of a neighbour of i. */
  ghost predicate TwoHop(g: Graph, i: int, target: int)
    requires 0 <= i < |g.edge|
  {
    exists t :: t in g.edge[i] && 0 <= t < |g.edge| && target in g.edge[t]
  }

  /** Every edge joins two nodes two steps apart. */
  ghost predicate AllTwoHop(g: Graph, added: seq<(int, int)>)
  {
    forall k :: 0 <= k < |added| ==> 0 <= added[k].0 < |g.edge| && TwoHop(g, added[k].0, added[k].1)
  }

  /** What the local sampler reads without going out of range: a neighbour
      of a node has a neighbour itself (so it holds for undirected graphs). */
  predicate NeighboursHaveEdges(g: Graph)
    requires Valid(g)
  {
    forall i, k :: 0 <= i < g.size && 0 <= k < |g.edge[i]| ==> |g.edge[g.edge[i][k]]| > 0
  }

  lemma SymmetricNeighboursHaveEdges(g: Graph)
    requires Valid(g) && Symmetric(g)
    ensures NeighboursHaveEdges(g)
  {
    forall i, k | 0 <= i < g.size && 0 <= k < |g.edge[i]|
      ensures |g.edge[g.edge[i][k]]| > 0
    {
      var t := g.edge[i][k];
      assert t in g.edge[i];
      SymmetricMembership(g, i, t);
    }
  }

  lemma NeighbourHasEdges(g: Graph, i: int, t: int)
    requires Valid(g) && NeighboursHaveEdges(g) && 0 <= i < g.size && t in g.edge[i]
    ensures 0 <= t < g.size && |g.edge[t]| > 0
  {
    var k :| 0 <= k < |g.edge[i]| && g.edge[i][k] == t;
  }

  /** `(int)(u * m)` for u in [0, 1) is an index below m. */
  lemma FloorIndex(u: real, m: nat)
    requires 0.0 <= u < 1.0 && m > 0
    ensures 0 <= (u * (m as real)).Floor < m
  {
    assert u * (m as real) < m as real by {
      assert (m as real) * (1.0 - u) > 0.0;
    }
  }

  /** `row[(int)(u * row.size())]`: a uniform entry of a non-empty list. */
  function Pick(row: seq<int>, u: real): (target: int)
    requires |row| > 0 && 0.0 <= u < 1.0
    ensures target in row
  {
    FloorIndex(u, |row|);
    row[(u * (|row| as real)).Floor]
  }

  /** `positive.edge[t][(int)(u * positive.edge[t].size())]` for the
      neighbour t of i: a node two steps from i. */
  function LocalSample(pos: Graph, i: int, t: int, u: real): (target: int)
    requires Valid(pos) && NeighboursHaveEdges(pos) && 0 <= i < pos.size && t in pos.edge[i]
    requires 0.0 <= u < 1.0
    ensures 0 <= target < pos.size && TwoHop(pos, i, target)
  {
    NeighbourHasEdges(pos, i, t);
    Pick(pos.edge[t], u)
  }

  /** The edges node i adds for a neighbour whose list is `row` and the
      draws us: one uniform entry of row per draw, in draw order, skipping
      i itself. */
  function LocalCandidates(i: int, row: seq<int>, us: seq<real>): (r: seq<(int, int)>)
    requires |row| > 0 && UnitDraws(us)
    ensures |r| <= |us|
    ensures forall k :: 0 <= k < |r| ==> r[k].0 == i && r[k].1 in row
  {
    if |us| == 0 then []
    else LocalCandidates(i, row, us[..|us| - 1]) + Kept(i, Pick(row, us[|us| - 1]))
  }

  /** Every edge the local sampler adds for i through its neighbour t joins
      i to a node two steps away. */
  lemma LocalCandidatesTwoHop(pos: Graph, i: int, t: int, us: seq<real>)
    requires Valid(pos) && NeighboursHaveEdges(pos) && 0 <= i < pos.size && t in pos.edge[i]
    requires UnitDraws(us)
    ensures |pos.edge[t]| > 0 && AllTwoHop(pos, LocalCandidates(i, pos.edge[t], us))
  {
    NeighbourHasEdges(pos, i, t);
  }

  lemma LocalCandidatesStep(i: int, row: seq<int>, us: seq<real>, j: int)
    requires |row| > 0 && UnitDraws(us) && 0 <= j < |us|
    ensures LocalCandidates(i, row, us[..j + 1]) == LocalCandidates(i, row, us[..j]) + Kept(i, Pick(row, us[j]))
  {
    assert us[..j + 1][..j] == us[..j];
  }

  /** The edges node i adds for its neighbours from the k0-th on, each with
      the next NEGATIVE_RATIO draws. */
  function LocalNode(pos: Graph, i: int, k0: int, us: seq<real>): (r: seq<(int, int)>)
    requires Valid(pos) && NeighboursHaveEdges(pos) && 0 <= i < pos.size
    requires 0 <= k0 <= |pos.edge[i]| && |us| == NEGATIVE_RATIO * (|pos.edge[i]| - k0) && UnitDraws(us)
    ensures |r| <= |us| && AllTwoHop(pos, r)
    decreases |pos.edge[i]| - k0
  {
    if k0 == |pos.edge[i]| then []
    else
      var t := pos.edge[i][k0];
      assert t in pos.edge[i];
      LocalCandidatesTwoHop(pos, i, t, us[..NEGATIVE_RATIO]);
      var first := LocalCandidates(i, pos.edge[t], us[..NEGATIVE_RATIO]);
      var rest := LocalNode(pos, i, k0 + 1, us[NEGATIVE_RATIO..]);
      TwoHopAppend(pos, first, rest);
      first + rest
  }

  /** The edges `SampleLocalNegativeGraph` adds for the nodes below n, node
      by node. */
  function LocalAdded(pos: Graph, draws: seq<real>, n: int): (r: seq<(int, int)>)
    requires Valid(pos) && NeighboursHaveEdges(pos) && 0 <= n <= pos.size
    requires |draws| == NEGATIVE_RATIO * TotalLength(pos.edge) && UnitDraws(draws)
    ensures AllTwoHop(pos, r)
  {
    if n == 0 then []
    else
      var before := LocalAdded(pos, draws, n - 1);
      var node := LocalNode(pos, n - 1, 0, NodeDraws(pos, draws, n - 1));
      TwoHopAppend(pos, before, node);
      before + node
  }

  /** The innermost loop of `SampleLocalNegativeGraph`: the draws for one
      neighbour of i, whose list is `row`. */
  method NeighbourDraws(neg: Graph, i: int, row: seq<int>, us: seq<real>,
                        r0: Graph, added0: seq<(int, int)>) returns (r: Graph, added: seq<(int, int)>)
    requires 0 <= i < neg.size && |row| > 0 && UnitDraws(us)
    requires forall k :: 0 <= k < |row| ==> 0 <= row[k] < neg.size
    requires Extends(neg, r0, added0)
    ensures Extends(neg, r, added)
    ensures added == added0 + LocalCandidates(i, row, us)
  {
    r, added := r0, added0;
    for j := 0 to |us|
      invariant Extends(neg, r, added) && added == added0 + LocalCandidates(i, row, us[..j])
    {
      var target := Pick(row, us[j]);
      ghost var c := LocalCandidates(i, row, us[..j]);
      r, added := AddCandidate(neg, r, added, i, target);
      LocalCandidatesStep(i, row, us, j);
      AppendAssoc(added0, c, Kept(i, target));
    }
    assert us[..|us|] == us;
  }

  /** Edges between nodes two steps apart, followed by more of them. */
  lemma TwoHopAppend(pos: Graph, a: seq<(int, int)>, b: seq<(int, int)>)
    requires AllTwoHop(pos, a) && AllTwoHop(pos, b)
    ensures AllTwoHop(pos, a + b)
  {
    forall k | 0 <= k < |a + b|
      ensures 0 <= (a + b)[k].0 < |pos.edge| && TwoHop(pos, (a + b)[k].0, (a + b)[k].1)
    {
      if k >= |a| {
        assert (a + b)[k] == b[k - |a|];
      }
    }
  }

  /** The two inner loops of `SampleLocalNegativeGraph` for node i: for
      each neighbour t, NEGATIVE_RATIO uniform neighbours of t; `us` holds
      the draws for the neighbours from k on. */
  method LocalDraws(pos: Graph, neg: Graph, i: int, k0: int, us: seq<real>,
                    r0: Graph, added0: seq<(int, int)>) returns (r: Graph, added: seq<(int, int)>)
    requires Valid(pos) && neg.size == pos.size && NeighboursHaveEdges(pos) && 0 <= i < pos.size
    requires 0 <= k0 <= |pos.edge[i]| && |us| == NEGATIVE_RATIO * (|pos.edge[i]| - k0) && UnitDraws(us)
    requires Extends(neg, r0, added0)
    ensures Extends(neg, r, added)
    ensures added == added0 + LocalNode(pos, i, k0, us)
    decreases |pos.edge[i]| - k0
  {
    r, added := r0, added0;
    if k0 == |pos.edge[i]| {
      return;
    }
    var t := pos.edge[i][k0];
    assert t in pos.edge[i];
    NeighbourHasEdges(pos, i, t);
    ghost var first := LocalCandidates(i, pos.edge[t], us[..NEGATIVE_RATIO]);
    ghost var rest := LocalNode(pos, i, k0 + 1, us[NEGATIVE_RATIO..]);
    r, added := NeighbourDraws(neg, i, pos.edge[t], us[..NEGATIVE_RATIO], r, added);
    r, added := LocalDraws(pos, neg, i, k0 + 1, us[NEGATIVE_RATIO..], r, added);
    assert LocalNode(pos, i, k0, us) == first + rest;
    AppendAssoc(added0, first, rest);
  }

  /** `SampleLocalNegativeGraph(positive, negative)`: for every adjacency
      entry t of i, NEGATIVE_RATIO draws of a uniform neighbour of t; each
      target other than i is added as an edge. */
  method SampleLocalNegativeGraph(pos: Graph, neg: Graph, draws: seq<real>) returns (r: Graph, added: seq<(int, int)>)
    requires Valid(pos) && Valid(neg) && neg.size == pos.size && NeighboursHaveEdges(pos)
    requires |draws| == NEGATIVE_RATIO * TotalLength(pos.edge) && UnitDraws(draws)
    ensures added == LocalAdded(pos, draws, pos.size)
    ensures Extends(neg, r, added) && |added| <= |draws|
    ensures AllTwoHop(pos, added)
  {
    r, added := neg, [];
    var cursor := 0;
    for i := 0 to pos.size
      invariant cursor == Cursor(pos, i) && |added| <= cursor
      invariant added == LocalAdded(pos, draws, i)
      invariant Extends(neg, r, added)
    {
      var us := NodeDraws(pos, draws, i);
      r, added := LocalDraws(pos, neg, i, 0, us, r, added);
      cursor := cursor + |us|;
    }
    assert pos.edge[..pos.size] == pos.edge;
  }
}

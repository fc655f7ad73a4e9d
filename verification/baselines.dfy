/** The neighbourhood baselines of common_neighbor.cpp and baseline.cpp.
    Common neighbours counts the entries of y's list that are neighbours of
    x; the normalised variant adds a bonus for an existing edge and divides
    by a constant; Adamic-Adar weighs each common neighbour p by
    1 / log |edge[p]|, marking x's neighbours in a scratch vector that it
    clears again before returning. Square root and the reciprocal
    logarithm are parameters. */
module Baselines {
  import opened Seqs
  import opened Graphs

  /** Entries of ys that occur in xs, counted with multiplicity in ys (a
      `std::set` built from xs is probed once per entry of ys). */
  function CountIn(ys: seq<int>, xs: seq<int>): (r: nat)
    ensures r <= |ys|
  {
    if |ys| == 0 then 0 else CountIn(ys[..|ys| - 1], xs) + (if ys[|ys| - 1] in xs then 1 else 0)
  }

  /** `CommonNeighbor::Evaluate(x, y)` of common_neighbor.cpp. */
  function CommonNeighbors(g: Graph, x: int, y: int): (r: nat)
    requires 0 <= x < |g.edge| && 0 <= y < |g.edge|
    ensures r <= |g.edge[y]|
  {
    CountIn(g.edge[y], g.edge[x])
  }

  predicate NoRepeats(s: seq<int>)
  {
    forall i, j :: 0 <= i < j < |s| ==> s[i] != s[j]
  }

  /** Over a list without repeats, the count is the size of the
      intersection of the two neighbour sets. */
  lemma {:induction false} CountInIsIntersection(ys: seq<int>, xs: seq<int>)
    requires NoRepeats(ys)
    ensures CountIn(ys, xs) == |set p | p in ys && p in xs|
  {
    if |ys| > 0 {
      var n := |ys| - 1;
      CountInIsIntersection(ys[..n], xs);
      assert ys[n] !in ys[..n] by {
        assert forall i :: 0 <= i < n ==> ys[..n][i] != ys[n];
      }
      assert ys == ys[..n] + [ys[n]];
      IntersectionSnoc(ys[..n], ys[n], xs);
    }
  }

  /** Appending q, not yet in ys, to ys adds q to the intersection with xs
      exactly when q is in xs. */
  lemma IntersectionSnoc(ys: seq<int>, q: int, xs: seq<int>)
    requires q !in ys
    ensures |set p | p in ys + [q] && p in xs|
         == |set p | p in ys && p in xs| + (if q in xs then 1 else 0)
  {
    var before := set p | p in ys && p in xs;
    var after := set p | p in ys + [q] && p in xs;
    if q in xs {
      assert after == before + {q};
    } else {
      assert after == before;
    }
  }

  /** With lists without repeats, the common-neighbour score is the size of
      N(x) ∩ N(y), and so symmetric. */
  lemma CommonNeighborsSymmetric(g: Graph, x: int, y: int)
    requires 0 <= x < |g.edge| && 0 <= y < |g.edge|
    requires NoRepeats(g.edge[x]) && NoRepeats(g.edge[y])
    ensures CommonNeighbors(g, x, y) == |set p | p in g.edge[x] && p in g.edge[y]|
    ensures CommonNeighbors(g, x, y) == CommonNeighbors(g, y, x)
  {
    CountInIsIntersection(g.edge[y], g.edge[x]);
    CountInIsIntersection(g.edge[x], g.edge[y]);
    assert (set p | p in g.edge[y] && p in g.edge[x]) == (set p | p in g.edge[x] && p in g.edge[y]);
  }

  /** `CommonNeighbor::Evaluate(x, y)` of baseline.cpp: the count, plus
      sqrt |edge[x]| + sqrt |edge[y]| when y is a neighbour of x, divided by
      the normalizer. Dividing by a zero normalizer is outside the model:
      None. */
  function NormalizedCommonNeighbors(g: Graph, normalizer: real, sqrt: nat -> real, x: int, y: int): (r: Option<real>)
    requires 0 <= x < |g.edge| && 0 <= y < |g.edge|
    ensures r.None? <==> normalizer == 0.0
    ensures r.Some? ==>
      r.value * normalizer
      == CommonNeighbors(g, x, y) as real + (if y in g.edge[x] then sqrt(|g.edge[x]|) + sqrt(|g.edge[y]|) else 0.0)
  {
    if normalizer == 0.0 then None
    else
      var bonus := if y in g.edge[x] then sqrt(|g.edge[x]|) + sqrt(|g.edge[y]|) else 0.0;
      Some((CommonNeighbors(g, x, y) as real + bonus) / normalizer)
  }

  /** On a symmetric graph whose lists have no repeats, the normalised score
      does not depend on the order of the pair: the count is the size of
      N(x) ∩ N(y) and the bonus is paid for the edge in either direction. */
  lemma NormalizedCommonNeighborsSymmetric(g: Graph, normalizer: real, sqrt: nat -> real, x: int, y: int)
    requires Symmetric(g) && 0 <= x < |g.edge| && 0 <= y < |g.edge|
    requires NoRepeats(g.edge[x]) && NoRepeats(g.edge[y])
    ensures NormalizedCommonNeighbors(g, normalizer, sqrt, x, y) == NormalizedCommonNeighbors(g, normalizer, sqrt, y, x)
  {
    CommonNeighborsSymmetric(g, x, y);
    SymmetricMembership(g, x, y);
  }

  /** Sum of invLog(|edge[p]|) over the entries p of ys that occur in xs. */
  function AdamicAdarSum(g: Graph, ys: seq<int>, xs: seq<int>, invLog: nat -> real): real
    requires forall k :: 0 <= k < |ys| ==> 0 <= ys[k] < |g.edge|
  {
    if |ys| == 0 then 0.0
    else
      var p := ys[|ys| - 1];
      AdamicAdarSum(g, ys[..|ys| - 1], xs, invLog) + (if p in xs then invLog(|g.edge[p]|) else 0.0)
  }

  /** The `AdamicAdar` constructor's scratch vector: one zero per node. */
  function NewScratch(g: Graph): (cnt: seq<int>)
    requires Valid(g)
    ensures |cnt| == g.size && forall p :: 0 <= p < g.size ==> cnt[p] == 0
  {
    Const(0, g.size)
  }

  /** `AdamicAdar::Evaluate(x, y)` with the scratch vector cnt: mark x's
      neighbours with 1, add invLog(|edge[p]|) for each entry p of y's list
      that is marked, then reset x's neighbours to 0. Started from an
      all-zero scratch vector, the score adds invLog(|edge[p]|) once per
      entry p of edge[y] that occurs in edge[x], and the scratch vector
      is all zero again afterwards. */
  method AdamicAdar(g: Graph, cnt: seq<int>, invLog: nat -> real, x: int, y: int)
    returns (val: real, cnt': seq<int>)
    requires Valid(g) && |cnt| == g.size && 0 <= x < g.size && 0 <= y < g.size
    ensures |cnt'| == |cnt|
    ensures forall p :: 0 <= p < |cnt| ==> cnt'[p] == (if p in g.edge[x] then 0 else cnt[p])
    ensures (forall p :: 0 <= p < |cnt| ==> cnt[p] == 0) ==>
      val == AdamicAdarSum(g, g.edge[y], g.edge[x], invLog) && forall p :: 0 <= p < |cnt| ==> cnt'[p] == 0
  {
    var nx, ny := g.edge[x], g.edge[y];
    var marked := cnt;
    for k := 0 to |nx|
      invariant |marked| == |cnt|
      invariant forall p :: 0 <= p < |cnt| ==> marked[p] == (if p in nx[..k] then 1 else cnt[p])
    {
      marked := marked[nx[k] := 1];
      assert nx[..k + 1] == nx[..k] + [nx[k]];
    }
    assert nx[..|nx|] == nx;
    val := 0.0;
    for k := 0 to |ny|
      invariant (forall p :: 0 <= p < |cnt| ==> cnt[p] == 0) ==> val == AdamicAdarSum(g, ny[..k], nx, invLog)
    {
      assert ny[..k + 1][..k] == ny[..k];
      if marked[ny[k]] == 1 {
        val := val + invLog(|g.edge[ny[k]]|);
      }
    }
    assert ny[..|ny|] == ny;
    cnt' := marked;
    for k := 0 to |nx|
      invariant |cnt'| == |cnt|
      invariant forall p :: 0 <= p < |cnt| ==> cnt'[p] == (if p in nx[..k] then 0 else marked[p])
    {
      cnt' := cnt'[nx[k] := 0];
      assert nx[..k + 1] == nx[..k] + [nx[k]];
    }
    assert nx[..|nx|] == nx;
  }
}

/** sparse.cpp: every node x keeps a sparse embedding, a list of (index,
    value) pairs whose indices are x itself followed by its neighbours. An
    update projects each example's embedding onto x's index list, solves
    the linear SVM over those projections (penalty 1 on both sides) and
    writes the weighted sum back as x's values; the index lists never
    change. Negative examples come from the local (two-hop) sampler. A link
    is scored by the sparse inner product over shared indices. */
module Sparse {
  import opened Seqs
  import opened Vectors
  import opened Graphs
  import Sampling
  import LinearSolver
  import NegativeSample

  const EPOCHS: nat := 10
  const PENALTY: real := 1.0

  datatype SparseFeature = SparseFeature(index: int, value: real)

  type SparseVec = seq<SparseFeature>

  /** `SparseEmbedding`: one sparse vector and one coefficient vector per
      node. */
  datatype SparseEmbedding = SparseEmbedding(size: int, embedding: seq<SparseVec>, coeff: seq<seq<real>>)

  /** Some position of v carries index i. */
  predicate HasIndex(v: SparseVec, i: int)
  {
    exists k :: 0 <= k < |v| && v[k].index == i
  }

  /** The value of the last entry of v with index i, if any: what
      `map[p.index] = p.value` over v leaves in the map. */
  function Lookup(v: SparseVec, i: int): (r: Option<real>)
    ensures r.Some? <==> HasIndex(v, i)
    ensures r.Some? ==> exists k :: 0 <= k < |v| && v[k].index == i && r.value == v[k].value
  {
    if |v| == 0 then None
    else if v[|v| - 1].index == i then Some(v[|v| - 1].value)
    else
      var r := Lookup(v[..|v| - 1], i);
      assert HasIndex(v[..|v| - 1], i) ==> HasIndex(v, i);
      r
  }

  /** The `feature_index` map of `UpdateEmbedding`: each index of v to the
      last position that carries it. */
  function IndexMap(v: SparseVec): (m: map<int, int>)
    ensures forall i :: i in m <==> HasIndex(v, i)
    ensures forall i :: i in m ==> 0 <= m[i] < |v| && v[m[i]].index == i
    ensures forall i, k :: i in m && m[i] < k < |v| ==> v[k].index != i
  {
    if |v| == 0 then map[]
    else
      var n := |v| - 1;
      var prefix := v[..n];
      IndexesOfPrefix(v, n);
      IndexMap(prefix)[v[n].index := n]
  }

  /** The indices of v are those of v[..n] and that of v[n]. */
  lemma IndexesOfPrefix(v: SparseVec, n: nat)
    requires n == |v| - 1
    ensures forall i :: HasIndex(v, i) <==> HasIndex(v[..n], i) || i == v[n].index
  {
    forall i | HasIndex(v, i)
      ensures HasIndex(v[..n], i) || i == v[n].index
    {
      var k :| 0 <= k < |v| && v[k].index == i;
      if k < n {
        assert v[..n][k].index == i;
      }
    }
    forall i | HasIndex(v[..n], i)
      ensures HasIndex(v, i)
    {
      var k :| 0 <= k < n && v[..n][k].index == i;
      assert v[k].index == i;
    }
    assert v[n].index == v[n].index;
  }

  /** Position j of v is the last one carrying its index. */
  predicate LastOfIndex(v: SparseVec, j: int)
    requires 0 <= j < |v|
  {
    forall k :: j < k < |v| ==> v[k].index != v[j].index
  }

  /** No index occurs twice in v. */
  predicate DistinctIndices(v: SparseVec)
  {
    forall j, k :: 0 <= j < k < |v| ==> v[j].index != v[k].index
  }

  function OrZero(o: Option<real>): real
  {
    if o.Some? then o.value else 0.0
  }

  /** The dense feature that `UpdateEmbedding` builds from the sparse vector
      u over the index map m of a vector of length n: each entry of u whose
      index is in m writes its value at that position, later entries
      overwriting earlier ones; the rest stays zero. */
  function Project(m: map<int, int>, n: nat, u: SparseVec): (r: Vec)
    requires forall i :: i in m ==> 0 <= m[i] < n
    ensures |r| == n
  {
    if |u| == 0 then Zeros(n)
    else
      var r := Project(m, n, u[..|u| - 1]);
      var p := u[|u| - 1];
      if p.index in m then r[m[p.index] := p.value] else r
  }

  /** Position j of the projection of u onto v's index list holds u's value
      for v[j]'s index when j is the last position with that index, and zero
      at an earlier duplicate. */
  lemma {:induction false} ProjectContents(v: SparseVec, u: SparseVec, j: int)
    requires 0 <= j < |v|
    ensures Project(IndexMap(v), |v|, u)[j] ==
      if LastOfIndex(v, j) then OrZero(Lookup(u, v[j].index)) else 0.0
  {
    var m := IndexMap(v);
    var i := v[j].index;
    assert i in m;
    assert j <= m[i];
    if |u| > 0 {
      ProjectContents(v, u[..|u| - 1], j);
      var p := u[|u| - 1];
      if p.index in m && m[p.index] == j {
        assert p.index == i;
      }
    }
  }

  /** The examples of node x: positive neighbours labelled 1, then negative
      neighbours labelled -1. */
  function Instances(pos: Graph, neg: Graph, x: int): (r: seq<int>)
    requires 0 <= x < |pos.edge| && 0 <= x < |neg.edge|
    ensures |r| == |pos.edge[x]| + |neg.edge[x]|
  {
    pos.edge[x] + neg.edge[x]
  }

  /** The problem `UpdateEmbedding` hands the solver for node x: each
      example's embedding projected onto x's index list. */
  function Examples(pos: Graph, neg: Graph, emb: seq<SparseVec>, x: int): (p: LinearSolver.Problem)
    requires 0 <= x < |pos.edge| && 0 <= x < |neg.edge| && x < |emb|
    requires forall k :: 0 <= k < |Instances(pos, neg, x)| ==> 0 <= Instances(pos, neg, x)[k] < |emb|
    ensures |p.feature| == |p.labels| == |Instances(pos, neg, x)|
    ensures AllDim(p.feature, |emb[x]|) && LinearSolver.UnitLabels(p)
    ensures forall k :: 0 <= k < |p.feature| ==>
      p.feature[k] == Project(IndexMap(emb[x]), |emb[x]|, emb[Instances(pos, neg, x)[k]])
      && p.labels[k] == (if k < |pos.edge[x]| then 1 else -1)
  {
    var inst := Instances(pos, neg, x);
    var m := IndexMap(emb[x]);
    var fs := seq(|inst|, k requires 0 <= k < |inst| => Project(m, |emb[x]|, emb[inst[k]]));
    LinearSolver.Problem(fs, Const(1, |pos.edge[x]|) + Const(-1, |neg.edge[x]|), PENALTY, PENALTY)
  }

  /** v with its values replaced by vals, indices kept. */
  function WithValues(v: SparseVec, vals: Vec): (r: SparseVec)
    requires |vals| == |v|
    ensures |r| == |v|
    ensures forall k :: 0 <= k < |v| ==> r[k] == SparseFeature(v[k].index, vals[k])
  {
    seq(|v|, k requires 0 <= k < |v| => SparseFeature(v[k].index, vals[k]))
  }

  /** The index lists of all nodes. */
  predicate SameIndices(a: seq<SparseVec>, b: seq<SparseVec>)
  {
    && |a| == |b|
    && forall x :: 0 <= x < |a| ==> |a[x]| == |b[x]| && forall k :: 0 <= k < |a[x]| ==> a[x][k].index == b[x][k].index
  }

  /** The model is sized for its graphs: one sparse vector per node, one
      coefficient per example. */
  predicate Fits(m: SparseEmbedding, pos: Graph, neg: Graph)
  {
    && Valid(pos) && m.size == pos.size && ListsWithin(neg, pos.size)
    && |m.embedding| == pos.size && |m.coeff| == pos.size
    && forall x :: 0 <= x < pos.size ==> |m.coeff[x]| == |pos.edge[x]| + |neg.edge[x]|
  }

  /** Every coefficient lies in [0, PENALTY]. */
  predicate Boxed(m: SparseEmbedding)
  {
    forall x, j :: 0 <= x < |m.coeff| && 0 <= j < |m.coeff[x]| ==> 0.0 <= m.coeff[x][j] <= PENALTY
  }

  lemma ExamplesBox(pos: Graph, neg: Graph, m: SparseEmbedding, x: int, c: seq<real>)
    requires Fits(m, pos, neg) && 0 <= x < pos.size && |c| == |m.coeff[x]|
    ensures LinearSolver.InBox(Examples(pos, neg, m.embedding, x), c) <==>
      forall j :: 0 <= j < |c| ==> 0.0 <= c[j] <= PENALTY
  {
  }

  /** Replacing x's values and coefficients by same-shaped ones keeps the
      model's shape, its index lists and (for boxed coefficients) its box. */
  lemma ReplaceNode(pos: Graph, neg: Graph, m: SparseEmbedding, x: int, vals: Vec, c: seq<real>)
    requires Fits(m, pos, neg) && 0 <= x < pos.size
    requires |vals| == |m.embedding[x]| && |c| == |m.coeff[x]|
    ensures var r := SparseEmbedding(m.size, m.embedding[x := WithValues(m.embedding[x], vals)], m.coeff[x := c]);
      && Fits(r, pos, neg) && SameIndices(r.embedding, m.embedding)
      && (Boxed(m) && (forall j :: 0 <= j < |c| ==> 0.0 <= c[j] <= PENALTY) ==> Boxed(r))
  {
  }

  /** What an update of node x computes: the solver's coefficients for its
      projected examples, and as x's values their weighted sum of the
      example features. Index lists and every other node stay as they
      were. */
  function Update(pos: Graph, neg: Graph, m: SparseEmbedding, x: int, draws: seq<seq<int>>): (r: SparseEmbedding)
    requires Fits(m, pos, neg) && 0 <= x < pos.size
    requires LinearSolver.EpochDraws(draws, |m.coeff[x]|)
    ensures Fits(r, pos, neg) && SameIndices(r.embedding, m.embedding)
    ensures forall y :: 0 <= y < pos.size && y != x ==>
      r.embedding[y] == m.embedding[y] && r.coeff[y] == m.coeff[y]
  {
    var p := Examples(pos, neg, m.embedding, x);
    var n := |m.embedding[x]|;
    var c := LinearSolver.Solve(p, m.coeff[x], n, draws).coeff;
    var vals := Combine(c, p.feature, n);
    ReplaceNode(pos, neg, m, x, vals, c);
    SparseEmbedding(m.size, m.embedding[x := WithValues(m.embedding[x], vals)], m.coeff[x := c])
  }

  /** `UpdateEmbedding(positive, negative, x)` with the solver guarded
      against a node without examples: solve over the projected examples and
      write the weighted sum of their features back as x's values. The
      index lists and every other node are left as they were. */
  method UpdateEmbedding(pos: Graph, neg: Graph, m: SparseEmbedding, x: int, draws: seq<seq<int>>)
    returns (r: SparseEmbedding)
    requires Fits(m, pos, neg) && 0 <= x < pos.size
    requires LinearSolver.EpochDraws(draws, |m.coeff[x]|)
    ensures r == Update(pos, neg, m, x, draws)
    ensures Fits(r, pos, neg) && SameIndices(r.embedding, m.embedding)
    ensures forall y :: 0 <= y < pos.size && y != x ==>
      r.embedding[y] == m.embedding[y] && r.coeff[y] == m.coeff[y]
    ensures var p := Examples(pos, neg, m.embedding, x);
      r.coeff[x] == LinearSolver.Solve(p, m.coeff[x], |m.embedding[x]|, draws).coeff
    ensures var p := Examples(pos, neg, m.embedding, x);
      forall k :: 0 <= k < |m.embedding[x]| ==>
        r.embedding[x][k].value == Combine(r.coeff[x], p.feature, |m.embedding[x]|)[k]
    ensures Boxed(m) ==> Boxed(r)
    ensures Boxed(m) && |m.coeff[x]| > 0 ==>
      var p := Examples(pos, neg, m.embedding, x);
      LinearSolver.Dual(p, r.coeff[x]) <= LinearSolver.Dual(p, m.coeff[x])
  {
    var p := Examples(pos, neg, m.embedding, x);
    var n := |m.embedding[x]|;
    var c, w := LinearSolver.GuardedLinearSVM(p, m.coeff[x], n, draws);
    var vals := Combine(c, p.feature, n);
    ReplaceNode(pos, neg, m, x, vals, c);
    ExamplesBox(pos, neg, m, x, m.coeff[x]);
    ExamplesBox(pos, neg, m, x, c);
    r := SparseEmbedding(m.size, m.embedding[x := WithValues(m.embedding[x], vals)], m.coeff[x := c]);
  }

  /** The initial sparse vector of node i: (i, 1), then (j, 0) for each
      neighbour j. */
  function InitialVector(g: Graph, i: int): (v: SparseVec)
    requires 0 <= i < |g.edge|
    ensures |v| == 1 + |g.edge[i]|
  {
    [SparseFeature(i, 1.0)] + seq(|g.edge[i]|, k requires 0 <= k < |g.edge[i]| => SparseFeature(g.edge[i][k], 0.0))
  }

  /** The constructor's starting point, coefficients sized after the
      negative graph is sampled. */
  function Initial(pos: Graph, neg: Graph): (m: SparseEmbedding)
    requires Valid(pos) && ListsWithin(neg, pos.size)
    ensures Fits(m, pos, neg) && Boxed(m)
    ensures forall x :: 0 <= x < pos.size ==> m.embedding[x] == InitialVector(pos, x)
  {
    SparseEmbedding(pos.size,
      seq(pos.size, i requires 0 <= i < pos.size => InitialVector(pos, i)),
      seq(pos.size, i requires 0 <= i < pos.size => Zeros(|pos.edge[i]| + |neg.edge[i]|)))
  }

  /** The term of `Evaluate` for one entry p of y's vector: its value times
      x's value at the same index, or nothing when x lacks the index. */
  function Term(vx: SparseVec, p: SparseFeature): real
  {
    var o := Lookup(vx, p.index);
    if o.Some? then p.value * o.value else 0.0
  }

  /** The sum of the terms over the entries of vy, in order. */
  function SparseDot(vx: SparseVec, vy: SparseVec): real
  {
    if |vy| == 0 then 0.0 else SparseDot(vx, vy[..|vy| - 1]) + Term(vx, vy[|vy| - 1])
  }

  /** `Evaluate(x, y)`. */
  function Evaluate(m: SparseEmbedding, x: int, y: int): real
    requires 0 <= x < |m.embedding| && 0 <= y < |m.embedding|
  {
    SparseDot(m.embedding[x], m.embedding[y])
  }

  /** When every entry after the first carries the value zero, only the
      first entry contributes to the sparse inner product. */
  lemma {:induction false} SparseDotHead(vx: SparseVec, vy: SparseVec, n: nat)
    requires 1 <= n <= |vy|
    requires forall k :: 1 <= k < |vy| ==> vy[k].value == 0.0
    ensures SparseDot(vx, vy[..n]) == Term(vx, vy[0])
  {
    if n == 1 {
      assert vy[..1][..0] == [];
    } else {
      SparseDotHead(vx, vy, n - 1);
      assert vy[..n][..n - 1] == vy[..n - 1];
    }
  }

  /** Before training, on a graph without self-loops, a node scores 1 with
      itself and 0 with every other node: only the own index carries a
      non-zero value. */
  lemma InitialScores(g: Graph, neg: Graph, x: int, y: int)
    requires Valid(g) && ListsWithin(neg, g.size) && NegativeSample.NoSelfLoops(g)
    requires 0 <= x < g.size && 0 <= y < g.size
    ensures Evaluate(Initial(g, neg), x, y) == if x == y then 1.0 else 0.0
  {
    var vx, vy := InitialVector(g, x), InitialVector(g, y);
    SparseDotHead(vx, vy, |vy|);
    assert vy[..|vy|] == vy;
    var o := Lookup(vx, y);
    if o.Some? {
      var k :| 0 <= k < |vx| && vx[k].index == y && o.value == vx[k].value;
      assert x == y <==> k == 0;
    }
  }

  function Values(v: SparseVec): (r: Vec)
    ensures |r| == |v| && forall k :: 0 <= k < |v| ==> r[k] == v[k].value
  {
    seq(|v|, k requires 0 <= k < |v| => v[k].value)
  }

  /** In a vector without repeated indices, looking up an entry's index
      finds that entry. */
  lemma LookupDistinct(v: SparseVec, k: int)
    requires DistinctIndices(v) && 0 <= k < |v|
    ensures Lookup(v, v[k].index) == Some(v[k].value)
  {
    var o := Lookup(v, v[k].index);
    var k' :| 0 <= k' < |v| && v[k'].index == v[k].index && o.value == v[k'].value;
    assert k' == k;
  }

  /** Over two vectors with the same distinct index list, the sparse inner
      product is the dense inner product of the values. */
  lemma {:induction false} SparseDotAligned(vx: SparseVec, vy: SparseVec, n: nat)
    requires |vx| == |vy| && n <= |vy| && DistinctIndices(vx)
    requires forall k :: 0 <= k < |vx| ==> vx[k].index == vy[k].index
    ensures SparseDot(vx, vy[..n]) == Dot(Values(vx)[..n], Values(vy)[..n])
  {
    if n > 0 {
      SparseDotAligned(vx, vy, n - 1);
      SparseDotLast(vx, vy, n);
      TermAligned(vx, vy, n - 1);
      DotPrefixLast(Values(vx), Values(vy), n);
    }
  }

  lemma SparseDotLast(vx: SparseVec, vy: SparseVec, n: nat)
    requires 0 < n <= |vy|
    ensures SparseDot(vx, vy[..n]) == SparseDot(vx, vy[..n - 1]) + Term(vx, vy[n - 1])
  {
    assert vy[..n][..n - 1] == vy[..n - 1];
  }

  /** Aligned entries at k multiply their two values. */
  lemma TermAligned(vx: SparseVec, vy: SparseVec, k: nat)
    requires k < |vx| && k < |vy| && DistinctIndices(vx) && vx[k].index == vy[k].index
    ensures Term(vx, vy[k]) == Times(Values(vx)[k], Values(vy)[k])
  {
    LookupDistinct(vx, k);
  }

  /** A node without repeated indices scores itself with its squared norm,
      so never below zero. */
  lemma SelfScore(m: SparseEmbedding, x: int)
    requires 0 <= x < |m.embedding| && DistinctIndices(m.embedding[x])
    ensures Evaluate(m, x, x) == Dot(Values(m.embedding[x]), Values(m.embedding[x]))
    ensures Evaluate(m, x, x) >= 0.0
  {
    var v := m.embedding[x];
    SparseDotAligned(v, v, |v|);
    assert v[..|v|] == v && Values(v)[..|v|] == Values(v);
    SqrNormNonNegative(Values(v));
  }

  /** Solver draws for every epoch, node and example count. */
  ghost predicate SolverDraws(draws: (int, int, nat) -> seq<seq<int>>)
  {
    forall e, x, count :: LinearSolver.EpochDraws(draws(e, x, count), count)
  }

  /** One epoch: the updates of order[0], order[1], ... in turn, each with
      the solver draws of its visit. A node the order does not hold keeps
      its vector and coefficients. */
  function Epoch(pos: Graph, neg: Graph, m: SparseEmbedding, order: seq<int>, e: nat,
                 draws: (int, int, nat) -> seq<seq<int>>): (r: SparseEmbedding)
    requires Fits(m, pos, neg) && SolverDraws(draws)
    requires forall k :: 0 <= k < |order| ==> 0 <= order[k] < pos.size
    ensures Fits(r, pos, neg) && SameIndices(r.embedding, m.embedding)
    ensures forall y :: 0 <= y < pos.size && y !in order ==>
      r.embedding[y] == m.embedding[y] && r.coeff[y] == m.coeff[y]
    decreases |order|
  {
    if |order| == 0 then m
    else
      var x := order[|order| - 1];
      var prev := Epoch(pos, neg, m, order[..|order| - 1], e, draws);
      var r := Update(pos, neg, prev, x, draws(e, x, |prev.coeff[x]|));
      SameIndicesTrans(r.embedding, prev.embedding, m.embedding);
      assert forall y :: y !in order ==> y != x && y !in order[..|order| - 1];
      r
  }

  /** Keeping the index lists is transitive. */
  lemma SameIndicesTrans(a: seq<SparseVec>, b: seq<SparseVec>, c: seq<SparseVec>)
    requires SameIndices(a, b) && SameIndices(b, c)
    ensures SameIndices(a, c)
  {
  }

  /** Epoch k of a run is the epoch over orders[k]. */
  function Epochs(pos: Graph, neg: Graph, m: SparseEmbedding, orders: seq<seq<int>>,
                  draws: (int, int, nat) -> seq<seq<int>>): (r: SparseEmbedding)
    requires Fits(m, pos, neg) && SolverDraws(draws)
    requires Sampling.OrdersBelow(orders, pos.size)
    ensures Fits(r, pos, neg) && SameIndices(r.embedding, m.embedding)
    decreases |orders|
  {
    if |orders| == 0 then m
    else
      var k := |orders| - 1;
      var prev := Epochs(pos, neg, m, orders[..k], draws);
      var r := Epoch(pos, neg, prev, orders[k], k, draws);
      SameIndicesTrans(r.embedding, prev.embedding, m.embedding);
      r
  }

  /** An update keeps a boxed model in its box. */
  lemma UpdateBoxed(pos: Graph, neg: Graph, m: SparseEmbedding, x: int, draws: seq<seq<int>>)
    requires Fits(m, pos, neg) && 0 <= x < pos.size && Boxed(m)
    requires LinearSolver.EpochDraws(draws, |m.coeff[x]|)
    ensures Boxed(Update(pos, neg, m, x, draws))
  {
    var p := Examples(pos, neg, m.embedding, x);
    var n := |m.embedding[x]|;
    var c := LinearSolver.Solve(p, m.coeff[x], n, draws).coeff;
    ExamplesBox(pos, neg, m, x, m.coeff[x]);
    LinearSolver.SolveKeepsInvariants(p, m.coeff[x], n, draws);
    ExamplesBox(pos, neg, m, x, c);
    ReplaceNode(pos, neg, m, x, Combine(c, p.feature, n), c);
  }

  /** An epoch keeps a boxed model in its box. */
  lemma {:induction false} EpochBoxed(pos: Graph, neg: Graph, m: SparseEmbedding, order: seq<int>, e: nat,
                                      draws: (int, int, nat) -> seq<seq<int>>)
    requires Fits(m, pos, neg) && SolverDraws(draws) && Boxed(m)
    requires forall k :: 0 <= k < |order| ==> 0 <= order[k] < pos.size
    ensures Boxed(Epoch(pos, neg, m, order, e, draws))
    decreases |order|
  {
    if |order| > 0 {
      var x := order[|order| - 1];
      EpochBoxed(pos, neg, m, order[..|order| - 1], e, draws);
      var prev := Epoch(pos, neg, m, order[..|order| - 1], e, draws);
      UpdateBoxed(pos, neg, prev, x, draws(e, x, |prev.coeff[x]|));
    }
  }

  /** The epochs keep a boxed model in its box. */
  lemma {:induction false} EpochsBoxed(pos: Graph, neg: Graph, m: SparseEmbedding, orders: seq<seq<int>>,
                                       draws: (int, int, nat) -> seq<seq<int>>)
    requires Fits(m, pos, neg) && SolverDraws(draws) && Boxed(m)
    requires Sampling.OrdersBelow(orders, pos.size)
    ensures Boxed(Epochs(pos, neg, m, orders, draws))
    decreases |orders|
  {
    if |orders| > 0 {
      var k := |orders| - 1;
      EpochsBoxed(pos, neg, m, orders[..k], draws);
      EpochBoxed(pos, neg, Epochs(pos, neg, m, orders[..k], draws), orders[k], k, draws);
    }
  }

  /** One more epoch extends the epochs so far. */
  lemma EpochsSnoc(pos: Graph, neg: Graph, m: SparseEmbedding, orders: seq<seq<int>>, order: seq<int>,
                   draws: (int, int, nat) -> seq<seq<int>>)
    requires Fits(m, pos, neg) && SolverDraws(draws)
    requires Sampling.OrdersBelow(orders, pos.size)
    requires |order| == pos.size && forall k :: 0 <= k < |order| ==> 0 <= order[k] < pos.size
    ensures Sampling.OrdersBelow(orders + [order], pos.size)
    ensures Epochs(pos, neg, m, orders + [order], draws)
      == Epoch(pos, neg, Epochs(pos, neg, m, orders, draws), order, |orders|, draws)
  {
    Sampling.OrdersBelowSnoc(orders, order, pos.size);
    var all := orders + [order];
    assert all[..|orders|] == orders && all[|orders|] == order;
  }

  /** The epoch over order[..t + 1] is the epoch over order[..t] followed
      by the update of order[t]. */
  lemma EpochStep(pos: Graph, neg: Graph, m: SparseEmbedding, order: seq<int>, t: int, e: nat,
                  draws: (int, int, nat) -> seq<seq<int>>)
    requires Fits(m, pos, neg) && SolverDraws(draws)
    requires forall k :: 0 <= k < |order| ==> 0 <= order[k] < pos.size
    requires 0 <= t < |order|
    ensures var prev := Epoch(pos, neg, m, order[..t], e, draws);
      Epoch(pos, neg, m, order[..t + 1], e, draws)
        == Update(pos, neg, prev, order[t], draws(e, order[t], |prev.coeff[order[t]]|))
  {
    assert order[..t + 1][..t] == order[..t];
  }

  /** One epoch: update the nodes in the given order. */
  method RunEpoch(pos: Graph, neg: Graph, m: SparseEmbedding, order: seq<int>, e: nat,
                  draws: (int, int, nat) -> seq<seq<int>>)
    returns (r: SparseEmbedding)
    requires Fits(m, pos, neg) && SolverDraws(draws)
    requires forall k :: 0 <= k < |order| ==> 0 <= order[k] < pos.size
    ensures r == Epoch(pos, neg, m, order, e, draws)
    ensures Fits(r, pos, neg) && SameIndices(r.embedding, m.embedding)
    ensures Boxed(m) ==> Boxed(r)
    ensures forall y :: 0 <= y < pos.size && y !in order ==>
      r.embedding[y] == m.embedding[y] && r.coeff[y] == m.coeff[y]
  {
    r := UpdateAll(pos, neg, m, order, e, draws);
    if Boxed(m) {
      EpochBoxed(pos, neg, m, order, e, draws);
    }
  }

  /** The loop of `RunEpoch`: the updates of order[0], order[1], ... */
  method UpdateAll(pos: Graph, neg: Graph, m: SparseEmbedding, order: seq<int>, e: nat,
                   draws: (int, int, nat) -> seq<seq<int>>)
    returns (r: SparseEmbedding)
    requires Fits(m, pos, neg) && SolverDraws(draws)
    requires forall k :: 0 <= k < |order| ==> 0 <= order[k] < pos.size
    ensures r == Epoch(pos, neg, m, order, e, draws)
  {
    r := m;
    for t := 0 to |order|
      invariant r == Epoch(pos, neg, m, order[..t], e, draws)
    {
      r := NextUpdate(pos, neg, m, order, t, e, draws, r);
    }
    assert order[..|order|] == order;
  }

  /** Step t of `RunEpoch`: the update of order[t]. */
  method NextUpdate(pos: Graph, neg: Graph, m: SparseEmbedding, order: seq<int>, t: int, e: nat,
                    draws: (int, int, nat) -> seq<seq<int>>, r: SparseEmbedding)
    returns (r': SparseEmbedding)
    requires Fits(m, pos, neg) && SolverDraws(draws)
    requires forall k :: 0 <= k < |order| ==> 0 <= order[k] < pos.size
    requires 0 <= t < |order| && r == Epoch(pos, neg, m, order[..t], e, draws)
    ensures r' == Epoch(pos, neg, m, order[..t + 1], e, draws)
  {
    var x := order[t];
    EpochStep(pos, neg, m, order, t, e, draws);
    r' := UpdateEmbedding(pos, neg, r, x, draws(e, x, |r.coeff[x]|));
  }

  /** The constructor `SparseEmbedding(graph)`: initial vectors, a negative
      graph from the local sampler, zero coefficients, then EPOCHS epochs
      over fresh permutations. Returns the model, the negative graph, the
      epoch orders and the log of visited nodes. */
  method Train(g: Graph, negDraws: seq<real>, orderDraws: seq<seq<int>>,
               solverDraws: (int, int, nat) -> seq<seq<int>>)
    returns (m: SparseEmbedding, neg: Graph, orders: seq<seq<int>>, log: seq<int>)
    requires Valid(g) && NegativeSample.NeighboursHaveEdges(g)
    requires |negDraws| == NegativeSample.NEGATIVE_RATIO * TotalLength(g.edge) && NegativeSample.UnitDraws(negDraws)
    requires Sampling.OrderDraws(orderDraws, EPOCHS, g.size)
    requires SolverDraws(solverDraws)
    ensures Fits(m, g, neg) && Boxed(m) && Valid(neg) && Symmetric(neg) && NegativeSample.NoSelfLoops(neg)
    ensures neg == NegativeSample.AddEdges(NewGraph(g.size), NegativeSample.LocalAdded(g, negDraws, g.size))
    ensures orders == Sampling.Orders(g.size, orderDraws)
    ensures m == Epochs(g, neg, Initial(g, neg), orders, solverDraws)
    ensures SameIndices(m.embedding, Initial(g, neg).embedding)
    ensures log == Sampling.Concat(orders) && Sampling.VisitedEach(log, g.size, EPOCHS)
  {
    var added;
    var empty := NewGraph(g.size);
    assert NegativeSample.NoSelfLoops(empty);
    neg, added := NegativeSample.SampleLocalNegativeGraph(g, empty, negDraws);
    m, orders := RunEpochs(g, neg, Initial(g, neg), orderDraws, solverDraws);
    log := Sampling.Concat(orders);
    Sampling.OrdersVisitEach(g.size, orderDraws);
  }

  /** The EPOCHS passes of `Train`, each over a fresh shuffle of the nodes:
      the model is the fold of the epochs over the shuffled orders and keeps
      its box. */
  method RunEpochs(g: Graph, neg: Graph, start: SparseEmbedding, orderDraws: seq<seq<int>>,
                   solverDraws: (int, int, nat) -> seq<seq<int>>)
    returns (m: SparseEmbedding, orders: seq<seq<int>>)
    requires Fits(start, g, neg) && Boxed(start)
    requires Sampling.OrderDraws(orderDraws, EPOCHS, g.size)
    requires SolverDraws(solverDraws)
    ensures orders == Sampling.Orders(g.size, orderDraws)
    ensures m == Epochs(g, neg, start, orders, solverDraws) && Boxed(m)
  {
    m := start;
    orders := [];
    Sampling.OrdersStart(g.size, orderDraws);
    for e := 0 to EPOCHS
      invariant Sampling.OrdersSoFar(g.size, orderDraws, e, orders)
      invariant m == Epochs(g, neg, start, orders, solverDraws)
    {
      m, orders := NextEpoch(g, neg, start, orderDraws, solverDraws, e, m, orders);
    }
    Sampling.OrdersDone(g.size, orderDraws, orders);
    EpochsBoxed(g, neg, start, orders, solverDraws);
  }

  /** Epoch `e` of `RunEpochs`: shuffle the previous order and sweep it. */
  method NextEpoch(g: Graph, neg: Graph, start: SparseEmbedding, orderDraws: seq<seq<int>>,
                   solverDraws: (int, int, nat) -> seq<seq<int>>, e: nat,
                   m: SparseEmbedding, orders: seq<seq<int>>)
    returns (m': SparseEmbedding, orders': seq<seq<int>>)
    requires Fits(start, g, neg) && SolverDraws(solverDraws)
    requires e < |orderDraws| && Sampling.OrdersSoFar(g.size, orderDraws, e, orders)
    requires m == Epochs(g, neg, start, orders, solverDraws)
    ensures Sampling.OrdersSoFar(g.size, orderDraws, e + 1, orders')
    ensures m' == Epochs(g, neg, start, orders', solverDraws)
  {
    var order := Sampling.NextOrder(g.size, orderDraws, e, orders);
    m' := RunEpoch(g, neg, m, order, e, solverDraws);
    EpochsSnoc(g, neg, start, orders, order, solverDraws);
    orders' := orders + [order];
  }
}

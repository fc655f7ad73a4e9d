/** finite.cpp: every node x has an embedding and one dual coefficient per
    example, its positive neighbours (label 1) followed by its sampled
    negative neighbours (label -1). An update solves the linear SVM over the
    neighbours' embeddings, warm-started from the stored coefficients, and
    writes back embedding[x] = sum of coeff[x][j] * feature[j] (without the
    label factor). Training visits all nodes in a fresh random order for
    EPOCHS epochs; a link is scored by the inner product of two
    embeddings. */
module Finite {
  import opened Seqs
  import opened Vectors
  import opened Graphs
  import Sampling
  import LinearSolver

  const EPOCHS: nat := 10
  const POS_PENALTY: real := 1.0
  const NEG_PENALTY: real := 0.25

  /** `FiniteEmbedding`: dimension, one embedding and one coefficient vector
      per node. */
  datatype FiniteEmbedding = FiniteEmbedding(dim: nat, embedding: seq<Vec>, coeff: seq<seq<real>>)

  /** The model is sized for the positive graph pos and the negative graph
      neg: one embedding of length dim per node, one coefficient per example. */
  predicate Fits(m: FiniteEmbedding, pos: Graph, neg: Graph)
  {
    var n := |m.embedding|;
    && Valid(pos) && pos.size == n && ListsWithin(neg, n)
    && AllDim(m.embedding, m.dim)
    && |m.coeff| == n
    && forall x :: 0 <= x < n ==> |m.coeff[x]| == |pos.edge[x]| + |neg.edge[x]|
  }

  /** Every coefficient lies in its box: [0, POS_PENALTY] for a positive
      example, [0, NEG_PENALTY] for a negative one. */
  predicate Boxed(m: FiniteEmbedding, pos: Graph)
  {
    forall x, j :: 0 <= x < |m.coeff| && 0 <= j < |m.coeff[x]| ==>
      0.0 <= m.coeff[x][j] <= (if x < |pos.edge| && j < |pos.edge[x]| then POS_PENALTY else NEG_PENALTY)
  }

  /** The examples of node x as `UpdateEmbedding` hands them to the solver:
      the embeddings of its positive neighbours labelled 1, then those of its
      negative neighbours labelled -1. */
  function Examples(pos: Graph, neg: Graph, emb: seq<Vec>, x: int): (p: LinearSolver.Problem)
    requires 0 <= x < |pos.edge| && 0 <= x < |neg.edge|
    requires forall k :: 0 <= k < |pos.edge[x]| ==> 0 <= pos.edge[x][k] < |emb|
    requires forall k :: 0 <= k < |neg.edge[x]| ==> 0 <= neg.edge[x][k] < |emb|
    ensures |p.feature| == |p.labels| == |pos.edge[x]| + |neg.edge[x]|
    ensures LinearSolver.UnitLabels(p)
    ensures forall j :: 0 <= j < |pos.edge[x]| ==> p.feature[j] == emb[pos.edge[x][j]] && p.labels[j] == 1
    ensures forall j :: |pos.edge[x]| <= j < |p.feature| ==>
      p.feature[j] == emb[neg.edge[x][j - |pos.edge[x]|]] && p.labels[j] == -1
  {
    var a, b := pos.edge[x], neg.edge[x];
    LinearSolver.Problem(Pick(emb, a) + Pick(emb, b), Const(1, |a|) + Const(-1, |b|), POS_PENALTY, NEG_PENALTY)
  }

  /** The solver's box for node x is the model's box. */
  lemma ExamplesBox(pos: Graph, neg: Graph, m: FiniteEmbedding, x: int, c: seq<real>)
    requires Fits(m, pos, neg) && 0 <= x < |m.embedding| && |c| == |m.coeff[x]|
    ensures LinearSolver.InBox(Examples(pos, neg, m.embedding, x), c) <==>
      forall j :: 0 <= j < |c| ==> 0.0 <= c[j] <= (if j < |pos.edge[x]| then POS_PENALTY else NEG_PENALTY)
  {
    var p := Examples(pos, neg, m.embedding, x);
    assert forall j :: 0 <= j < |c| ==> LinearSolver.Bound(p, j) == (if j < |pos.edge[x]| then POS_PENALTY else NEG_PENALTY);
  }

  /** What an update of node x computes: the solver's coefficients for its
      examples, and as embedding their weighted sum of the example
      features. Every other node keeps its embedding and coefficients. */
  function Update(pos: Graph, neg: Graph, m: FiniteEmbedding, x: int, draws: seq<seq<int>>): (r: FiniteEmbedding)
    requires Fits(m, pos, neg) && 0 <= x < |m.embedding|
    requires LinearSolver.EpochDraws(draws, |m.coeff[x]|)
    ensures Fits(r, pos, neg) && r.dim == m.dim
    ensures forall y :: 0 <= y < |m.embedding| && y != x ==>
      r.embedding[y] == m.embedding[y] && r.coeff[y] == m.coeff[y]
    ensures var p := Examples(pos, neg, m.embedding, x);
      AllDim(p.feature, m.dim)
      && r.coeff[x] == LinearSolver.Solve(p, m.coeff[x], m.dim, draws).coeff
      && r.embedding[x] == Combine(r.coeff[x], p.feature, m.dim)
  {
    var p := Examples(pos, neg, m.embedding, x);
    assert AllDim(p.feature, m.dim);
    var c := LinearSolver.Solve(p, m.coeff[x], m.dim, draws).coeff;
    var e := Combine(c, p.feature, m.dim);
    ReplaceNode(pos, neg, m, x, e, c);
    FiniteEmbedding(m.dim, m.embedding[x := e], m.coeff[x := c])
  }

  /** `UpdateEmbedding(positive, negative, x)`, with the solver guarded
      against a node without examples: new coefficients for x from the
      solver, then embedding[x] becomes their weighted sum of the example
      features. No other node changes. */
  method UpdateEmbedding(pos: Graph, neg: Graph, m: FiniteEmbedding, x: int, draws: seq<seq<int>>)
    returns (r: FiniteEmbedding)
    requires Fits(m, pos, neg) && 0 <= x < |m.embedding|
    requires LinearSolver.EpochDraws(draws, |m.coeff[x]|)
    ensures r == Update(pos, neg, m, x, draws)
    ensures Fits(r, pos, neg) && r.dim == m.dim
    ensures forall y :: 0 <= y < |m.embedding| && y != x ==>
      r.embedding[y] == m.embedding[y] && r.coeff[y] == m.coeff[y]
    ensures r.embedding[x] == Combine(r.coeff[x], Examples(pos, neg, m.embedding, x).feature, m.dim)
    ensures |m.coeff[x]| == 0 ==> r == m.(embedding := m.embedding[x := Zeros(m.dim)])
    ensures Boxed(m, pos) ==> Boxed(r, pos)
    ensures Boxed(m, pos) && |m.coeff[x]| > 0 ==>
      var p := Examples(pos, neg, m.embedding, x);
      LinearSolver.Dual(p, r.coeff[x]) <= LinearSolver.Dual(p, m.coeff[x])
  {
    var p := Examples(pos, neg, m.embedding, x);
    assert AllDim(p.feature, m.dim);
    var c, w := LinearSolver.GuardedLinearSVM(p, m.coeff[x], m.dim, draws);
    r := FiniteEmbedding(m.dim, m.embedding[x := Combine(c, p.feature, m.dim)], m.coeff[x := c]);
    if |c| == 0 {
      assert m.coeff[x := c] == m.coeff;
      assert Combine(c, p.feature, m.dim) == Zeros(m.dim);
    }
    if Boxed(m, pos) {
      UpdateBoxed(pos, neg, m, x, draws);
    }
  }

  /** An update of a boxed model stays in the box, and does not raise the
      solver's dual objective for the updated node. */
  lemma UpdateBoxed(pos: Graph, neg: Graph, m: FiniteEmbedding, x: int, draws: seq<seq<int>>)
    requires Fits(m, pos, neg) && 0 <= x < |m.embedding| && Boxed(m, pos)
    requires LinearSolver.EpochDraws(draws, |m.coeff[x]|)
    ensures Boxed(Update(pos, neg, m, x, draws), pos)
    ensures |m.coeff[x]| > 0 ==>
      var p := Examples(pos, neg, m.embedding, x);
      LinearSolver.Dual(p, Update(pos, neg, m, x, draws).coeff[x]) <= LinearSolver.Dual(p, m.coeff[x])
  {
    var p := Examples(pos, neg, m.embedding, x);
    assert AllDim(p.feature, m.dim);
    var c := LinearSolver.Solve(p, m.coeff[x], m.dim, draws).coeff;
    ExamplesBox(pos, neg, m, x, m.coeff[x]);
    LinearSolver.SolveKeepsInvariants(p, m.coeff[x], m.dim, draws);
    ExamplesBox(pos, neg, m, x, c);
    ReplaceBoxed(pos, m, x, Combine(c, p.feature, m.dim), c);
  }

  /** Replacing one node's embedding and coefficients by ones of the same
      shape keeps the model sized for its graphs. */
  lemma ReplaceNode(pos: Graph, neg: Graph, m: FiniteEmbedding, x: int, e: Vec, c: seq<real>)
    requires Fits(m, pos, neg) && 0 <= x < |m.embedding|
    requires |e| == m.dim && |c| == |m.coeff[x]|
    ensures Fits(FiniteEmbedding(m.dim, m.embedding[x := e], m.coeff[x := c]), pos, neg)
  {
  }

  /** Replacing one node's coefficients by boxed ones keeps the model boxed. */
  lemma ReplaceBoxed(pos: Graph, m: FiniteEmbedding, x: int, e: Vec, c: seq<real>)
    requires Boxed(m, pos) && 0 <= x < |m.coeff| && x < |pos.edge| && x < |m.embedding|
    requires forall j :: 0 <= j < |c| ==> 0.0 <= c[j] <= (if j < |pos.edge[x]| then POS_PENALTY else NEG_PENALTY)
    ensures Boxed(FiniteEmbedding(m.dim, m.embedding[x := e], m.coeff[x := c]), pos)
  {
  }

  /** Without negative examples the written-back embedding is the solver's
      primal vector: the missing label factor only matters for negatives. */
  lemma {:induction false} UnsignedCombination(pos: Graph, neg: Graph, m: FiniteEmbedding, x: int, c: seq<real>)
    requires Fits(m, pos, neg) && 0 <= x < |m.embedding|
    requires |c| == |m.coeff[x]| && |neg.edge[x]| == 0 && |pos.edge[x]| > 0
    ensures var p := Examples(pos, neg, m.embedding, x);
      LinearSolver.WellFormed(p, c) && Combine(c, p.feature, m.dim) == LinearSolver.Primal(p, c)
  {
    var p := Examples(pos, neg, m.embedding, x);
    assert AllDim(p.feature, m.dim);
    assert LinearSolver.SignedWeights(p, c) == c;
  }

  /** The initial model: the given random embeddings and all-zero
      coefficients (a resized vector is zero-filled). */
  function Initial(pos: Graph, neg: Graph, dim: nat, init: seq<Vec>): (m: FiniteEmbedding)
    requires Valid(pos) && ListsWithin(neg, pos.size) && |init| == pos.size && AllDim(init, dim)
    ensures Fits(m, pos, neg) && Boxed(m, pos) && m.embedding == init && m.dim == dim
  {
    FiniteEmbedding(dim, init, seq(pos.size, x requires 0 <= x < pos.size => Zeros(|pos.edge[x]| + |neg.edge[x]|)))
  }

  /** Solver draws for every (epoch, node) visit. */
  ghost predicate SolverDraws(draws: (int, int) -> seq<seq<int>>, pos: Graph, neg: Graph, epochs: nat)
    requires Valid(pos) && ListsWithin(neg, pos.size)
  {
    forall e, x :: 0 <= e < epochs && 0 <= x < pos.size ==>
      LinearSolver.EpochDraws(draws(e, x), |pos.edge[x]| + |neg.edge[x]|)
  }

  /** One epoch: the updates of order[0], order[1], ... in turn, each with
      the solver draws of its (epoch, node) visit. A node the order does not
      hold keeps its embedding and coefficients. */
  function Epoch(pos: Graph, neg: Graph, m: FiniteEmbedding, order: seq<int>, e: nat,
                 draws: (int, int) -> seq<seq<int>>): (r: FiniteEmbedding)
    requires Fits(m, pos, neg) && e < EPOCHS && SolverDraws(draws, pos, neg, EPOCHS)
    requires forall k :: 0 <= k < |order| ==> 0 <= order[k] < |m.embedding|
    ensures Fits(r, pos, neg) && r.dim == m.dim
    ensures forall y :: 0 <= y < |m.embedding| && y !in order ==>
      r.embedding[y] == m.embedding[y] && r.coeff[y] == m.coeff[y]
    decreases |order|
  {
    if |order| == 0 then m
    else
      var x := order[|order| - 1];
      var prev := Epoch(pos, neg, m, order[..|order| - 1], e, draws);
      assert forall y :: y !in order ==> y !in order[..|order| - 1];
      Update(pos, neg, prev, x, draws(e, x))
  }

  /** `EPOCHS` epochs: epoch k is the epoch over orders[k]. */
  function Epochs(pos: Graph, neg: Graph, m: FiniteEmbedding, orders: seq<seq<int>>,
                  draws: (int, int) -> seq<seq<int>>): (r: FiniteEmbedding)
    requires Fits(m, pos, neg) && |orders| <= EPOCHS && SolverDraws(draws, pos, neg, EPOCHS)
    requires Sampling.OrdersBelow(orders, |m.embedding|)
    ensures Fits(r, pos, neg) && r.dim == m.dim
    decreases |orders|
  {
    if |orders| == 0 then m
    else
      var k := |orders| - 1;
      Epoch(pos, neg, Epochs(pos, neg, m, orders[..k], draws), orders[k], k, draws)
  }

  /** An epoch keeps a boxed model in its box. */
  lemma {:induction false} EpochBoxed(pos: Graph, neg: Graph, m: FiniteEmbedding, order: seq<int>, e: nat,
                                      draws: (int, int) -> seq<seq<int>>)
    requires Fits(m, pos, neg) && e < EPOCHS && SolverDraws(draws, pos, neg, EPOCHS) && Boxed(m, pos)
    requires forall k :: 0 <= k < |order| ==> 0 <= order[k] < |m.embedding|
    ensures Boxed(Epoch(pos, neg, m, order, e, draws), pos)
    decreases |order|
  {
    if |order| > 0 {
      var x := order[|order| - 1];
      EpochBoxed(pos, neg, m, order[..|order| - 1], e, draws);
      UpdateBoxed(pos, neg, Epoch(pos, neg, m, order[..|order| - 1], e, draws), x, draws(e, x));
    }
  }

  /** The epochs keep a boxed model in its box. */
  lemma {:induction false} EpochsBoxed(pos: Graph, neg: Graph, m: FiniteEmbedding, orders: seq<seq<int>>,
                                       draws: (int, int) -> seq<seq<int>>)
    requires Fits(m, pos, neg) && |orders| <= EPOCHS && SolverDraws(draws, pos, neg, EPOCHS) && Boxed(m, pos)
    requires Sampling.OrdersBelow(orders, |m.embedding|)
    ensures Boxed(Epochs(pos, neg, m, orders, draws), pos)
    decreases |orders|
  {
    if |orders| > 0 {
      var k := |orders| - 1;
      EpochsBoxed(pos, neg, m, orders[..k], draws);
      EpochBoxed(pos, neg, Epochs(pos, neg, m, orders[..k], draws), orders[k], k, draws);
    }
  }

  /** One more epoch extends the epochs so far. */
  lemma EpochsSnoc(pos: Graph, neg: Graph, m: FiniteEmbedding, orders: seq<seq<int>>, order: seq<int>,
                   draws: (int, int) -> seq<seq<int>>)
    requires Fits(m, pos, neg) && |orders| < EPOCHS && SolverDraws(draws, pos, neg, EPOCHS)
    requires Sampling.OrdersBelow(orders, |m.embedding|)
    requires |order| == |m.embedding| && forall k :: 0 <= k < |order| ==> 0 <= order[k] < |m.embedding|
    ensures Sampling.OrdersBelow(orders + [order], |m.embedding|)
    ensures Epochs(pos, neg, m, orders + [order], draws)
      == Epoch(pos, neg, Epochs(pos, neg, m, orders, draws), order, |orders|, draws)
  {
    Sampling.OrdersBelowSnoc(orders, order, |m.embedding|);
    var all := orders + [order];
    assert all[..|orders|] == orders && all[|orders|] == order;
  }

  /** The epoch over order[..t + 1] is the epoch over order[..t] followed
      by the update of order[t]. */
  lemma EpochStep(pos: Graph, neg: Graph, m: FiniteEmbedding, order: seq<int>, t: int, e: nat,
                  draws: (int, int) -> seq<seq<int>>)
    requires Fits(m, pos, neg) && e < EPOCHS && SolverDraws(draws, pos, neg, EPOCHS)
    requires forall k :: 0 <= k < |order| ==> 0 <= order[k] < |m.embedding|
    requires 0 <= t < |order|
    ensures var prev := Epoch(pos, neg, m, order[..t], e, draws);
      LinearSolver.EpochDraws(draws(e, order[t]), |prev.coeff[order[t]]|)
      && Epoch(pos, neg, m, order[..t + 1], e, draws) == Update(pos, neg, prev, order[t], draws(e, order[t]))
  {
    assert order[..t + 1][..t] == order[..t];
  }

  /** One epoch: update the nodes in the given order. */
  method RunEpoch(pos: Graph, neg: Graph, m: FiniteEmbedding, order: seq<int>, e: nat,
                  draws: (int, int) -> seq<seq<int>>)
    returns (r: FiniteEmbedding)
    requires Fits(m, pos, neg) && e < EPOCHS && SolverDraws(draws, pos, neg, EPOCHS)
    requires forall k :: 0 <= k < |order| ==> 0 <= order[k] < |m.embedding|
    ensures r == Epoch(pos, neg, m, order, e, draws)
    ensures Fits(r, pos, neg) && r.dim == m.dim
    ensures Boxed(m, pos) ==> Boxed(r, pos)
    ensures forall y :: 0 <= y < |m.embedding| && y !in order ==>
      r.embedding[y] == m.embedding[y] && r.coeff[y] == m.coeff[y]
  {
    r := m;
    for t := 0 to |order|
      invariant r == Epoch(pos, neg, m, order[..t], e, draws)
      invariant Boxed(m, pos) ==> Boxed(r, pos)
    {
      EpochStep(pos, neg, m, order, t, e, draws);
      r := UpdateEmbedding(pos, neg, r, order[t], draws(e, order[t]));
    }
    assert order[..|order|] == order;
  }

  /** The ten epochs of the constructor, each over the next shuffle of the
      node order. */
  method RunEpochs(pos: Graph, neg: Graph, start: FiniteEmbedding, orderDraws: seq<seq<int>>,
                   solverDraws: (int, int) -> seq<seq<int>>)
    returns (m: FiniteEmbedding, orders: seq<seq<int>>)
    requires Fits(start, pos, neg) && Boxed(start, pos)
    requires Sampling.OrderDraws(orderDraws, EPOCHS, pos.size)
    requires SolverDraws(solverDraws, pos, neg, EPOCHS)
    ensures orders == Sampling.Orders(pos.size, orderDraws)
    ensures m == Epochs(pos, neg, start, orders, solverDraws) && Boxed(m, pos)
  {
    m := start;
    orders := [];
    Sampling.OrdersStart(pos.size, orderDraws);
    for e := 0 to EPOCHS
      invariant Sampling.OrdersSoFar(pos.size, orderDraws, e, orders)
      invariant m == Epochs(pos, neg, start, orders, solverDraws)
    {
      m, orders := NextEpoch(pos, neg, start, orderDraws, solverDraws, e, m, orders);
    }
    Sampling.OrdersDone(pos.size, orderDraws, orders);
    EpochsBoxed(pos, neg, start, orders, solverDraws);
  }

  /** Epoch `e` of `RunEpochs`: shuffle the previous order and sweep it. */
  method NextEpoch(pos: Graph, neg: Graph, start: FiniteEmbedding, orderDraws: seq<seq<int>>,
                   solverDraws: (int, int) -> seq<seq<int>>, e: nat,
                   m: FiniteEmbedding, orders: seq<seq<int>>)
    returns (m': FiniteEmbedding, orders': seq<seq<int>>)
    requires Fits(start, pos, neg) && SolverDraws(solverDraws, pos, neg, EPOCHS)
    requires e < |orderDraws| == EPOCHS && Sampling.OrdersSoFar(pos.size, orderDraws, e, orders)
    requires m == Epochs(pos, neg, start, orders, solverDraws)
    ensures Sampling.OrdersSoFar(pos.size, orderDraws, e + 1, orders')
    ensures m' == Epochs(pos, neg, start, orders', solverDraws)
  {
    var order := Sampling.NextOrder(pos.size, orderDraws, e, orders);
    m' := RunEpoch(pos, neg, m, order, e, solverDraws);
    EpochsSnoc(pos, neg, start, orders, order, solverDraws);
    orders' := orders + [order];
  }

  /** The constructor `FiniteEmbedding(graph, negative, dimension)`: start
      from the given embeddings and zero coefficients, then EPOCHS epochs,
      each over a fresh permutation of the previous order. Returns the model,
      the epoch orders and the log of visited nodes. */
  method Train(pos: Graph, neg: Graph, dim: nat, init: seq<Vec>,
               orderDraws: seq<seq<int>>, solverDraws: (int, int) -> seq<seq<int>>)
    returns (m: FiniteEmbedding, orders: seq<seq<int>>, log: seq<int>)
    requires Valid(pos) && ListsWithin(neg, pos.size) && |init| == pos.size && AllDim(init, dim)
    requires Sampling.OrderDraws(orderDraws, EPOCHS, pos.size)
    requires SolverDraws(solverDraws, pos, neg, EPOCHS)
    ensures Fits(m, pos, neg) && Boxed(m, pos) && m.dim == dim
    ensures orders == Sampling.Orders(pos.size, orderDraws)
    ensures m == Epochs(pos, neg, Initial(pos, neg, dim, init), orders, solverDraws)
    ensures |orders| == EPOCHS && forall e :: 0 <= e < EPOCHS ==> IsOrderOf(orders[e], pos.size)
    ensures log == Sampling.Concat(orders) && Sampling.VisitedEach(log, pos.size, EPOCHS)
  {
    m, orders := RunEpochs(pos, neg, Initial(pos, neg, dim, init), orderDraws, solverDraws);
    Sampling.OrdersAreOrders(pos.size, orderDraws);
    log := Sampling.Concat(orders);
    Sampling.OrdersVisitEach(pos.size, orderDraws);
  }

  /** `Evaluate(x, y)`: the inner product of the two embeddings. */
  function Evaluate(m: FiniteEmbedding, x: int, y: int): real
    requires 0 <= x < |m.embedding| && 0 <= y < |m.embedding| && AllDim(m.embedding, m.dim)
  {
    Dot(m.embedding[x], m.embedding[y])
  }

  /** Scores are symmetric in the two endpoints. */
  lemma EvaluateSymmetric(m: FiniteEmbedding, x: int, y: int)
    requires 0 <= x < |m.embedding| && 0 <= y < |m.embedding| && AllDim(m.embedding, m.dim)
    ensures Evaluate(m, x, y) == Evaluate(m, y, x)
  {
    DotSymmetric(m.embedding[x], m.embedding[y]);
  }

  /** A node without positive or negative neighbours hands the solver an
      empty example list, which the unguarded solver does not accept: it
      reads the dimension from the first feature. */
  lemma IsolatedNodeHasNoExamples()
    ensures var pos, neg := NewGraph(2), NewGraph(2);
      var p := Examples(pos, neg, [[0.5], [0.5]], 0);
      |p.feature| == 0 && !LinearSolver.WellFormed(p, [])
  {
  }
}

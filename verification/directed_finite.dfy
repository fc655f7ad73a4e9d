/** directed_finite.cpp: the in-embedding of x is fitted to the
    out-embeddings of its in-neighbours (label 1, penalty 1/regularizer,
    margin 1) and of its negative in-neighbours (label -1, penalty
    neg_penalty/regularizer, margin 0); the out-embedding symmetrically to
    in-embeddings over out-neighbours. The solver of svm.h writes the
    coefficients and the embedding in place; the squared-norm cache of the
    updated embedding is then refreshed. */
module DirectedFinite {
  import opened Seqs
  import opened Vectors
  import opened Graphs
  import opened Directed
  import Sampling
  import Solvers

  const EPOCHS: nat := 10

  /** `neg_penalty` and `regularizer`. */
  datatype Hyper = Hyper(negPenalty: real, regularizer: real)

  /** The neighbours of x on the given side: in-neighbours for the
      in-embedding, out-neighbours for the out-embedding. */
  function Ids(g: DGraph, inSide: bool, x: int): seq<int>
    requires 0 <= x < |g.inEdge| && 0 <= x < |g.outEdge|
  {
    if inSide then g.inEdge[x] else g.outEdge[x]
  }

  /** The model is sized for the positive graph pos and the negative graph
      neg: one coefficient per example on each side of each node. */
  predicate Fits(m: DirectedModel, pos: DGraph, neg: DGraph)
  {
    var n := |m.inEmb|;
    && Shaped(m) && ValidD(pos) && pos.size == n && ListsWithinD(neg, n)
    && forall x :: 0 <= x < n ==>
         |m.inCoeff[x]| == |pos.inEdge[x]| + |neg.inEdge[x]| && |m.outCoeff[x]| == |pos.outEdge[x]| + |neg.outEdge[x]|
  }

  /** Node ids of an update's examples lie in the graph. */
  lemma IdsWithin(m: DirectedModel, pos: DGraph, neg: DGraph, inSide: bool, x: int)
    requires Fits(m, pos, neg) && 0 <= x < |m.inEmb|
    ensures var ids := Ids(pos, inSide, x) + Ids(neg, inSide, x);
      forall k :: 0 <= k < |ids| ==> 0 <= ids[k] < |m.inEmb|
  {
  }

  /** The solver arguments of `UpdateInEmbedding(positive, negative, x)`
      (inSide) or `UpdateOutEmbedding`, with the squared norms of the
      features. */
  function SideTask(m: DirectedModel, pos: DGraph, neg: DGraph, h: Hyper, inSide: bool, x: int)
    : (r: (Solvers.Task, seq<real>))
    requires Fits(m, pos, neg) && 0 <= x < |m.inEmb| && h.regularizer != 0.0
    ensures Solvers.TaskShape(r.0) && |r.1| == |r.0.feature|
    ensures |r.0.feature| == |Ids(pos, inSide, x)| + |Ids(neg, inSide, x)|
    ensures |r.0.feature| == |Coeff(m, inSide)[x]|
    ensures forall j :: 0 <= j < |Ids(pos, inSide, x)| ==>
      r.0.labels[j] == 1 && r.0.penalty[j] == 1.0 / h.regularizer && r.0.margin[j] == 1.0
    ensures forall j :: |Ids(pos, inSide, x)| <= j < |r.0.feature| ==>
      r.0.labels[j] == -1 && r.0.penalty[j] == h.negPenalty / h.regularizer && r.0.margin[j] == 0.0
  {
    var p, q := Ids(pos, inSide, x), Ids(neg, inSide, x);
    IdsWithin(m, pos, neg, inSide, x);
    var g := Gather(m, inSide, p + q);
    (Solvers.Task(g.0, Const(1, |p|) + Const(-1, |q|),
                  Const(1.0 / h.regularizer, |p|) + Const(h.negPenalty / h.regularizer, |q|),
                  Const(1.0, |p|) + Const(0.0, |q|)),
     g.1)
  }

  /** The features of a side update are the opposite embeddings of the
      neighbours, and with the caches up to date the norms handed along are
      exactly their squared norms. */
  lemma SideTaskFeatures(m: DirectedModel, pos: DGraph, neg: DGraph, h: Hyper, inSide: bool, x: int)
    requires Fits(m, pos, neg) && 0 <= x < |m.inEmb| && h.regularizer != 0.0
    ensures var (t, ns) := SideTask(m, pos, neg, h, inSide, x);
      var ids := Ids(pos, inSide, x) + Ids(neg, inSide, x);
      && (forall j :: 0 <= j < |ids| ==> 0 <= ids[j] < |m.inEmb| && t.feature[j] == Opposite(m, inSide)[ids[j]])
      && (NormsCached(m) ==> forall j :: 0 <= j < |ids| ==> ns[j] == Dot(t.feature[j], t.feature[j]))
  {
    var ids := Ids(pos, inSide, x) + Ids(neg, inSide, x);
    IdsWithin(m, pos, neg, inSide, x);
    if NormsCached(m) {
      GatheredNormsExact(m, inSide, ids);
    }
  }

  /** One side update of x: solve, write back, refresh the norm. Nothing of
      the other side and nothing of another node changes. */
  function Update(m: DirectedModel, pos: DGraph, neg: DGraph, h: Hyper, inSide: bool, x: int,
                  solve: Solvers.NormSolver): (r: DirectedModel)
    requires Fits(m, pos, neg) && 0 <= x < |m.inEmb| && h.regularizer != 0.0
    requires Solvers.KeepsShapeW(solve)
    ensures Fits(r, pos, neg) && r.dim == m.dim
    ensures NormsCached(m) ==> NormsCached(r)
    ensures Opposite(r, inSide) == Opposite(m, inSide) && Coeff(r, !inSide) == Coeff(m, !inSide)
    ensures forall y :: 0 <= y < |m.inEmb| && y != x ==>
      Own(r, inSide)[y] == Own(m, inSide)[y] && Coeff(r, inSide)[y] == Coeff(m, inSide)[y]
    ensures var (t, ns) := SideTask(m, pos, neg, h, inSide, x);
      var sol := solve(t, ns, Coeff(m, inSide)[x], Own(m, inSide)[x]);
      Own(r, inSide)[x] == sol.w && Coeff(r, inSide)[x] == sol.coeff
  {
    var (t, ns) := SideTask(m, pos, neg, h, inSide, x);
    assert |Own(m, inSide)[x]| == m.dim;
    var sol := solve(t, ns, Coeff(m, inSide)[x], Own(m, inSide)[x]);
    WriteBack(m, inSide, x, sol)
  }

  /** The visit of x in an epoch: the in-update, then the out-update, which
      already sees x's new in-embedding. The out-update leaves the in side
      as the in-update wrote it; no other node changes. */
  function Visit(m: DirectedModel, pos: DGraph, neg: DGraph, h: Hyper, x: int,
                 solve: Solvers.NormSolver): (r: DirectedModel)
    requires Fits(m, pos, neg) && 0 <= x < |m.inEmb| && h.regularizer != 0.0
    requires Solvers.KeepsShapeW(solve)
    ensures Fits(r, pos, neg) && r.dim == m.dim
    ensures NormsCached(m) ==> NormsCached(r)
    ensures forall y :: 0 <= y < |m.inEmb| && y != x ==> Keeps(r, m, y)
    ensures var mid := Update(m, pos, neg, h, true, x, solve);
      && r.inEmb == mid.inEmb && r.inCoeff == mid.inCoeff
      && mid.outEmb == m.outEmb && mid.outCoeff == m.outCoeff
  {
    var mid := Update(m, pos, neg, h, true, x, solve);
    Update(mid, pos, neg, h, false, x, solve)
  }

  /** One epoch: the visits of order[0], order[1], ... in turn. A node the
      order does not hold keeps its embeddings and coefficients. */
  function Epoch(m: DirectedModel, pos: DGraph, neg: DGraph, h: Hyper, order: seq<int>,
                 solve: Solvers.NormSolver): (r: DirectedModel)
    requires Fits(m, pos, neg) && h.regularizer != 0.0 && Solvers.KeepsShapeW(solve)
    requires forall k :: 0 <= k < |order| ==> 0 <= order[k] < |m.inEmb|
    ensures Fits(r, pos, neg) && r.dim == m.dim
    ensures forall y :: 0 <= y < |m.inEmb| && y !in order ==> Keeps(r, m, y)
    decreases |order|
  {
    if |order| == 0 then m
    else
      var prev := Epoch(m, pos, neg, h, order[..|order| - 1], solve);
      assert forall y :: y !in order ==> y !in order[..|order| - 1];
      Visit(prev, pos, neg, h, order[|order| - 1], solve)
  }

  /** Epoch k of a run is the epoch over orders[k]. */
  function Epochs(m: DirectedModel, pos: DGraph, neg: DGraph, h: Hyper, orders: seq<seq<int>>,
                  solve: Solvers.NormSolver): (r: DirectedModel)
    requires Fits(m, pos, neg) && h.regularizer != 0.0 && Solvers.KeepsShapeW(solve)
    requires Sampling.OrdersBelow(orders, |m.inEmb|)
    ensures Fits(r, pos, neg) && r.dim == m.dim
    decreases |orders|
  {
    if |orders| == 0 then m
    else Epoch(Epochs(m, pos, neg, h, orders[..|orders| - 1], solve), pos, neg, h, orders[|orders| - 1], solve)
  }

  /** An epoch keeps the squared-norm caches up to date. */
  lemma {:induction false} EpochKeepsNorms(m: DirectedModel, pos: DGraph, neg: DGraph, h: Hyper, order: seq<int>,
                                           solve: Solvers.NormSolver)
    requires Fits(m, pos, neg) && h.regularizer != 0.0 && Solvers.KeepsShapeW(solve)
    requires forall k :: 0 <= k < |order| ==> 0 <= order[k] < |m.inEmb|
    requires NormsCached(m)
    ensures NormsCached(Epoch(m, pos, neg, h, order, solve))
    decreases |order|
  {
    if |order| > 0 {
      EpochKeepsNorms(m, pos, neg, h, order[..|order| - 1], solve);
    }
  }

  /** So do any number of epochs. */
  lemma {:induction false} EpochsKeepNorms(m: DirectedModel, pos: DGraph, neg: DGraph, h: Hyper, orders: seq<seq<int>>,
                                           solve: Solvers.NormSolver)
    requires Fits(m, pos, neg) && h.regularizer != 0.0 && Solvers.KeepsShapeW(solve)
    requires Sampling.OrdersBelow(orders, |m.inEmb|)
    requires NormsCached(m)
    ensures NormsCached(Epochs(m, pos, neg, h, orders, solve))
    decreases |orders|
  {
    if |orders| > 0 {
      var k := |orders| - 1;
      EpochsKeepNorms(m, pos, neg, h, orders[..k], solve);
      EpochKeepsNorms(Epochs(m, pos, neg, h, orders[..k], solve), pos, neg, h, orders[k], solve);
    }
  }

  /** The epoch over order[..t + 1] is the epoch over order[..t] followed
      by the visit of order[t]. */
  lemma EpochStep(m: DirectedModel, pos: DGraph, neg: DGraph, h: Hyper, order: seq<int>, t: int,
                  solve: Solvers.NormSolver)
    requires Fits(m, pos, neg) && h.regularizer != 0.0 && Solvers.KeepsShapeW(solve)
    requires forall k :: 0 <= k < |order| ==> 0 <= order[k] < |m.inEmb|
    requires 0 <= t < |order|
    ensures Epoch(m, pos, neg, h, order[..t + 1], solve)
      == Visit(Epoch(m, pos, neg, h, order[..t], solve), pos, neg, h, order[t], solve)
  {
    assert order[..t + 1][..t] == order[..t];
  }

  /** One more epoch extends the epochs so far. */
  lemma EpochsSnoc(m: DirectedModel, pos: DGraph, neg: DGraph, h: Hyper, orders: seq<seq<int>>,
                   order: seq<int>, solve: Solvers.NormSolver)
    requires Fits(m, pos, neg) && h.regularizer != 0.0 && Solvers.KeepsShapeW(solve)
    requires Sampling.OrdersBelow(orders, |m.inEmb|)
    requires |order| == |m.inEmb| && forall k :: 0 <= k < |order| ==> 0 <= order[k] < |m.inEmb|
    ensures Sampling.OrdersBelow(orders + [order], |m.inEmb|)
    ensures Epochs(m, pos, neg, h, orders + [order], solve)
      == Epoch(Epochs(m, pos, neg, h, orders, solve), pos, neg, h, order, solve)
  {
    Sampling.OrdersBelowSnoc(orders, order, |m.inEmb|);
    var all := orders + [order];
    assert all[..|orders|] == orders && all[|orders|] == order;
  }

  /** One epoch: for each node of the order, the in-update then the
      out-update. */
  method RunEpoch(m: DirectedModel, pos: DGraph, neg: DGraph, h: Hyper, order: seq<int>,
                  solve: Solvers.NormSolver)
    returns (r: DirectedModel)
    requires Fits(m, pos, neg) && h.regularizer != 0.0 && Solvers.KeepsShapeW(solve)
    requires forall k :: 0 <= k < |order| ==> 0 <= order[k] < |m.inEmb|
    ensures r == Epoch(m, pos, neg, h, order, solve)
    ensures Fits(r, pos, neg) && r.dim == m.dim
    ensures NormsCached(m) ==> NormsCached(r)
    ensures forall y :: 0 <= y < |m.inEmb| && y !in order ==> Keeps(r, m, y)
  {
    r := m;
    for t := 0 to |order|
      invariant r == Epoch(m, pos, neg, h, order[..t], solve)
    {
      EpochStep(m, pos, neg, h, order, t, solve);
      r := Update(r, pos, neg, h, true, order[t], solve);
      r := Update(r, pos, neg, h, false, order[t], solve);
    }
    assert order[..|order|] == order;
    if NormsCached(m) {
      EpochKeepsNorms(m, pos, neg, h, order, solve);
    }
  }

  /** The starting model of the constructor: the given random embeddings,
      their cached norms and zero coefficients. */
  function Start(pos: DGraph, neg: DGraph, dim: nat, inInit: seq<Vec>, outInit: seq<Vec>): (m: DirectedModel)
    requires ValidD(pos) && ListsWithinD(neg, pos.size)
    requires |inInit| == pos.size && |outInit| == pos.size && AllDim(inInit, dim) && AllDim(outInit, dim)
    ensures Fits(m, pos, neg) && NormsCached(m) && m.dim == dim
    ensures m.inEmb == inInit && m.outEmb == outInit
    ensures forall x :: 0 <= x < pos.size ==> m.inCoeff[x] == Zeros(|m.inCoeff[x]|) && m.outCoeff[x] == Zeros(|m.outCoeff[x]|)
  {
    var n := pos.size;
    Initial(dim, inInit, outInit,
            seq(n, x requires 0 <= x < n => Zeros(|pos.inEdge[x]| + |neg.inEdge[x]|)),
            seq(n, x requires 0 <= x < n => Zeros(|pos.outEdge[x]| + |neg.outEdge[x]|)))
  }

  /** The constructor: the starting model, EPOCHS epochs over fresh
      permutations, then the combined embeddings. Returns the model, the
      combined embeddings, the epoch orders and the log of visited nodes. */
  method Train(pos: DGraph, neg: DGraph, dim: nat, h: Hyper, inInit: seq<Vec>, outInit: seq<Vec>,
               orderDraws: seq<seq<int>>, solve: Solvers.NormSolver)
    returns (m: DirectedModel, combined: seq<Vec>, orders: seq<seq<int>>, log: seq<int>)
    requires ValidD(pos) && ListsWithinD(neg, pos.size)
    requires |inInit| == pos.size && |outInit| == pos.size && AllDim(inInit, dim) && AllDim(outInit, dim)
    requires h.regularizer != 0.0 && Solvers.KeepsShapeW(solve)
    requires Sampling.OrderDraws(orderDraws, EPOCHS, pos.size)
    ensures orders == Sampling.Orders(pos.size, orderDraws)
    ensures m == Epochs(Start(pos, neg, dim, inInit, outInit), pos, neg, h, orders, solve)
    ensures Fits(m, pos, neg) && NormsCached(m) && m.dim == dim
    ensures |combined| == pos.size
    ensures forall x :: 0 <= x < pos.size ==> combined[x] == Combined(m, x)
    ensures log == Sampling.Concat(orders) && Sampling.VisitedEach(log, pos.size, EPOCHS)
  {
    var start := Start(pos, neg, dim, inInit, outInit);
    m, orders := RunEpochs(start, pos, neg, h, orderDraws, solve);
    EpochsKeepNorms(start, pos, neg, h, orders, solve);
    log := Sampling.Concat(orders);
    Sampling.OrdersVisitEach(pos.size, orderDraws);
    combined := CombinedAll(m);
  }

  /** The EPOCHS epochs of `Train`, each over a fresh shuffle of the
      nodes. */
  method RunEpochs(start: DirectedModel, pos: DGraph, neg: DGraph, h: Hyper, orderDraws: seq<seq<int>>,
                   solve: Solvers.NormSolver)
    returns (m: DirectedModel, orders: seq<seq<int>>)
    requires Fits(start, pos, neg) && h.regularizer != 0.0 && Solvers.KeepsShapeW(solve)
    requires Sampling.OrderDraws(orderDraws, EPOCHS, pos.size)
    ensures orders == Sampling.Orders(pos.size, orderDraws)
    ensures m == Epochs(start, pos, neg, h, orders, solve)
  {
    m := start;
    orders := [];
    Sampling.OrdersStart(pos.size, orderDraws);
    for e := 0 to EPOCHS
      invariant Sampling.OrdersSoFar(pos.size, orderDraws, e, orders)
      invariant m == Epochs(start, pos, neg, h, orders, solve)
    {
      m, orders := NextEpoch(start, pos, neg, h, orderDraws, solve, e, m, orders);
    }
    Sampling.OrdersDone(pos.size, orderDraws, orders);
  }

  /** Epoch `e` of `RunEpochs`: shuffle the previous order and sweep it. */
  method NextEpoch(start: DirectedModel, pos: DGraph, neg: DGraph, h: Hyper, orderDraws: seq<seq<int>>,
                   solve: Solvers.NormSolver, e: nat, m: DirectedModel, orders: seq<seq<int>>)
    returns (m': DirectedModel, orders': seq<seq<int>>)
    requires Fits(start, pos, neg) && h.regularizer != 0.0 && Solvers.KeepsShapeW(solve)
    requires e < |orderDraws| && Sampling.OrdersSoFar(pos.size, orderDraws, e, orders)
    requires m == Epochs(start, pos, neg, h, orders, solve)
    ensures Sampling.OrdersSoFar(pos.size, orderDraws, e + 1, orders')
    ensures m' == Epochs(start, pos, neg, h, orders', solve)
  {
    var order := Sampling.NextOrder(pos.size, orderDraws, e, orders);
    m' := RunEpoch(m, pos, neg, h, order, solve);
    EpochsSnoc(start, pos, neg, h, orders, order, solve);
    orders' := orders + [order];
  }
}

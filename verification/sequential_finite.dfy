/** sequential-finite.cpp: a single pass over the nodes in a random order.
    Node x is fitted only to the neighbours already estimated (positive ones
    with label 1 and penalty 1/regularizer, negative ones with label -1 and
    penalty neg_penalty/regularizer, margin 1 throughout); its coefficients
    are resized to the number of examples, the solver runs EPOCHS times,
    the embedding becomes the weighted sum of the features plus a small
    random perturbation, and x is marked estimated. */
module SequentialFinite {
  import opened Seqs
  import opened Vectors
  import opened Graphs
  import Sampling
  import Solvers

  /** Number of solver calls per update. */
  const EPOCHS: nat := 10

  /** `neg_penalty` and `regularizer`. */
  datatype Hyper = Hyper(negPenalty: real, regularizer: real)

  datatype SequentialEmbedding = SequentialEmbedding(dim: nat, embedding: seq<Vec>, coeff: seq<seq<real>>, estimated: seq<bool>)

  predicate Fits(m: SequentialEmbedding, pos: Graph, neg: Graph)
  {
    var n := |m.embedding|;
    && Valid(pos) && pos.size == n && ListsWithin(neg, n)
    && AllDim(m.embedding, m.dim) && |m.coeff| == n && |m.estimated| == n
  }

  /** The entries of ids whose node is estimated, in list order. */
  function Estimated(ids: seq<int>, est: seq<bool>): (r: seq<int>)
    requires forall k :: 0 <= k < |ids| ==> 0 <= ids[k] < |est|
    ensures |r| <= |ids|
    ensures forall k :: 0 <= k < |r| ==> 0 <= r[k] < |est| && est[r[k]] && r[k] in ids
    ensures forall k :: 0 <= k < |ids| && est[ids[k]] ==> ids[k] in r
  {
    if |ids| == 0 then []
    else
      var last := ids[|ids| - 1];
      Estimated(ids[..|ids| - 1], est) + (if est[last] then [last] else [])
  }

  /** The entries of ids that occur in `before`, in list order. */
  function Among(ids: seq<int>, before: seq<int>): (r: seq<int>)
    ensures forall k :: 0 <= k < |r| ==> r[k] in ids && r[k] in before
    ensures forall k :: 0 <= k < |ids| && ids[k] in before ==> ids[k] in r
  {
    if |ids| == 0 then []
    else
      var last := ids[|ids| - 1];
      assert forall v :: v in ids ==> v in ids[..|ids| - 1] || v == last;
      Among(ids[..|ids| - 1], before) + (if last in before then [last] else [])
  }

  /** With the estimated nodes exactly those of `before`, the estimated
      entries of a list are its entries placed before. */
  lemma {:induction false} EstimatedIsAmong(ids: seq<int>, est: seq<bool>, before: seq<int>)
    requires forall k :: 0 <= k < |ids| ==> 0 <= ids[k] < |est|
    requires forall v :: 0 <= v < |est| ==> (est[v] <==> v in before)
    ensures Estimated(ids, est) == Among(ids, before)
  {
    if |ids| > 0 {
      EstimatedIsAmong(ids[..|ids| - 1], est, before);
    }
  }

  /** The example nodes of the k-th update along order, read off the order
      alone: the positive neighbours of order[k] placed before it, then its
      negative neighbours placed before it, each in list order. */
  function PlacedSources(pos: Graph, neg: Graph, order: seq<int>, k: int): (ids: seq<int>)
    requires Valid(pos) && ListsWithin(neg, pos.size)
    requires 0 <= k < |order| && 0 <= order[k] < pos.size
    ensures forall j :: 0 <= j < |ids| ==> ids[j] in order[..k]
  {
    Among(pos.edge[order[k]], order[..k]) + Among(neg.edge[order[k]], order[..k])
  }

  /** The example nodes of x: its estimated positive neighbours, then its
      estimated negative neighbours. */
  function Sources(m: SequentialEmbedding, pos: Graph, neg: Graph, x: int): (ids: seq<int>)
    requires Fits(m, pos, neg) && 0 <= x < |m.embedding|
    ensures forall k :: 0 <= k < |ids| ==> 0 <= ids[k] < |m.embedding| && m.estimated[ids[k]]
  {
    Estimated(pos.edge[x], m.estimated) + Estimated(neg.edge[x], m.estimated)
  }

  /** The solver arguments of `UpdateEmbedding(positive, negative, x)`. */
  function SolverTask(m: SequentialEmbedding, pos: Graph, neg: Graph, h: Hyper, x: int): (t: Solvers.Task)
    requires Fits(m, pos, neg) && 0 <= x < |m.embedding| && h.regularizer != 0.0
    ensures Solvers.TaskShape(t) && |t.feature| == |Sources(m, pos, neg, x)| && AllDim(t.feature, m.dim)
    ensures forall j :: 0 <= j < |t.feature| ==>
      t.feature[j] == m.embedding[Sources(m, pos, neg, x)[j]] && t.margin[j] == 1.0
  {
    var p := Estimated(pos.edge[x], m.estimated);
    var q := Estimated(neg.edge[x], m.estimated);
    Solvers.Task(Pick(m.embedding, p + q), Const(1, |p|) + Const(-1, |q|),
                 Const(1.0 / h.regularizer, |p|) + Const(h.negPenalty / h.regularizer, |q|),
                 Const(1.0, |p| + |q|))
  }

  /** k solver calls in a row, each warm-started from the previous result. */
  function Repeat(solve: Solvers.CoeffSolver, t: Solvers.Task, c: seq<real>, k: nat): (r: seq<real>)
    requires Solvers.KeepsShape(solve) && Solvers.TaskShape(t) && |c| == |t.feature|
    ensures |r| == |c|
  {
    if k == 0 then c else solve(t, Repeat(solve, t, c, k - 1))
  }

  /** `UpdateEmbedding(positive, negative, x)`, with the perturbation drawn
      for x as an input. Only x changes, and x becomes estimated. */
  function Update(m: SequentialEmbedding, pos: Graph, neg: Graph, h: Hyper, x: int, noise: Vec,
                  solve: Solvers.CoeffSolver): (r: SequentialEmbedding)
    requires Fits(m, pos, neg) && 0 <= x < |m.embedding| && h.regularizer != 0.0
    requires Solvers.KeepsShape(solve) && |noise| == m.dim
    ensures Fits(r, pos, neg) && r.dim == m.dim
    ensures r.estimated == m.estimated[x := true]
    ensures forall y :: 0 <= y < |m.embedding| && y != x ==>
      r.embedding[y] == m.embedding[y] && r.coeff[y] == m.coeff[y]
    ensures var t := SolverTask(m, pos, neg, h, x);
      && r.coeff[x] == Repeat(solve, t, Resize(m.coeff[x], |t.feature|), EPOCHS)
      && forall k :: 0 <= k < m.dim ==> r.embedding[x][k] == Combine(r.coeff[x], t.feature, m.dim)[k] + noise[k]
  {
    var t := SolverTask(m, pos, neg, h, x);
    var c := Repeat(solve, t, Resize(m.coeff[x], |t.feature|), EPOCHS);
    var e := Combine(c, t.feature, m.dim);
    SequentialEmbedding(m.dim, m.embedding[x := seq(m.dim, k requires 0 <= k < m.dim => e[k] + noise[k])],
                        m.coeff[x := c], m.estimated[x := true])
  }

  /** After the first t updates along order: exactly the nodes order[..t]
      are estimated, and the k-th update saw only nodes placed before
      order[k], one coefficient per source. */
  predicate Progress(m: SequentialEmbedding, pos: Graph, neg: Graph, order: seq<int>, sources: seq<seq<int>>, t: nat)
  {
    && Fits(m, pos, neg) && t <= |order| && |sources| == t
    && (forall v :: 0 <= v < |m.estimated| ==> (m.estimated[v] <==> v in order[..t]))
    && (forall k, j :: 0 <= k < t && 0 <= j < |sources[k]| ==> sources[k][j] in order[..k])
    && (forall k :: 0 <= k < t ==> 0 <= order[k] < |m.coeff| && |m.coeff[order[k]]| == |sources[k]|)
  }

  /** The first t source lists are those the order alone determines. */
  predicate Placed(pos: Graph, neg: Graph, order: seq<int>, sources: seq<seq<int>>, t: nat)
    requires Valid(pos) && ListsWithin(neg, pos.size)
    requires forall k :: 0 <= k < |order| ==> 0 <= order[k] < pos.size
  {
    t <= |order| && |sources| == t && forall k :: 0 <= k < t ==> sources[k] == PlacedSources(pos, neg, order, k)
  }

  /** The t-th update of the constructor's loop. */
  method Advance(m: SequentialEmbedding, pos: Graph, neg: Graph, h: Hyper, order: seq<int>,
                 sources: seq<seq<int>>, t: nat, noise: seq<Vec>, solve: Solvers.CoeffSolver)
    returns (m': SequentialEmbedding, sources': seq<seq<int>>)
    requires Progress(m, pos, neg, order, sources, t) && t < |order|
    requires IsOrderOf(order, |m.embedding|)
    requires forall k :: 0 <= k < |order| ==> 0 <= order[k] < |m.embedding|
    requires h.regularizer != 0.0 && Solvers.KeepsShape(solve)
    requires |noise| == |m.embedding| && AllDim(noise, m.dim)
    ensures m' == Update(m, pos, neg, h, order[t], noise[order[t]], solve)
    ensures Progress(m', pos, neg, order, sources', t + 1) && m'.dim == m.dim
    ensures sources' == sources + [Sources(m, pos, neg, order[t])]
  {
    var x := order[t];
    var ids := Sources(m, pos, neg, x);
    forall k | 0 <= k < t
      ensures order[k] != x
    {
      OrderDistinct(order, |m.embedding|, k, t);
    }
    m' := Update(m, pos, neg, h, x, noise[x], solve);
    sources' := sources + [ids];
    ProgressStep(m, m', pos, neg, order, sources, t, ids);
  }

  /** Before the t-th update the estimated neighbours of order[t] are those
      placed before it, so its sources are the ones the order alone
      determines. */
  lemma PlacedStep(m: SequentialEmbedding, pos: Graph, neg: Graph, order: seq<int>, sources: seq<seq<int>>, t: nat)
    requires Progress(m, pos, neg, order, sources, t) && t < |order|
    requires forall k :: 0 <= k < |order| ==> 0 <= order[k] < |m.embedding|
    requires Placed(pos, neg, order, sources, t)
    ensures Sources(m, pos, neg, order[t]) == PlacedSources(pos, neg, order, t)
    ensures Placed(pos, neg, order, sources + [Sources(m, pos, neg, order[t])], t + 1)
  {
    var x := order[t];
    EstimatedIsAmong(pos.edge[x], m.estimated, order[..t]);
    EstimatedIsAmong(neg.edge[x], m.estimated, order[..t]);
  }

  /** One update at order[t], which no earlier step placed, marks it
      estimated, changes only its coefficients, and gives it one
      coefficient per source, all of them estimated before: progress moves
      from t to t + 1. */
  lemma ProgressStep(m: SequentialEmbedding, m': SequentialEmbedding, pos: Graph, neg: Graph,
                     order: seq<int>, sources: seq<seq<int>>, t: nat, ids: seq<int>)
    requires Progress(m, pos, neg, order, sources, t) && t < |order|
    requires forall k :: 0 <= k < t ==> order[k] != order[t]
    requires 0 <= order[t] < |m.coeff|
    requires Fits(m', pos, neg) && m'.estimated == m.estimated[order[t] := true]
    requires forall y :: 0 <= y < |m.coeff| && y != order[t] ==> m'.coeff[y] == m.coeff[y]
    requires |m'.coeff[order[t]]| == |ids|
    requires forall j :: 0 <= j < |ids| ==> 0 <= ids[j] < |m.estimated| && m.estimated[ids[j]]
    ensures Progress(m', pos, neg, order, sources + [ids], t + 1)
  {
    assert order[..t + 1] == order[..t] + [order[t]];
  }

  /** The updates of order[0], order[1], ... in turn, each with the
      perturbation drawn for its node. */
  function Sweep(m: SequentialEmbedding, pos: Graph, neg: Graph, h: Hyper, order: seq<int>, noise: seq<Vec>,
                 solve: Solvers.CoeffSolver): (r: SequentialEmbedding)
    requires Fits(m, pos, neg) && h.regularizer != 0.0 && Solvers.KeepsShape(solve)
    requires |noise| == |m.embedding| && AllDim(noise, m.dim)
    requires forall k :: 0 <= k < |order| ==> 0 <= order[k] < |m.embedding|
    ensures Fits(r, pos, neg) && r.dim == m.dim
    decreases |order|
  {
    if |order| == 0 then m
    else
      var x := order[|order| - 1];
      Update(Sweep(m, pos, neg, h, order[..|order| - 1], noise, solve), pos, neg, h, x, noise[x], solve)
  }

  /** The sweep over order[..t + 1] is the sweep over order[..t] followed by
      the update of order[t]. */
  lemma SweepStep(m: SequentialEmbedding, pos: Graph, neg: Graph, h: Hyper, order: seq<int>, noise: seq<Vec>,
                  solve: Solvers.CoeffSolver, t: int)
    requires Fits(m, pos, neg) && h.regularizer != 0.0 && Solvers.KeepsShape(solve)
    requires |noise| == |m.embedding| && AllDim(noise, m.dim)
    requires forall k :: 0 <= k < |order| ==> 0 <= order[k] < |m.embedding|
    requires 0 <= t < |order|
    ensures Sweep(m, pos, neg, h, order[..t + 1], noise, solve)
      == Update(Sweep(m, pos, neg, h, order[..t], noise, solve), pos, neg, h, order[t], noise[order[t]], solve)
  {
    assert order[..t + 1][..t] == order[..t];
  }

  /** The starting model: zero embeddings, no coefficients, nobody
      estimated. */
  function Start(n: nat, dim: nat): (m: SequentialEmbedding)
    ensures |m.embedding| == n && m.dim == dim && AllDim(m.embedding, dim) && |m.coeff| == n && |m.estimated| == n
    ensures forall v :: 0 <= v < n ==> !m.estimated[v]
  {
    SequentialEmbedding(dim, seq(n, _ => Zeros(dim)), seq(n, _ => []), seq(n, _ => false))
  }

  /** The update loop of the constructor along a visiting order. */
  method RunOrder(start: SequentialEmbedding, pos: Graph, neg: Graph, h: Hyper, order: seq<int>, noise: seq<Vec>,
                  solve: Solvers.CoeffSolver)
    returns (m: SequentialEmbedding, sources: seq<seq<int>>)
    requires Progress(start, pos, neg, order, [], 0) && IsOrderOf(order, |start.embedding|)
    requires forall k :: 0 <= k < |order| ==> 0 <= order[k] < |start.embedding|
    requires h.regularizer != 0.0 && Solvers.KeepsShape(solve)
    requires |noise| == |start.embedding| && AllDim(noise, start.dim)
    ensures m == Sweep(start, pos, neg, h, order, noise, solve)
    ensures Progress(m, pos, neg, order, sources, |order|) && Placed(pos, neg, order, sources, |order|)
  {
    m, sources := start, [];
    for t := 0 to |order|
      invariant m == Sweep(start, pos, neg, h, order[..t], noise, solve)
      invariant Progress(m, pos, neg, order, sources, t) && Placed(pos, neg, order, sources, t)
    {
      SweepStep(start, pos, neg, h, order, noise, solve, t);
      PlacedStep(m, pos, neg, order, sources, t);
      m, sources := Advance(m, pos, neg, h, order, sources, t, noise, solve);
    }
    assert order[..|order|] == order;
  }

  /** Once the whole order is placed, every node is estimated. */
  lemma AllEstimated(m: SequentialEmbedding, pos: Graph, neg: Graph, order: seq<int>, sources: seq<seq<int>>)
    requires Progress(m, pos, neg, order, sources, |order|) && IsOrderOf(order, |m.embedding|)
    ensures forall v :: 0 <= v < |m.embedding| ==> m.estimated[v]
  {
    var n := |m.embedding|;
    forall v | 0 <= v < n
      ensures m.estimated[v]
    {
      RangeCounts(n);
      assert v in multiset(order);
      assert order[..|order|] == order;
    }
  }

  /** The constructor: zero embeddings, no coefficients, nobody estimated;
      one random order; one update per node. Each node is fitted only to
      nodes placed before it in the order, and in the end every node is
      estimated. `sources[k]` lists the example nodes of the k-th update. */
  method Train(pos: Graph, neg: Graph, dim: nat, h: Hyper, orderDraws: seq<int>, noise: seq<Vec>,
               solve: Solvers.CoeffSolver)
    returns (m: SequentialEmbedding, order: seq<int>, sources: seq<seq<int>>)
    requires Valid(pos) && ListsWithin(neg, pos.size) && h.regularizer != 0.0 && Solvers.KeepsShape(solve)
    requires Sampling.PermutationDraws(orderDraws, pos.size)
    requires |noise| == pos.size && AllDim(noise, dim)
    ensures IsOrderOf(order, pos.size) && order == Sampling.Shuffle(Range(pos.size), orderDraws, pos.size)
    ensures |sources| == |order| == pos.size
    ensures forall k :: 0 <= k < |order| ==> 0 <= order[k] < pos.size
    ensures m == Sweep(Start(pos.size, dim), pos, neg, h, order, noise, solve)
    ensures Fits(m, pos, neg) && m.dim == dim
    ensures forall v :: 0 <= v < pos.size ==> m.estimated[v]
    ensures forall k :: 0 <= k < |order| ==> |m.coeff[order[k]]| == |sources[k]|
    ensures forall k :: 0 <= k < |order| ==> sources[k] == PlacedSources(pos, neg, order, k)
  {
    var n := pos.size;
    var start := Start(n, dim);
    order := Sampling.PermuteOrder(Range(n), n, orderDraws);
    OrderElementsInRange(order, n);
    m, sources := RunOrder(start, pos, neg, h, order, noise, solve);
    AllEstimated(m, pos, neg, order, sources);
  }

  /** `Evaluate(x, y)`: the inner product of the two embeddings, symmetric
      by `Vectors.DotSymmetric`. */
  function Evaluate(m: SequentialEmbedding, x: int, y: int): real
    requires 0 <= x < |m.embedding| && 0 <= y < |m.embedding| && AllDim(m.embedding, m.dim)
  {
    Dot(m.embedding[x], m.embedding[y])
  }
}

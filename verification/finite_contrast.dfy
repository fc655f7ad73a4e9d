/** finite_contrast.cpp: the finite embedding trained on contrast pairs.
    Each node x solves an SVM over the entries of its table row: the
    feature is the embedding of the entry's neighbour b, the label its sign,
    the margin 1 + sign * <embedding[c], embedding[d]>, and every example
    gets the penalty pow(max(|row|, 1), deg_norm_pow) / regularizer. The
    new embedding of x is the coefficient-weighted sum of the features. */
module FiniteContrast {
  import opened Seqs
  import opened Vectors
  import opened Graphs
  import opened Contrast
  import Sampling
  import Solvers

  const EPOCHS: nat := 10

  datatype ContrastEmbedding = ContrastEmbedding(dim: nat, embedding: seq<Vec>, coeff: seq<seq<real>>)

  /** The constructor's arguments besides graphs, ratio and dimension;
      `pow` is the library power function, not part of this model. */
  datatype Hyper = Hyper(pow: (real, real) -> real, degNormPow: real, regularizer: real)

  /** What the constructor reads of the graphs: the positive edges of the
      graph and the negative edges of the first `graph.size` lists. */
  function SettingOf(pos: Graph, neg: Graph): (s: Setting)
    requires Valid(pos) && ListsWithin(neg, pos.size)
    ensures SettingOk(s) && s.n == pos.size && !s.directed
  {
    EdgeListWithin(pos.edge, pos.size);
    EdgeListWithin(neg.edge[..pos.size], pos.size);
    Setting(pos.size, EdgeList(pos.edge), EdgeList(neg.edge[..pos.size]), false)
  }

  /** The model fits the table: one embedding of length dim per node, one
      coefficient per entry of the node's row, and every entry sound. */
  predicate Fits(m: ContrastEmbedding, s: Setting, table: Rows)
  {
    var n := |m.embedding|;
    && s.n == n && |table| == n && RowsOk(s, false, table)
    && AllDim(m.embedding, m.dim) && |m.coeff| == n
    && forall x :: 0 <= x < n ==> |m.coeff[x]| == |table[x]|
  }

  /** `Evaluate(x, y)`: the inner product of the two embeddings, symmetric
      by `Vectors.DotSymmetric`. */
  function Evaluate(m: ContrastEmbedding, x: int, y: int): real
    requires 0 <= x < |m.embedding| && 0 <= y < |m.embedding| && AllDim(m.embedding, m.dim)
  {
    Dot(m.embedding[x], m.embedding[y])
  }

  /** The penalty of every example of a row of the given size. */
  function Penalty(h: Hyper, size: nat): real
    requires h.regularizer != 0.0
  {
    h.pow((if size > 1 then size else 1) as real, h.degNormPow) / h.regularizer
  }

  /** The solver arguments `UpdateEmbedding(table, x)` builds, one example
      per entry of row x, in row order. */
  function ContrastTask(m: ContrastEmbedding, s: Setting, table: Rows, x: int, penalty: real): (t: Solvers.Task)
    requires Fits(m, s, table) && 0 <= x < |m.embedding|
    ensures Solvers.TaskShape(t) && |t.feature| == |table[x]| && AllDim(t.feature, m.dim)
    ensures forall j :: 0 <= j < |table[x]| ==>
      t.feature[j] == m.embedding[table[x][j].b] && t.labels[j] == table[x][j].sign && t.penalty[j] == penalty
  {
    var row := table[x];
    Solvers.Task(
      seq(|row|, j requires 0 <= j < |row| => m.embedding[row[j].b]),
      seq(|row|, j requires 0 <= j < |row| => row[j].sign),
      Const(penalty, |row|),
      seq(|row|, j requires 0 <= j < |row| =>
        1.0 + (row[j].sign as real) * Dot(m.embedding[row[j].c], m.embedding[row[j].d])))
  }

  /** The margin of each example contrasts the score of an edge of the
      other kind: 1 + score of a sampled negative edge for a +1 example, 1 -
      score of a positive edge for a -1 example. */
  lemma MarginsContrastEdges(m: ContrastEmbedding, s: Setting, table: Rows, x: int, penalty: real, j: int)
    requires Fits(m, s, table) && 0 <= x < |m.embedding| && 0 <= j < |table[x]|
    ensures var t := ContrastTask(m, s, table, x, penalty);
      var e := table[x][j];
      && (t.labels[j] == 1 ==> (e.c, e.d) in s.negative && t.margin[j] == 1.0 + Evaluate(m, e.c, e.d))
      && (t.labels[j] == -1 ==> (e.c, e.d) in s.positive && t.margin[j] == 1.0 - Evaluate(m, e.c, e.d))
      && (t.labels[j] == 1 || t.labels[j] == -1)
  {
    assert EntryOk(s, false, x, table[x][j]);
  }

  /** `UpdateEmbedding(table, x)`: the solver rewrites the coefficients of x,
      then embedding[x] becomes the weighted sum of the features. Nothing
      else changes. */
  function UpdateEmbedding(m: ContrastEmbedding, s: Setting, table: Rows, h: Hyper, x: int,
                           solve: Solvers.CoeffSolver): (r: ContrastEmbedding)
    requires Fits(m, s, table) && 0 <= x < |m.embedding| && h.regularizer != 0.0
    requires Solvers.KeepsShape(solve)
    ensures Fits(r, s, table) && r.dim == m.dim
    ensures forall y :: 0 <= y < |m.embedding| && y != x ==>
      r.embedding[y] == m.embedding[y] && r.coeff[y] == m.coeff[y]
    ensures var t := ContrastTask(m, s, table, x, Penalty(h, |table[x]|));
      r.coeff[x] == solve(t, m.coeff[x]) && r.embedding[x] == Combine(r.coeff[x], t.feature, m.dim)
  {
    var t := ContrastTask(m, s, table, x, Penalty(h, |table[x]|));
    var c := solve(t, m.coeff[x]);
    ContrastEmbedding(m.dim, m.embedding[x := Combine(c, t.feature, m.dim)], m.coeff[x := c])
  }

  /** A node with an empty row gets the zero embedding and keeps its (empty)
      coefficients. */
  lemma EmptyRowZeroes(m: ContrastEmbedding, s: Setting, table: Rows, h: Hyper, x: int, solve: Solvers.CoeffSolver)
    requires Fits(m, s, table) && 0 <= x < |m.embedding| && h.regularizer != 0.0
    requires Solvers.KeepsShape(solve) && |table[x]| == 0
    ensures UpdateEmbedding(m, s, table, h, x, solve) == m.(embedding := m.embedding[x := Zeros(m.dim)])
  {
    var r := UpdateEmbedding(m, s, table, h, x, solve);
    assert r.coeff == m.coeff;
    assert r.embedding[x] == Zeros(m.dim);
  }

  /** The initial model: the given embeddings and, for every node, one zero
      coefficient per entry of its row. */
  function Initial(s: Setting, table: Rows, dim: nat, init: seq<Vec>): (m: ContrastEmbedding)
    requires |init| == s.n && |table| == s.n && RowsOk(s, false, table) && AllDim(init, dim)
    ensures Fits(m, s, table) && m.embedding == init && m.dim == dim
    ensures forall x :: 0 <= x < s.n ==> |m.coeff[x]| == |table[x]|
  {
    ContrastEmbedding(dim, init, seq(s.n, x requires 0 <= x < s.n => Zeros(|table[x]|)))
  }

  /** The sizing the constructor writes: |edge[x]| + |negative.edge[x]|
      coefficients for node x, whatever the size of its table row. */
  function AsWrittenCoefficients(pos: Graph, neg: Graph): (cs: seq<seq<real>>)
    requires Valid(pos) && ListsWithin(neg, pos.size)
    ensures |cs| == pos.size
    ensures forall x :: 0 <= x < pos.size ==> |cs[x]| == |pos.edge[x]| + |neg.edge[x]|
  {
    seq(pos.size, x requires 0 <= x < pos.size => Zeros(|pos.edge[x]| + |neg.edge[x]|))
  }

  /** One epoch: the updates of order[0], order[1], ... in turn. A node the
      order does not hold keeps its embedding and coefficients. */
  function Epoch(m: ContrastEmbedding, s: Setting, table: Rows, h: Hyper, order: seq<int>,
                 solve: Solvers.CoeffSolver): (r: ContrastEmbedding)
    requires Fits(m, s, table) && h.regularizer != 0.0 && Solvers.KeepsShape(solve)
    requires forall k :: 0 <= k < |order| ==> 0 <= order[k] < |m.embedding|
    ensures Fits(r, s, table) && r.dim == m.dim
    ensures forall y :: 0 <= y < |m.embedding| && y !in order ==>
      r.embedding[y] == m.embedding[y] && r.coeff[y] == m.coeff[y]
    decreases |order|
  {
    if |order| == 0 then m
    else
      var prev := Epoch(m, s, table, h, order[..|order| - 1], solve);
      assert forall y :: y !in order ==> y !in order[..|order| - 1];
      UpdateEmbedding(prev, s, table, h, order[|order| - 1], solve)
  }

  /** Epoch k of a run is the epoch over orders[k]. */
  function Epochs(m: ContrastEmbedding, s: Setting, table: Rows, h: Hyper, orders: seq<seq<int>>,
                  solve: Solvers.CoeffSolver): (r: ContrastEmbedding)
    requires Fits(m, s, table) && h.regularizer != 0.0 && Solvers.KeepsShape(solve)
    requires Sampling.OrdersBelow(orders, |m.embedding|)
    ensures Fits(r, s, table) && r.dim == m.dim
    decreases |orders|
  {
    if |orders| == 0 then m
    else Epoch(Epochs(m, s, table, h, orders[..|orders| - 1], solve), s, table, h, orders[|orders| - 1], solve)
  }

  /** The epoch over order[..t + 1] is the epoch over order[..t] followed
      by the update of order[t]. */
  lemma EpochStep(m: ContrastEmbedding, s: Setting, table: Rows, h: Hyper, order: seq<int>, t: int,
                  solve: Solvers.CoeffSolver)
    requires Fits(m, s, table) && h.regularizer != 0.0 && Solvers.KeepsShape(solve)
    requires forall k :: 0 <= k < |order| ==> 0 <= order[k] < |m.embedding|
    requires 0 <= t < |order|
    ensures Epoch(m, s, table, h, order[..t + 1], solve)
      == UpdateEmbedding(Epoch(m, s, table, h, order[..t], solve), s, table, h, order[t], solve)
  {
    assert order[..t + 1][..t] == order[..t];
  }

  /** One more epoch extends the epochs so far. */
  lemma EpochsSnoc(m: ContrastEmbedding, s: Setting, table: Rows, h: Hyper, orders: seq<seq<int>>,
                   order: seq<int>, solve: Solvers.CoeffSolver)
    requires Fits(m, s, table) && h.regularizer != 0.0 && Solvers.KeepsShape(solve)
    requires Sampling.OrdersBelow(orders, |m.embedding|)
    requires |order| == |m.embedding| && forall k :: 0 <= k < |order| ==> 0 <= order[k] < |m.embedding|
    ensures Sampling.OrdersBelow(orders + [order], |m.embedding|)
    ensures Epochs(m, s, table, h, orders + [order], solve)
      == Epoch(Epochs(m, s, table, h, orders, solve), s, table, h, order, solve)
  {
    Sampling.OrdersBelowSnoc(orders, order, |m.embedding|);
    var all := orders + [order];
    assert all[..|orders|] == orders && all[|orders|] == order;
  }

  /** One epoch: update the nodes in the given order. */
  method RunEpoch(m: ContrastEmbedding, s: Setting, table: Rows, h: Hyper, order: seq<int>,
                  solve: Solvers.CoeffSolver)
    returns (r: ContrastEmbedding)
    requires Fits(m, s, table) && h.regularizer != 0.0 && Solvers.KeepsShape(solve)
    requires forall k :: 0 <= k < |order| ==> 0 <= order[k] < |m.embedding|
    ensures r == Epoch(m, s, table, h, order, solve)
    ensures Fits(r, s, table) && r.dim == m.dim
    ensures forall y :: 0 <= y < |m.embedding| && y !in order ==>
      r.embedding[y] == m.embedding[y] && r.coeff[y] == m.coeff[y]
  {
    r := m;
    for t := 0 to |order|
      invariant r == Epoch(m, s, table, h, order[..t], solve)
    {
      EpochStep(m, s, table, h, order, t, solve);
      r := UpdateEmbedding(r, s, table, h, order[t], solve);
    }
    assert order[..|order|] == order;
  }

  /** The ten epochs of the constructor, each over the next shuffle of the
      node order. */
  method RunEpochs(start: ContrastEmbedding, s: Setting, table: Rows, h: Hyper, orderDraws: seq<seq<int>>,
                   solve: Solvers.CoeffSolver)
    returns (m: ContrastEmbedding, orders: seq<seq<int>>)
    requires Fits(start, s, table) && h.regularizer != 0.0 && Solvers.KeepsShape(solve)
    requires Sampling.OrderDraws(orderDraws, EPOCHS, s.n)
    ensures orders == Sampling.Orders(s.n, orderDraws)
    ensures m == Epochs(start, s, table, h, orders, solve)
  {
    m := start;
    orders := [];
    Sampling.OrdersStart(s.n, orderDraws);
    for e := 0 to EPOCHS
      invariant Sampling.OrdersSoFar(s.n, orderDraws, e, orders)
      invariant m == Epochs(start, s, table, h, orders, solve)
    {
      m, orders := NextEpoch(start, s, table, h, orderDraws, solve, e, m, orders);
    }
    Sampling.OrdersDone(s.n, orderDraws, orders);
  }

  /** Epoch `e` of `RunEpochs`: shuffle the previous order and sweep it. */
  method NextEpoch(start: ContrastEmbedding, s: Setting, table: Rows, h: Hyper, orderDraws: seq<seq<int>>,
                   solve: Solvers.CoeffSolver, e: nat,
                   m: ContrastEmbedding, orders: seq<seq<int>>)
    returns (m': ContrastEmbedding, orders': seq<seq<int>>)
    requires Fits(start, s, table) && h.regularizer != 0.0 && Solvers.KeepsShape(solve)
    requires e < |orderDraws| && Sampling.OrdersSoFar(s.n, orderDraws, e, orders)
    requires m == Epochs(start, s, table, h, orders, solve)
    ensures Sampling.OrdersSoFar(s.n, orderDraws, e + 1, orders')
    ensures m' == Epochs(start, s, table, h, orders', solve)
  {
    var order := Sampling.NextOrder(s.n, orderDraws, e, orders);
    m' := RunEpoch(m, s, table, h, order, solve);
    EpochsSnoc(start, s, table, h, orders, order, solve);
    orders' := orders + [order];
  }

  /** The constructor, with coefficient rows sized to the table rows: build
      the table (None if the table draws run out), then EPOCHS epochs over
      fresh permutations. Returns the model, its table, the epoch orders and
      the log of visited nodes. */
  method Train(pos: Graph, neg: Graph, ratio: int, dim: nat, h: Hyper, init: seq<Vec>,
               tableDraws: seq<int>, orderDraws: seq<seq<int>>, solve: Solvers.CoeffSolver)
    returns (r: Option<ContrastEmbedding>, table: Rows, orders: seq<seq<int>>, log: seq<int>)
    requires Valid(pos) && ListsWithin(neg, pos.size) && |init| == pos.size && AllDim(init, dim)
    requires h.regularizer != 0.0 && Solvers.KeepsShape(solve)
    requires DrawsWithin(tableDraws, |SettingOf(pos, neg).negative|)
    requires Sampling.OrderDraws(orderDraws, EPOCHS, pos.size)
    ensures r.None? <==> Tabulate(SettingOf(pos, neg), ratio, tableDraws).None?
    ensures r.Some? ==>
      && table == Tabulate(SettingOf(pos, neg), ratio, tableDraws).value.out
      && Fits(r.value, SettingOf(pos, neg), table) && r.value.dim == dim
      && TotalLength(table) == 4 * ratio * TotalLength(pos.edge)
      && orders == Sampling.Orders(pos.size, orderDraws)
      && r.value == Epochs(Initial(SettingOf(pos, neg), table, dim, init), SettingOf(pos, neg), table, h, orders, solve)
      && log == Sampling.Concat(orders) && Sampling.VisitedEach(log, pos.size, EPOCHS)
  {
    var s := SettingOf(pos, neg);
    var tables := Tabulate(s, ratio, tableDraws);
    table, orders, log := [], [], [];
    if tables.None? {
      return None, table, orders, log;
    }
    TabulateOk(s, ratio, tableDraws);
    TabulateSizes(s, ratio, tableDraws);
    table := tables.value.out;
    var start := Initial(s, table, dim, init);
    var m;
    m, orders := RunEpochs(start, s, table, h, orderDraws, solve);
    log := Sampling.Concat(orders);
    Sampling.OrdersVisitEach(pos.size, orderDraws);
    r := Some(m);
  }

  // ---------------------------------------------------------------------
  // The coefficient sizing as written

  /** Rows of equal lengths have equal total length. */
  lemma {:induction false} SameTotals<S, T>(xs: seq<seq<S>>, ys: seq<seq<T>>)
    requires |xs| == |ys| && forall x :: 0 <= x < |xs| ==> |xs[x]| == |ys[x]|
    ensures TotalLength(xs) == TotalLength(ys)
  {
    if |xs| > 0 {
      SameTotals(xs[..|xs| - 1], ys[..|ys| - 1]);
    }
  }

  /** The as-written sizing holds one coefficient per adjacency entry. */
  lemma {:induction false} AsWrittenTotal(pos: Graph, neg: Graph)
    requires Valid(pos) && ListsWithin(neg, pos.size)
    ensures TotalLength(AsWrittenCoefficients(pos, neg)) == TotalLength(pos.edge) + TotalLength(neg.edge[..pos.size])
  {
    var cs := AsWrittenCoefficients(pos, neg);
    SumOfRows(cs, pos.edge, neg.edge[..pos.size]);
  }

  lemma {:induction false} SumOfRows(cs: seq<seq<real>>, xs: seq<seq<int>>, ys: seq<seq<int>>)
    requires |cs| == |xs| == |ys| && forall x :: 0 <= x < |cs| ==> |cs[x]| == |xs[x]| + |ys[x]|
    ensures TotalLength(cs) == TotalLength(xs) + TotalLength(ys)
  {
    if |cs| > 0 {
      var k := |cs| - 1;
      SumOfRows(cs[..k], xs[..k], ys[..k]);
    }
  }

  /** The single edge 0-1 with the negative edge 2-3 and a ratio of 1: the
      two directions of 0-1 give 8 table entries, while the constructor
      allocates |edge[x]| + |negative.edge[x]| coefficients, 4 in total, so
      some node is handed fewer coefficients than it has examples. */
  lemma AsWrittenSizingMismatch()
    ensures var pos := Graph(4, [[1], [0], [], []]);
      var neg := Graph(4, [[], [], [3], [2]]);
      var r := Tabulate(SettingOf(pos, neg), 1, [0, 0]);
      && r.Some?
      && exists x :: 0 <= x < 4 && |r.value.out[x]| != |AsWrittenCoefficients(pos, neg)[x]|
  {
    var pos := Graph(4, [[1], [0], [], []]);
    var neg := Graph(4, [[], [], [3], [2]]);
    assert Valid(pos) && ListsWithin(neg, 4);
    var s := SettingOf(pos, neg);
    assert neg.edge[..4] == neg.edge;
    NegativeListExample();
    PositiveListExample();
    var draws := [0, 0];
    BuildFinishes(s, NewTables(4), s.positive, 1, draws);
    TabulateSizes(s, 1, draws);
    var t := Tabulate(s, 1, draws).value;
    var cs := AsWrittenCoefficients(pos, neg);
    AsWrittenTotal(pos, neg);
    if forall x :: 0 <= x < 4 ==> |t.out[x]| == |cs[x]| {
      SameTotals(t.out, cs);
      assert false;
    }
  }

  lemma NegativeListExample()
    ensures EdgeList([[], [], [3], [2]]) == [(2, 3), (3, 2)]
  {
    var l: seq<seq<int>> := [[], [], [3], [2]];
    assert l[..3] == [[], [], [3]] && l[..3][..2] == [[], []];
    assert EdgeList([[], []]) == [] by {
      var l2: seq<seq<int>> := [[], []];
      assert l2[..1] == [[]] && l2[..1][..0] == [];
    }
    assert EdgeList([[], [], [3]]) == [(2, 3)];
  }

  lemma PositiveListExample()
    ensures EdgeList([[1], [0], [], []]) == [(0, 1), (1, 0)]
  {
    var l: seq<seq<int>> := [[1], [0], [], []];
    assert l[..3] == [[1], [0], []] && l[..3][..2] == [[1], [0]];
    var l2: seq<seq<int>> := [[1], [0]];
    assert l2[..1] == [[1]] && l2[..1][..0] == [];
    assert EdgeList([[1]]) == [(0, 1)];
    assert EdgeList(l2) == [(0, 1), (1, 0)];
  }
}

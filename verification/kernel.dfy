/** kernel.cpp: the embedding kept implicitly as a kernel matrix. The
    matrix starts from the graph (1 for every adjacency entry, the degree on
    the diagonal). Updating x hands the kernel restricted to x's examples
    (positive neighbours, then negative ones) to `KernelSVM`, then rewrites
    row and column x as the coefficient-weighted sums of the examples'
    kernel rows, and finally the diagonal entry from the rewritten row.
    `KernelSVM` has an empty body, so the coefficients stay at their
    initial zeros and every update clears row and column x: after one epoch
    the whole matrix is zero. */
module Kernel {
  import opened Seqs
  import opened Vectors
  import opened Graphs
  import Sampling
  import LinearSolver

  const EPOCHS: nat := 10
  const POS_PENALTY: real := 1.0
  const NEG_PENALTY: real := 0.25

  type Matrix = seq<seq<real>>

  datatype KernelEmbedding = KernelEmbedding(kernel: Matrix, coeff: seq<seq<real>>)

  predicate Square(k: Matrix, n: nat)
  {
    |k| == n && forall i :: 0 <= i < n ==> |k[i]| == n
  }

  predicate SymmetricMatrix(k: Matrix)
    requires Square(k, |k|)
  {
    forall i, j :: 0 <= i < |k| && 0 <= j < |k| ==> k[i][j] == k[j][i]
  }

  /** The model is sized for the graphs: an n x n kernel and one coefficient
      per example of each node. */
  predicate Fits(m: KernelEmbedding, pos: Graph, neg: Graph)
  {
    var n := |m.kernel|;
    && Square(m.kernel, n) && Valid(pos) && pos.size == n && ListsWithin(neg, n)
    && |m.coeff| == n
    && forall x :: 0 <= x < n ==> |m.coeff[x]| == |pos.edge[x]| + |neg.edge[x]|
  }

  /** The initial kernel: entry (i, j) is the degree of i on the diagonal, 1
      when j is a neighbour of i, 0 otherwise (the diagonal is written last,
      so it wins over a self-loop). */
  function InitialKernel(g: Graph): (k: Matrix)
    requires Valid(g)
    ensures Square(k, g.size)
    ensures forall i, j :: 0 <= i < g.size && 0 <= j < g.size ==>
      k[i][j] == (if i == j then |g.edge[i]| as real else if j in g.edge[i] then 1.0 else 0.0)
  {
    seq(g.size, i requires 0 <= i < g.size =>
      seq(g.size, j requires 0 <= j < g.size =>
        if i == j then |g.edge[i]| as real else if j in g.edge[i] then 1.0 else 0.0))
  }

  /** An undirected graph gives a symmetric initial kernel. */
  lemma InitialKernelSymmetric(g: Graph)
    requires Valid(g) && Symmetric(g)
    ensures SymmetricMatrix(InitialKernel(g))
  {
    forall i, j | 0 <= i < g.size && 0 <= j < g.size
      ensures InitialKernel(g)[i][j] == InitialKernel(g)[j][i]
    {
      SymmetricMembership(g, i, j);
    }
  }

  /** The examples of x: positive neighbours, then negative ones. */
  function Instances(pos: Graph, neg: Graph, x: int): seq<int>
    requires 0 <= x < |pos.edge| && 0 <= x < |neg.edge|
  {
    pos.edge[x] + neg.edge[x]
  }

  function Labels(pos: Graph, neg: Graph, x: int): (r: seq<int>)
    requires 0 <= x < |pos.edge| && 0 <= x < |neg.edge|
    ensures |r| == |Instances(pos, neg, x)|
  {
    Const(1, |pos.edge[x]|) + Const(-1, |neg.edge[x]|)
  }

  /** `local`: the kernel restricted to the examples, in example order. */
  function Local(k: Matrix, inst: seq<int>): (r: Matrix)
    requires Square(k, |k|) && forall j :: 0 <= j < |inst| ==> 0 <= inst[j] < |k|
    ensures Square(r, |inst|)
    ensures forall i, j :: 0 <= i < |inst| && 0 <= j < |inst| ==> r[i][j] == k[inst[i]][inst[j]]
  {
    seq(|inst|, i requires 0 <= i < |inst| => seq(|inst|, j requires 0 <= j < |inst| => k[inst[i]][inst[j]]))
  }

  /** The rewritten row of x before its diagonal is recomputed: entry i != x
      is sum over j of kernel[inst[j]][i] * c[j]; the diagonal is still the
      old one. */
  function SpreadRow(k: Matrix, inst: seq<int>, c: seq<real>, x: int): (r: Vec)
    requires Square(k, |k|) && 0 <= x < |k| && |c| == |inst|
    requires forall j :: 0 <= j < |inst| ==> 0 <= inst[j] < |k|
    ensures |r| == |k| && r[x] == k[x][x]
    ensures forall i :: 0 <= i < |k| && i != x ==> r[i] == ColumnSum(c, Pick(k, inst), i)
  {
    var rows := Pick(k, inst);
    seq(|k|, i requires 0 <= i < |k| => if i == x then k[x][x] else ColumnSum(c, rows, i))
  }

  /** `UpdateEmbedding(positive, negative, x)`: the solver call (which
      returns the coefficients unchanged), then row and column x rewritten,
      then the diagonal entry as the coefficient-weighted sum of the new row
      at the examples. */
  function Update(m: KernelEmbedding, pos: Graph, neg: Graph, x: int): (r: KernelEmbedding)
    requires Fits(m, pos, neg) && 0 <= x < |m.kernel|
    ensures Fits(r, pos, neg)
    ensures r.coeff == m.coeff
    ensures forall i, j :: 0 <= i < |m.kernel| && 0 <= j < |m.kernel| && i != x && j != x ==>
      r.kernel[i][j] == m.kernel[i][j]
    ensures forall i :: 0 <= i < |m.kernel| && i != x ==> r.kernel[x][i] == r.kernel[i][x]
    ensures var inst := Instances(pos, neg, x);
      forall i :: 0 <= i < |m.kernel| && i != x ==>
        r.kernel[x][i] == ColumnSum(m.coeff[x], Pick(m.kernel, inst), i)
    ensures r.kernel[x][x] == Dot(m.coeff[x], Pick(r.kernel[x][x := m.kernel[x][x]], Instances(pos, neg, x)))
  {
    var inst := Instances(pos, neg, x);
    var c := LinearSolver.KernelSVM(Local(m.kernel, inst), Labels(pos, neg, x), POS_PENALTY, NEG_PENALTY, m.coeff[x]);
    var row := SpreadRow(m.kernel, inst, c, x);
    var diag := Dot(c, Pick(row, inst));
    var n := |m.kernel|;
    var k := seq(n, i requires 0 <= i < n => if i == x then row[x := diag] else m.kernel[i][x := row[i]]);
    assert k[x][x := m.kernel[x][x]] == row;
    KernelEmbedding(k, m.coeff)
  }

  /** The update keeps a symmetric kernel symmetric. */
  lemma UpdateKeepsSymmetric(m: KernelEmbedding, pos: Graph, neg: Graph, x: int)
    requires Fits(m, pos, neg) && 0 <= x < |m.kernel| && SymmetricMatrix(m.kernel)
    ensures SymmetricMatrix(Update(m, pos, neg, x).kernel)
  {
  }

  /** With all-zero coefficients the update clears row and column x. */
  lemma UpdateWithZeroCoefficients(m: KernelEmbedding, pos: Graph, neg: Graph, x: int)
    requires Fits(m, pos, neg) && 0 <= x < |m.kernel|
    requires forall j :: 0 <= j < |m.coeff[x]| ==> m.coeff[x][j] == 0.0
    ensures forall i :: 0 <= i < |m.kernel| ==>
      Update(m, pos, neg, x).kernel[x][i] == 0.0 && Update(m, pos, neg, x).kernel[i][x] == 0.0
  {
    var inst := Instances(pos, neg, x);
    var c := m.coeff[x];
    var rows := Pick(m.kernel, inst);
    forall i | 0 <= i < |m.kernel|
      ensures ColumnSum(c, rows, i) == 0.0
    {
      ColumnSumOfZeroWeights(c, rows, i);
    }
    var row := SpreadRow(m.kernel, inst, c, x);
    DotZeros(c, Pick(row, inst));
  }

  /** With all-zero coefficients for x, the update clears x and keeps every
      cleared node cleared. */
  lemma UpdateClears(m: KernelEmbedding, pos: Graph, neg: Graph, x: int, v: int)
    requires Fits(m, pos, neg) && 0 <= x < |m.kernel| && 0 <= v < |m.kernel|
    requires forall j :: 0 <= j < |m.coeff[x]| ==> m.coeff[x][j] == 0.0
    requires v == x || Cleared(m.kernel, v)
    ensures Cleared(Update(m, pos, neg, x).kernel, v)
  {
    UpdateWithZeroCoefficients(m, pos, neg, x);
  }

  /** Zero coefficients everywhere (as the constructor allocates them). */
  predicate ZeroCoefficients(m: KernelEmbedding)
  {
    forall x, j :: 0 <= x < |m.coeff| && 0 <= j < |m.coeff[x]| ==> m.coeff[x][j] == 0.0
  }

  /** Row and column v of the kernel are zero. */
  predicate Cleared(k: Matrix, v: int)
    requires Square(k, |k|) && 0 <= v < |k|
  {
    forall i :: 0 <= i < |k| ==> k[v][i] == 0.0 && k[i][v] == 0.0
  }

  /** One epoch: update the nodes in the given order. Every visited node
      ends with a cleared row and column, and a symmetric kernel stays
      symmetric. */
  method RunEpoch(m: KernelEmbedding, pos: Graph, neg: Graph, order: seq<int>) returns (r: KernelEmbedding)
    requires Fits(m, pos, neg) && ZeroCoefficients(m)
    requires forall k :: 0 <= k < |order| ==> 0 <= order[k] < |m.kernel|
    ensures Fits(r, pos, neg) && ZeroCoefficients(r) && |r.kernel| == |m.kernel|
    ensures SymmetricMatrix(m.kernel) ==> SymmetricMatrix(r.kernel)
    ensures forall k :: 0 <= k < |order| ==> Cleared(r.kernel, order[k])
  {
    r := m;
    for t := 0 to |order|
      invariant Fits(r, pos, neg) && r.coeff == m.coeff && |r.kernel| == |m.kernel|
      invariant SymmetricMatrix(m.kernel) ==> SymmetricMatrix(r.kernel)
      invariant forall k :: 0 <= k < t ==> Cleared(r.kernel, order[k])
    {
      VisitStep(r, pos, neg, order, t);
      r := Update(r, pos, neg, order[t]);
    }
  }

  /** The t-th update of an epoch clears order[t] and keeps the nodes
      cleared before it cleared. */
  lemma VisitStep(r: KernelEmbedding, pos: Graph, neg: Graph, order: seq<int>, t: int)
    requires Fits(r, pos, neg) && ZeroCoefficients(r) && 0 <= t < |order|
    requires forall k :: 0 <= k < |order| ==> 0 <= order[k] < |r.kernel|
    requires forall k :: 0 <= k < t ==> Cleared(r.kernel, order[k])
    ensures var u := Update(r, pos, neg, order[t]);
      && Fits(u, pos, neg) && u.coeff == r.coeff && |u.kernel| == |r.kernel|
      && (SymmetricMatrix(r.kernel) ==> SymmetricMatrix(u.kernel))
      && forall k :: 0 <= k < t + 1 ==> Cleared(u.kernel, order[k])
  {
    var x := order[t];
    forall k | 0 <= k < t + 1
      ensures Cleared(Update(r, pos, neg, x).kernel, order[k])
    {
      UpdateClears(r, pos, neg, x, order[k]);
    }
    if SymmetricMatrix(r.kernel) {
      UpdateKeepsSymmetric(r, pos, neg, x);
    }
  }

  /** The constructor `KernelEmbedding(graph, negative)`: the initial kernel,
      zero coefficients, EPOCHS epochs over fresh permutations. Because the
      solver leaves the zero coefficients alone, every score ends at zero. */
  method Train(pos: Graph, neg: Graph, orderDraws: seq<seq<int>>)
    returns (m: KernelEmbedding, log: seq<int>)
    requires Valid(pos) && ListsWithin(neg, pos.size)
    requires Sampling.OrderDraws(orderDraws, EPOCHS, pos.size)
    ensures Fits(m, pos, neg) && |m.kernel| == pos.size
    ensures Symmetric(pos) ==> SymmetricMatrix(m.kernel)
    ensures forall x, y :: 0 <= x < pos.size && 0 <= y < pos.size ==> Evaluate(m, x, y) == 0.0
    ensures Sampling.VisitedEach(log, pos.size, EPOCHS)
  {
    var n := pos.size;
    m := KernelEmbedding(InitialKernel(pos), seq(n, x requires 0 <= x < n => Zeros(|pos.edge[x]| + |neg.edge[x]|)));
    if Symmetric(pos) {
      InitialKernelSymmetric(pos);
    }
    var order := Range(n);
    log := [];
    for e := 0 to EPOCHS
      invariant Fits(m, pos, neg) && ZeroCoefficients(m) && |m.kernel| == n
      invariant Symmetric(pos) ==> SymmetricMatrix(m.kernel)
      invariant IsOrderOf(order, n)
      invariant e > 0 ==> forall v :: 0 <= v < n ==> Cleared(m.kernel, v)
      invariant Sampling.VisitedEach(log, n, e)
    {
      order := Sampling.PermuteOrder(order, n, orderDraws[e]);
      m := RunEpoch(m, pos, neg, order);
      forall v | 0 <= v < n
        ensures Cleared(m.kernel, v)
      {
        RangeCounts(n);
        assert v in multiset(order);
      }
      Sampling.VisitOrder(log, order, n, e);
      log := log + order;
    }
    forall x, y | 0 <= x < n && 0 <= y < n
      ensures Evaluate(m, x, y) == 0.0
    {
      assert Cleared(m.kernel, x);
    }
  }

  /** `Evaluate(x, y)`: the kernel entry. */
  function Evaluate(m: KernelEmbedding, x: int, y: int): real
    requires Square(m.kernel, |m.kernel|) && 0 <= x < |m.kernel| && 0 <= y < |m.kernel|
  {
    m.kernel[x][y]
  }
}

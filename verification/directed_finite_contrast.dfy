/** directed_finite_contrast.cpp: the directed model trained on contrast
    pairs. The in-embedding of x is fitted to the out-embeddings of the
    neighbours b listed in its in-table row, the out-embedding to the
    in-embeddings of the neighbours in its out-table row; each example has
    the entry's sign as label, penalty 1/regularizer and margin
    1 + sign * score(c -> d). Coefficient rows are sized to the table
    rows. */
module DirectedFiniteContrast {
  import opened Seqs
  import opened Vectors
  import opened Graphs
  import opened Contrast
  import opened Directed
  import Sampling
  import Solvers

  const EPOCHS: nat := 10

  /** What the constructor reads of the graphs: the positive out-edges and
      the negative out-edges of the first `graph.size` nodes. */
  function SettingOf(pos: DGraph, neg: DGraph): (s: Setting)
    requires ValidD(pos) && ListsWithinD(neg, pos.size)
    ensures SettingOk(s) && s.n == pos.size && s.directed
  {
    EdgeListWithin(pos.outEdge, pos.size);
    EdgeListWithin(neg.outEdge[..pos.size], pos.size);
    Setting(pos.size, EdgeList(pos.outEdge), EdgeList(neg.outEdge[..pos.size]), true)
  }

  /** The table row an update of the given side reads. */
  function Row(t: Tables, inSide: bool, x: int): seq<ContrastEdgePair>
    requires 0 <= x < |t.inRows| && 0 <= x < |t.out|
  {
    if inSide then t.inRows[x] else t.out[x]
  }

  /** The model fits the tables: one coefficient per row entry on each side,
      every entry sound. */
  predicate Fits(m: DirectedModel, s: Setting, t: Tables)
  {
    var n := |m.inEmb|;
    && Shaped(m) && s.n == n && TablesFit(t, n) && TablesOk(s, t)
    && forall x :: 0 <= x < n ==> |m.inCoeff[x]| == |t.inRows[x]| && |m.outCoeff[x]| == |t.out[x]|
  }

  lemma RowEntryOk(m: DirectedModel, s: Setting, t: Tables, inSide: bool, x: int, j: int)
    requires Fits(m, s, t) && 0 <= x < |m.inEmb| && 0 <= j < |Row(t, inSide, x)|
    ensures EntryOk(s, inSide, x, Row(t, inSide, x)[j])
  {
  }

  /** The neighbours b of a row, in row order. */
  function Neighbours(row: seq<ContrastEdgePair>): (ids: seq<int>)
    ensures |ids| == |row| && forall j :: 0 <= j < |row| ==> ids[j] == row[j].b
  {
    seq(|row|, j requires 0 <= j < |row| => row[j].b)
  }

  /** The solver arguments of `UpdateInEmbedding(in_table, x)` (inSide) or
      `UpdateOutEmbedding(out_table, x)`, with the squared norms of the
      features. */
  function SideTask(m: DirectedModel, s: Setting, t: Tables, regularizer: real, inSide: bool, x: int)
    : (r: (Solvers.Task, seq<real>))
    requires Fits(m, s, t) && 0 <= x < |m.inEmb| && regularizer != 0.0
    ensures Solvers.TaskShape(r.0) && |r.1| == |r.0.feature| == |Row(t, inSide, x)|
    ensures |r.0.feature| == |Coeff(m, inSide)[x]|
    ensures forall j :: 0 <= j < |Row(t, inSide, x)| ==>
      && r.0.feature[j] == Opposite(m, inSide)[Row(t, inSide, x)[j].b]
      && r.0.labels[j] == Row(t, inSide, x)[j].sign
      && r.0.penalty[j] == 1.0 / regularizer
  {
    var row := Row(t, inSide, x);
    var ids := Neighbours(row);
    forall j | 0 <= j < |row|
      ensures 0 <= row[j].c < |m.inEmb| && 0 <= row[j].d < |m.inEmb| && 0 <= ids[j] < |m.inEmb|
    {
      RowEntryOk(m, s, t, inSide, x, j);
    }
    var g := Gather(m, inSide, ids);
    (Solvers.Task(g.0, seq(|row|, j requires 0 <= j < |row| => row[j].sign), Const(1.0 / regularizer, |row|),
                  seq(|row|, j requires 0 <= j < |row| => 1.0 + (row[j].sign as real) * Evaluate(m, row[j].c, row[j].d))),
     g.1)
  }

  /** Margins contrast the score of an edge of the other kind (1 + score of
      a sampled negative edge for a +1 example, 1 - score of a positive edge
      for a -1 example), and with the caches up to date the norms handed
      along are the features' squared norms. */
  lemma SideTaskContents(m: DirectedModel, s: Setting, t: Tables, regularizer: real, inSide: bool, x: int, j: int)
    requires Fits(m, s, t) && 0 <= x < |m.inEmb| && regularizer != 0.0 && 0 <= j < |Row(t, inSide, x)|
    ensures var (task, ns) := SideTask(m, s, t, regularizer, inSide, x);
      var e := Row(t, inSide, x)[j];
      && 0 <= e.c < |m.inEmb| && 0 <= e.d < |m.inEmb|
      && (task.labels[j] == 1 ==> (e.c, e.d) in s.negative && task.margin[j] == 1.0 + Evaluate(m, e.c, e.d))
      && (task.labels[j] == -1 ==> (e.c, e.d) in s.positive && task.margin[j] == 1.0 - Evaluate(m, e.c, e.d))
      && (NormsCached(m) ==> ns[j] == Dot(task.feature[j], task.feature[j]))
  {
    RowEntryOk(m, s, t, inSide, x, j);
  }

  /** One side update of x: solve, write back, refresh the norm. Nothing of
      the other side and nothing of another node changes. */
  function Update(m: DirectedModel, s: Setting, t: Tables, regularizer: real, inSide: bool, x: int,
                  solve: Solvers.NormSolver): (r: DirectedModel)
    requires Fits(m, s, t) && 0 <= x < |m.inEmb| && regularizer != 0.0
    requires Solvers.KeepsShapeW(solve)
    ensures Fits(r, s, t) && r.dim == m.dim
    ensures NormsCached(m) ==> NormsCached(r)
    ensures Opposite(r, inSide) == Opposite(m, inSide) && Coeff(r, !inSide) == Coeff(m, !inSide)
    ensures forall y :: 0 <= y < |m.inEmb| && y != x ==>
      Own(r, inSide)[y] == Own(m, inSide)[y] && Coeff(r, inSide)[y] == Coeff(m, inSide)[y]
    ensures var (task, ns) := SideTask(m, s, t, regularizer, inSide, x);
      var sol := solve(task, ns, Coeff(m, inSide)[x], Own(m, inSide)[x]);
      Own(r, inSide)[x] == sol.w && Coeff(r, inSide)[x] == sol.coeff
  {
    var (task, ns) := SideTask(m, s, t, regularizer, inSide, x);
    assert |Own(m, inSide)[x]| == m.dim;
    var sol := solve(task, ns, Coeff(m, inSide)[x], Own(m, inSide)[x]);
    WriteBack(m, inSide, x, sol)
  }

  /** The visit of x in an epoch: the in-update, then the out-update, which
      already sees x's new in-embedding. The out-update leaves the in side
      as the in-update wrote it; no other node changes. */
  function Visit(m: DirectedModel, s: Setting, t: Tables, regularizer: real, x: int,
                 solve: Solvers.NormSolver): (r: DirectedModel)
    requires Fits(m, s, t) && 0 <= x < |m.inEmb| && regularizer != 0.0
    requires Solvers.KeepsShapeW(solve)
    ensures Fits(r, s, t) && r.dim == m.dim
    ensures NormsCached(m) ==> NormsCached(r)
    ensures forall y :: 0 <= y < |m.inEmb| && y != x ==> Keeps(r, m, y)
    ensures var mid := Update(m, s, t, regularizer, true, x, solve);
      && r.inEmb == mid.inEmb && r.inCoeff == mid.inCoeff
      && mid.outEmb == m.outEmb && mid.outCoeff == m.outCoeff
  {
    var mid := Update(m, s, t, regularizer, true, x, solve);
    Update(mid, s, t, regularizer, false, x, solve)
  }

  /** One epoch: the visits of order[0], order[1], ... in turn. A node the
      order does not hold keeps its embeddings and coefficients. */
  function Epoch(m: DirectedModel, s: Setting, t: Tables, regularizer: real, order: seq<int>,
                 solve: Solvers.NormSolver): (r: DirectedModel)
    requires Fits(m, s, t) && regularizer != 0.0 && Solvers.KeepsShapeW(solve)
    requires forall k :: 0 <= k < |order| ==> 0 <= order[k] < |m.inEmb|
    ensures Fits(r, s, t) && r.dim == m.dim
    ensures forall y :: 0 <= y < |m.inEmb| && y !in order ==> Keeps(r, m, y)
    decreases |order|
  {
    if |order| == 0 then m
    else
      var prev := Epoch(m, s, t, regularizer, order[..|order| - 1], solve);
      assert forall y :: y !in order ==> y !in order[..|order| - 1];
      Visit(prev, s, t, regularizer, order[|order| - 1], solve)
  }

  /** Epoch k of a run is the epoch over orders[k]. */
  function Epochs(m: DirectedModel, s: Setting, t: Tables, regularizer: real, orders: seq<seq<int>>,
                  solve: Solvers.NormSolver): (r: DirectedModel)
    requires Fits(m, s, t) && regularizer != 0.0 && Solvers.KeepsShapeW(solve)
    requires Sampling.OrdersBelow(orders, |m.inEmb|)
    ensures Fits(r, s, t) && r.dim == m.dim
    decreases |orders|
  {
    if |orders| == 0 then m
    else Epoch(Epochs(m, s, t, regularizer, orders[..|orders| - 1], solve), s, t, regularizer, orders[|orders| - 1], solve)
  }

  /** An epoch keeps the squared-norm caches up to date. */
  lemma {:induction false} EpochKeepsNorms(m: DirectedModel, s: Setting, t: Tables, regularizer: real, order: seq<int>,
                                           solve: Solvers.NormSolver)
    requires Fits(m, s, t) && regularizer != 0.0 && Solvers.KeepsShapeW(solve)
    requires forall k :: 0 <= k < |order| ==> 0 <= order[k] < |m.inEmb|
    requires NormsCached(m)
    ensures NormsCached(Epoch(m, s, t, regularizer, order, solve))
    decreases |order|
  {
    if |order| > 0 {
      EpochKeepsNorms(m, s, t, regularizer, order[..|order| - 1], solve);
    }
  }

  /** So do any number of epochs. */
  lemma {:induction false} EpochsKeepNorms(m: DirectedModel, s: Setting, t: Tables, regularizer: real,
                                           orders: seq<seq<int>>, solve: Solvers.NormSolver)
    requires Fits(m, s, t) && regularizer != 0.0 && Solvers.KeepsShapeW(solve)
    requires Sampling.OrdersBelow(orders, |m.inEmb|)
    requires NormsCached(m)
    ensures NormsCached(Epochs(m, s, t, regularizer, orders, solve))
    decreases |orders|
  {
    if |orders| > 0 {
      var k := |orders| - 1;
      EpochsKeepNorms(m, s, t, regularizer, orders[..k], solve);
      EpochKeepsNorms(Epochs(m, s, t, regularizer, orders[..k], solve), s, t, regularizer, orders[k], solve);
    }
  }

  /** The epoch over order[..k + 1] is the epoch over order[..k] followed
      by the visit of order[k]. */
  lemma EpochStep(m: DirectedModel, s: Setting, t: Tables, regularizer: real, order: seq<int>, k: int,
                  solve: Solvers.NormSolver)
    requires Fits(m, s, t) && regularizer != 0.0 && Solvers.KeepsShapeW(solve)
    requires forall i :: 0 <= i < |order| ==> 0 <= order[i] < |m.inEmb|
    requires 0 <= k < |order|
    ensures Epoch(m, s, t, regularizer, order[..k + 1], solve)
      == Visit(Epoch(m, s, t, regularizer, order[..k], solve), s, t, regularizer, order[k], solve)
  {
    assert order[..k + 1][..k] == order[..k];
  }

  /** One more epoch extends the epochs so far. */
  lemma EpochsSnoc(m: DirectedModel, s: Setting, t: Tables, regularizer: real, orders: seq<seq<int>>,
                   order: seq<int>, solve: Solvers.NormSolver)
    requires Fits(m, s, t) && regularizer != 0.0 && Solvers.KeepsShapeW(solve)
    requires Sampling.OrdersBelow(orders, |m.inEmb|)
    requires |order| == |m.inEmb| && forall k :: 0 <= k < |order| ==> 0 <= order[k] < |m.inEmb|
    ensures Sampling.OrdersBelow(orders + [order], |m.inEmb|)
    ensures Epochs(m, s, t, regularizer, orders + [order], solve)
      == Epoch(Epochs(m, s, t, regularizer, orders, solve), s, t, regularizer, order, solve)
  {
    Sampling.OrdersBelowSnoc(orders, order, |m.inEmb|);
    var all := orders + [order];
    assert all[..|orders|] == orders && all[|orders|] == order;
  }

  /** One epoch: for each node of the order, `UpdateInEmbedding(in_table, x)`
      then `UpdateOutEmbedding(out_table, x)`. */
  method RunEpoch(m: DirectedModel, s: Setting, t: Tables, regularizer: real, order: seq<int>,
                  solve: Solvers.NormSolver)
    returns (r: DirectedModel)
    requires Fits(m, s, t) && regularizer != 0.0 && Solvers.KeepsShapeW(solve)
    requires forall k :: 0 <= k < |order| ==> 0 <= order[k] < |m.inEmb|
    ensures r == Epoch(m, s, t, regularizer, order, solve)
    ensures Fits(r, s, t) && r.dim == m.dim
    ensures NormsCached(m) ==> NormsCached(r)
    ensures forall y :: 0 <= y < |m.inEmb| && y !in order ==> Keeps(r, m, y)
  {
    r := m;
    for k := 0 to |order|
      invariant r == Epoch(m, s, t, regularizer, order[..k], solve)
    {
      EpochStep(m, s, t, regularizer, order, k, solve);
      r := Update(r, s, t, regularizer, true, order[k], solve);
      r := Update(r, s, t, regularizer, false, order[k], solve);
    }
    assert order[..|order|] == order;
    if NormsCached(m) {
      EpochKeepsNorms(m, s, t, regularizer, order, solve);
    }
  }

  /** One zero coefficient per entry of each row. */
  function ZeroRows(rows: Rows): (c: seq<seq<real>>)
    ensures |c| == |rows| && forall x :: 0 <= x < |rows| ==> c[x] == Zeros(|rows[x]|)
  {
    seq(|rows|, x requires 0 <= x < |rows| => Zeros(|rows[x]|))
  }

  /** The finished tables are sound, sized for the graph and hold 2 * ratio
      entries per positive out-edge on each side. */
  lemma TableFacts(pos: DGraph, neg: DGraph, ratio: int, tableDraws: seq<int>)
    requires ValidD(pos) && ListsWithinD(neg, pos.size)
    requires DrawsWithin(tableDraws, |SettingOf(pos, neg).negative|)
    ensures var built := Tabulate(SettingOf(pos, neg), ratio, tableDraws);
      built.Some? ==>
        && TablesFit(built.value, pos.size) && TablesOk(SettingOf(pos, neg), built.value)
        && TotalLength(built.value.out) == TotalLength(built.value.inRows) == 2 * ratio * TotalLength(pos.outEdge)
  {
    var s := SettingOf(pos, neg);
    TabulateOk(s, ratio, tableDraws);
    TabulateSizes(s, ratio, tableDraws);
    var built := Tabulate(s, ratio, tableDraws);
    if built.Some? {
      assert |s.positive| == TotalLength(pos.outEdge);
      EvenSplit(TotalLength(built.value.out), TotalLength(built.value.inRows), ratio, |s.positive|);
    }
  }

  lemma EvenSplit(o: int, i: int, ratio: int, p: int)
    requires o == i && o + i == 4 * ratio * p
    ensures o == 2 * ratio * p
  {
    var m := ratio * p;
    assert 4 * ratio * p == 4 * m && 2 * ratio * p == 2 * m;
  }

  /** The EPOCHS epochs of the constructor, each over a fresh shuffle of
      the nodes. */
  method RunEpochs(start: DirectedModel, s: Setting, t: Tables, regularizer: real, orderDraws: seq<seq<int>>,
                   solve: Solvers.NormSolver)
    returns (m: DirectedModel, orders: seq<seq<int>>)
    requires Fits(start, s, t) && regularizer != 0.0 && Solvers.KeepsShapeW(solve)
    requires Sampling.OrderDraws(orderDraws, EPOCHS, |start.inEmb|)
    ensures orders == Sampling.Orders(|start.inEmb|, orderDraws)
    ensures m == Epochs(start, s, t, regularizer, orders, solve)
  {
    var n := |start.inEmb|;
    m := start;
    orders := [];
    Sampling.OrdersStart(n, orderDraws);
    for e := 0 to EPOCHS
      invariant Sampling.OrdersSoFar(n, orderDraws, e, orders)
      invariant m == Epochs(start, s, t, regularizer, orders, solve)
    {
      m, orders := NextEpoch(start, s, t, regularizer, orderDraws, solve, e, m, orders);
    }
    Sampling.OrdersDone(n, orderDraws, orders);
  }

  /** Epoch `e` of `RunEpochs`: shuffle the previous order and sweep it. */
  method NextEpoch(start: DirectedModel, s: Setting, t: Tables, regularizer: real, orderDraws: seq<seq<int>>,
                   solve: Solvers.NormSolver, e: nat,
                   m: DirectedModel, orders: seq<seq<int>>)
    returns (m': DirectedModel, orders': seq<seq<int>>)
    requires Fits(start, s, t) && regularizer != 0.0 && Solvers.KeepsShapeW(solve)
    requires e < |orderDraws| && Sampling.OrdersSoFar(|start.inEmb|, orderDraws, e, orders)
    requires m == Epochs(start, s, t, regularizer, orders, solve)
    ensures Sampling.OrdersSoFar(|start.inEmb|, orderDraws, e + 1, orders')
    ensures m' == Epochs(start, s, t, regularizer, orders', solve)
  {
    var order := Sampling.NextOrder(|start.inEmb|, orderDraws, e, orders);
    m' := RunEpoch(m, s, t, regularizer, order, solve);
    EpochsSnoc(start, s, t, regularizer, orders, order, solve);
    orders' := orders + [order];
  }

  /** The starting model once the tables exist: the given embeddings, their
      squared norms and one zero coefficient per row entry on each side. */
  function Start(s: Setting, tables: Tables, dim: nat, inInit: seq<Vec>, outInit: seq<Vec>): (m: DirectedModel)
    requires TablesFit(tables, s.n) && TablesOk(s, tables)
    requires |inInit| == s.n && |outInit| == s.n && AllDim(inInit, dim) && AllDim(outInit, dim)
    ensures Fits(m, s, tables) && NormsCached(m) && m.dim == dim && m.inEmb == inInit && m.outEmb == outInit
    ensures m.inCoeff == ZeroRows(tables.inRows) && m.outCoeff == ZeroRows(tables.out)
  {
    Initial(dim, inInit, outInit, ZeroRows(tables.inRows), ZeroRows(tables.out))
  }

  /** The constructor: build the tables (None if the table draws run out),
      start from the given embeddings with zero coefficients sized to the
      table rows, run EPOCHS epochs, then combine the embeddings. Returns
      the model, the tables, the combined embeddings, the epoch orders and
      the log of visited nodes. */
  method Train(pos: DGraph, neg: DGraph, ratio: int, dim: nat, regularizer: real,
               inInit: seq<Vec>, outInit: seq<Vec>, tableDraws: seq<int>, orderDraws: seq<seq<int>>,
               solve: Solvers.NormSolver)
    returns (r: Option<DirectedModel>, tables: Tables, combined: seq<Vec>, orders: seq<seq<int>>, log: seq<int>)
    requires ValidD(pos) && ListsWithinD(neg, pos.size)
    requires |inInit| == pos.size && |outInit| == pos.size && AllDim(inInit, dim) && AllDim(outInit, dim)
    requires regularizer != 0.0 && Solvers.KeepsShapeW(solve)
    requires DrawsWithin(tableDraws, |SettingOf(pos, neg).negative|)
    requires Sampling.OrderDraws(orderDraws, EPOCHS, pos.size)
    ensures r.None? <==> Tabulate(SettingOf(pos, neg), ratio, tableDraws).None?
    ensures r.Some? ==>
      && tables == Tabulate(SettingOf(pos, neg), ratio, tableDraws).value
      && TablesFit(tables, pos.size) && TablesOk(SettingOf(pos, neg), tables)
      && orders == Sampling.Orders(pos.size, orderDraws)
      && r.value == Epochs(Start(SettingOf(pos, neg), tables, dim, inInit, outInit), SettingOf(pos, neg), tables, regularizer, orders, solve)
      && Fits(r.value, SettingOf(pos, neg), tables) && NormsCached(r.value) && r.value.dim == dim
      && TotalLength(tables.out) == TotalLength(tables.inRows) == 2 * ratio * TotalLength(pos.outEdge)
      && combined == CombinedAll(r.value)
      && log == Sampling.Concat(orders) && Sampling.VisitedEach(log, pos.size, EPOCHS)
  {
    var s := SettingOf(pos, neg);
    var built := Tabulate(s, ratio, tableDraws);
    tables, combined, orders, log := NewTables(0), [], [], [];
    if built.None? {
      return None, tables, combined, orders, log;
    }
    TableFacts(pos, neg, ratio, tableDraws);
    tables := built.value;
    var start := Start(s, tables, dim, inInit, outInit);
    var m;
    m, orders := RunEpochs(start, s, tables, regularizer, orderDraws, solve);
    EpochsKeepNorms(start, s, tables, regularizer, orders, solve);
    log := Sampling.Concat(orders);
    Sampling.OrdersVisitEach(pos.size, orderDraws);
    combined := CombinedAll(m);
    r := Some(m);
  }
}

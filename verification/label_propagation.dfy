/** label_propagation.cpp: every node holds a score per class. Labelled
    nodes start one-hot at their class and are never touched again;
    unlabelled nodes start at zero and, for EPOCHS epochs in a fresh random
    order, are overwritten with the average of their neighbours' scores. */
module LabelPropagation {
  import opened Seqs
  import opened Vectors
  import opened Graphs
  import Sampling

  const EPOCHS: nat := 100
  const UNLABELLED: int := -1

  /** Every label is a class below card or unlabelled. */
  predicate LabelsWithin(labels: seq<int>, card: nat)
  {
    forall i :: 0 <= i < |labels| ==> labels[i] == UNLABELLED || 0 <= labels[i] < card
  }

  /** Every score lies in [0, 1]. */
  predicate UnitScores(emb: seq<Vec>)
  {
    forall y, i :: 0 <= y < |emb| && 0 <= i < |emb[y]| ==> 0.0 <= emb[y][i] <= 1.0
  }

  /** The starting scores: a one-hot vector for a labelled node, zero for an
      unlabelled one, all of length card. */
  function Initial(labels: seq<int>, card: nat): (emb: seq<Vec>)
    requires LabelsWithin(labels, card)
    ensures |emb| == |labels| && AllDim(emb, card) && UnitScores(emb)
    ensures forall y, i :: 0 <= y < |labels| && 0 <= i < card ==>
      emb[y][i] == (if labels[y] == i then 1.0 else 0.0)
  {
    seq(|labels|, y requires 0 <= y < |labels| =>
      if labels[y] == UNLABELLED then Zeros(card) else Zeros(card)[labels[y] := 1.0])
  }

  /** The accumulator of `UpdateEmbedding(base, x)` after the neighbours nb:
      it starts at zero and each neighbour y adds y's scores divided by the
      degree d. A self-loop (y == x) reads the accumulator itself, as the
      source reads embedding[x] while writing it. */
  function Accumulate(emb: seq<Vec>, x: int, nb: seq<int>, d: real, dim: nat): (acc: Vec)
    requires AllDim(emb, dim) && d > 0.0
    requires forall k :: 0 <= k < |nb| ==> 0 <= nb[k] < |emb|
    ensures |acc| == dim
  {
    if |nb| == 0 then Zeros(dim)
    else
      var prev := Accumulate(emb, x, nb[..|nb| - 1], d, dim);
      var y := nb[|nb| - 1];
      seq(dim, i requires 0 <= i < dim => prev[i] + (if y == x then prev[i] else emb[y][i]) / d)
  }

  /** `UpdateEmbedding(base, x)`: x's scores become the accumulated average;
      an isolated node is set to zero. */
  function Update(g: Graph, emb: seq<Vec>, x: int, dim: nat): (r: seq<Vec>)
    requires Valid(g) && |emb| == g.size && AllDim(emb, dim) && 0 <= x < g.size
    ensures |r| == |emb| && AllDim(r, dim)
    ensures forall y :: 0 <= y < |emb| && y != x ==> r[y] == emb[y]
    ensures |g.edge[x]| == 0 ==> r[x] == Zeros(dim)
  {
    if |g.edge[x]| == 0 then emb[x := Zeros(dim)]
    else emb[x := Accumulate(emb, x, g.edge[x], |g.edge[x]| as real, dim)]
  }

  /** The sum of component i of the scores of the nodes nb. */
  function NeighbourSum(emb: seq<Vec>, nb: seq<int>, dim: nat, i: nat): real
    requires AllDim(emb, dim) && i < dim
    requires forall k :: 0 <= k < |nb| ==> 0 <= nb[k] < |emb|
  {
    if |nb| == 0 then 0.0 else NeighbourSum(emb, nb[..|nb| - 1], dim, i) + emb[nb[|nb| - 1]][i]
  }

  /** Without a self-loop among them, the accumulator holds the neighbours'
      summed scores divided by d. */
  lemma {:induction false} AccumulateIsWeightedSum(emb: seq<Vec>, x: int, nb: seq<int>, d: real, dim: nat, i: nat)
    requires AllDim(emb, dim) && d > 0.0 && i < dim
    requires forall k :: 0 <= k < |nb| ==> 0 <= nb[k] < |emb| && nb[k] != x
    ensures Accumulate(emb, x, nb, d, dim)[i] == NeighbourSum(emb, nb, dim, i) / d
  {
    if |nb| > 0 {
      var n := |nb|;
      AccumulateIsWeightedSum(emb, x, nb[..n - 1], d, dim, i);
      AccumulateLast(emb, x, nb, d, dim, i);
      SumOverD(NeighbourSum(emb, nb[..n - 1], dim, i), emb[nb[n - 1]][i], d);
    }
  }

  lemma SumOverD(a: real, b: real, d: real)
    requires d > 0.0
    ensures a / d + b / d == (a + b) / d
  {
  }

  /** The last neighbour, when it is not x itself, adds its score over d. */
  lemma AccumulateLast(emb: seq<Vec>, x: int, nb: seq<int>, d: real, dim: nat, i: nat)
    requires AllDim(emb, dim) && d > 0.0 && i < dim && |nb| > 0
    requires forall k :: 0 <= k < |nb| ==> 0 <= nb[k] < |emb|
    requires nb[|nb| - 1] != x
    ensures Accumulate(emb, x, nb, d, dim)[i]
         == Accumulate(emb, x, nb[..|nb| - 1], d, dim)[i] + emb[nb[|nb| - 1]][i] / d
  {
  }

  /** Assuming x has no self-loop, an update sets x's scores to the mean of
      its neighbours' scores. */
  lemma UpdateIsMean(g: Graph, emb: seq<Vec>, x: int, dim: nat, i: nat)
    requires Valid(g) && |emb| == g.size && AllDim(emb, dim) && 0 <= x < g.size && i < dim
    requires x !in g.edge[x] && |g.edge[x]| > 0
    ensures Update(g, emb, x, dim)[x][i] == NeighbourSum(emb, g.edge[x], dim, i) / |g.edge[x]| as real
  {
    AccumulateIsWeightedSum(emb, x, g.edge[x], |g.edge[x]| as real, dim, i);
  }

  /** After k of the d neighbours the accumulator lies in [0, k/d], self-loops
      included: a self-loop at most doubles a value that is at most 1. */
  lemma {:induction false} AccumulateBetween(emb: seq<Vec>, x: int, nb: seq<int>, d: real, dim: nat, i: nat)
    requires AllDim(emb, dim) && UnitScores(emb) && d > 0.0 && i < dim
    requires forall k :: 0 <= k < |nb| ==> 0 <= nb[k] < |emb|
    requires |nb| as real <= d
    ensures 0.0 <= Accumulate(emb, x, nb, d, dim)[i] <= |nb| as real / d
  {
    if |nb| > 0 {
      var n := |nb|;
      AccumulateBetween(emb, x, nb[..n - 1], d, dim, i);
      var prev := Accumulate(emb, x, nb[..n - 1], d, dim)[i];
      var y := nb[n - 1];
      var v := if y == x then prev else emb[y][i];
      assert 0.0 <= v <= 1.0 by {
        assert (n - 1) as real / d <= 1.0;
      }
      StepBetween(prev, v, d, (n - 1) as real);
    }
  }

  lemma StepBetween(prev: real, v: real, d: real, k: real)
    requires d > 0.0 && 0.0 <= prev <= k / d && 0.0 <= v <= 1.0
    ensures 0.0 <= prev + v / d <= (k + 1.0) / d
  {
    assert v / d <= 1.0 / d;
  }

  /** An update keeps every score in [0, 1]: it is a convex combination. */
  lemma UpdateKeepsUnit(g: Graph, emb: seq<Vec>, x: int, dim: nat)
    requires Valid(g) && |emb| == g.size && AllDim(emb, dim) && 0 <= x < g.size && UnitScores(emb)
    ensures UnitScores(Update(g, emb, x, dim))
  {
    var d := |g.edge[x]|;
    if d > 0 {
      forall i | 0 <= i < dim
        ensures 0.0 <= Update(g, emb, x, dim)[x][i] <= 1.0
      {
        AccumulateBetween(emb, x, g.edge[x], d as real, dim, i);
      }
    }
  }

  /** The updates in the given sequence, one after the other, whatever the
      labels. A node the sequence does not hold keeps its scores. */
  function Sweep(g: Graph, emb: seq<Vec>, dim: nat, xs: seq<int>): (r: seq<Vec>)
    requires Valid(g) && |emb| == g.size && AllDim(emb, dim)
    requires forall k :: 0 <= k < |xs| ==> 0 <= xs[k] < g.size
    ensures |r| == |emb| && AllDim(r, dim)
    ensures forall y :: 0 <= y < |emb| && y !in xs ==> r[y] == emb[y]
    decreases |xs|
  {
    if |xs| == 0 then emb
    else
      var prev := Sweep(g, emb, dim, xs[..|xs| - 1]);
      assert forall y :: y !in xs ==> y !in xs[..|xs| - 1];
      Update(g, prev, xs[|xs| - 1], dim)
  }

  /** Sweeping a then b is sweeping a + b. */
  lemma {:induction false} SweepAppend(g: Graph, emb: seq<Vec>, dim: nat, a: seq<int>, b: seq<int>)
    requires Valid(g) && |emb| == g.size && AllDim(emb, dim)
    requires forall k :: 0 <= k < |a| ==> 0 <= a[k] < g.size
    requires forall k :: 0 <= k < |b| ==> 0 <= b[k] < g.size
    ensures Sweep(g, emb, dim, a + b) == Sweep(g, Sweep(g, emb, dim, a), dim, b)
    decreases |b|
  {
    if |b| == 0 {
      assert a + b == a;
    } else {
      var k := |b| - 1;
      SweepAppend(g, emb, dim, a, b[..k]);
      assert (a + b)[..|a + b| - 1] == a + b[..k];
    }
  }

  /** A sweep keeps every score in [0, 1]. */
  lemma {:induction false} SweepKeepsUnit(g: Graph, emb: seq<Vec>, dim: nat, xs: seq<int>)
    requires Valid(g) && |emb| == g.size && AllDim(emb, dim) && UnitScores(emb)
    requires forall k :: 0 <= k < |xs| ==> 0 <= xs[k] < g.size
    ensures UnitScores(Sweep(g, emb, dim, xs))
    decreases |xs|
  {
    if |xs| > 0 {
      var k := |xs| - 1;
      SweepKeepsUnit(g, emb, dim, xs[..k]);
      UpdateKeepsUnit(g, Sweep(g, emb, dim, xs[..k]), xs[k], dim);
    }
  }

  /** The nodes of order that are unlabelled, in order: those the epoch
      updates. */
  function Unlabelled(order: seq<int>, labels: seq<int>): (r: seq<int>)
    requires forall k :: 0 <= k < |order| ==> 0 <= order[k] < |labels|
    ensures forall k :: 0 <= k < |r| ==> 0 <= r[k] < |labels| && labels[r[k]] == UNLABELLED
    ensures forall v :: multiset(r)[v] == if 0 <= v < |labels| && labels[v] == UNLABELLED then multiset(order)[v] else 0
  {
    if |order| == 0 then []
    else
      var v := order[|order| - 1];
      assert order == order[..|order| - 1] + [v];
      Unlabelled(order[..|order| - 1], labels) + (if labels[v] == UNLABELLED then [v] else [])
  }

  /** One epoch as the source loops it: for each node of order, the update
      when the node is unlabelled. Labelled nodes and nodes outside the
      order keep their scores. */
  function Epoch(g: Graph, labels: seq<int>, emb: seq<Vec>, dim: nat, order: seq<int>): (r: seq<Vec>)
    requires Valid(g) && |labels| == g.size && |emb| == g.size && AllDim(emb, dim)
    requires forall k :: 0 <= k < |order| ==> 0 <= order[k] < g.size
    ensures |r| == |emb| && AllDim(r, dim)
    ensures forall y :: 0 <= y < |emb| && (labels[y] != UNLABELLED || y !in order) ==> r[y] == emb[y]
    decreases |order|
  {
    if |order| == 0 then emb
    else
      var prev := Epoch(g, labels, emb, dim, order[..|order| - 1]);
      var x := order[|order| - 1];
      assert forall y :: y !in order ==> y !in order[..|order| - 1];
      if labels[x] == UNLABELLED then Update(g, prev, x, dim) else prev
  }

  /** An epoch is the sweep over its unlabelled nodes. */
  lemma {:induction false} EpochIsSweep(g: Graph, labels: seq<int>, emb: seq<Vec>, dim: nat, order: seq<int>)
    requires Valid(g) && |labels| == g.size && |emb| == g.size && AllDim(emb, dim)
    requires forall k :: 0 <= k < |order| ==> 0 <= order[k] < g.size
    ensures Epoch(g, labels, emb, dim, order) == Sweep(g, emb, dim, Unlabelled(order, labels))
    decreases |order|
  {
    if |order| > 0 {
      var k := |order| - 1;
      var x := order[k];
      EpochIsSweep(g, labels, emb, dim, order[..k]);
      var u := Unlabelled(order[..k], labels);
      if labels[x] == UNLABELLED {
        var u' := u + [x];
        assert Unlabelled(order, labels) == u';
        assert u'[..|u'| - 1] == u && u'[|u'| - 1] == x;
      } else {
        assert Unlabelled(order, labels) == u;
      }
    }
  }

  /** Epoch k of a run is the epoch over orders[k]. */
  function Epochs(g: Graph, labels: seq<int>, emb: seq<Vec>, dim: nat, orders: seq<seq<int>>): (r: seq<Vec>)
    requires Valid(g) && |labels| == g.size && |emb| == g.size && AllDim(emb, dim)
    requires Sampling.OrdersBelow(orders, g.size)
    ensures |r| == |emb| && AllDim(r, dim)
    decreases |orders|
  {
    if |orders| == 0 then emb
    else Epoch(g, labels, Epochs(g, labels, emb, dim, orders[..|orders| - 1]), dim, orders[|orders| - 1])
  }

  /** The nodes the epochs update, epoch after epoch. */
  function UpdatesOf(orders: seq<seq<int>>, labels: seq<int>): (r: seq<int>)
    requires Sampling.OrdersBelow(orders, |labels|)
    ensures forall k :: 0 <= k < |r| ==> 0 <= r[k] < |labels| && labels[r[k]] == UNLABELLED
    decreases |orders|
  {
    if |orders| == 0 then []
    else UpdatesOf(orders[..|orders| - 1], labels) + Unlabelled(orders[|orders| - 1], labels)
  }

  /** The epochs are the sweep over the nodes they update. */
  lemma {:induction false} EpochsIsSweep(g: Graph, labels: seq<int>, emb: seq<Vec>, dim: nat, orders: seq<seq<int>>)
    requires Valid(g) && |labels| == g.size && |emb| == g.size && AllDim(emb, dim)
    requires Sampling.OrdersBelow(orders, g.size)
    ensures Epochs(g, labels, emb, dim, orders) == Sweep(g, emb, dim, UpdatesOf(orders, labels))
    decreases |orders|
  {
    if |orders| > 0 {
      var k := |orders| - 1;
      EpochsIsSweep(g, labels, emb, dim, orders[..k]);
      var prev := Epochs(g, labels, emb, dim, orders[..k]);
      EpochIsSweep(g, labels, prev, dim, orders[k]);
      SweepAppend(g, emb, dim, UpdatesOf(orders[..k], labels), Unlabelled(orders[k], labels));
    }
  }

  /** Each unlabelled node updated `times` times, nothing else updated. */
  ghost predicate UpdatedEach(log: seq<int>, labels: seq<int>, times: nat)
  {
    forall v :: multiset(log)[v] == if 0 <= v < |labels| && labels[v] == UNLABELLED then times else 0
  }

  /** The updates of one more epoch add one update per unlabelled node. */
  lemma EpochUpdates(log: seq<int>, order: seq<int>, labels: seq<int>, times: nat)
    requires UpdatedEach(log, labels, times) && IsOrderOf(order, |labels|)
    requires forall k :: 0 <= k < |order| ==> 0 <= order[k] < |labels|
    ensures UpdatedEach(log + Unlabelled(order, labels), labels, times + 1)
  {
    Sampling.OrderCounts(order, |labels|);
  }

  /** Over epochs that each visit every node once, every unlabelled node is
      updated once per epoch and no labelled node is updated. */
  lemma {:induction false} UpdatesCount(orders: seq<seq<int>>, labels: seq<int>)
    requires Sampling.OrdersBelow(orders, |labels|)
    requires forall e :: 0 <= e < |orders| ==> IsOrderOf(orders[e], |labels|)
    ensures UpdatedEach(UpdatesOf(orders, labels), labels, |orders|)
    decreases |orders|
  {
    if |orders| > 0 {
      var k := |orders| - 1;
      UpdatesCount(orders[..k], labels);
      EpochUpdates(UpdatesOf(orders[..k], labels), orders[k], labels, k);
    }
  }

  /** The epoch over order[..t + 1] is the epoch over order[..t] followed
      by the visit of order[t]. */
  lemma EpochStep(g: Graph, labels: seq<int>, emb: seq<Vec>, dim: nat, order: seq<int>, t: int)
    requires Valid(g) && |labels| == g.size && |emb| == g.size && AllDim(emb, dim)
    requires forall k :: 0 <= k < |order| ==> 0 <= order[k] < g.size
    requires 0 <= t < |order|
    ensures var prev := Epoch(g, labels, emb, dim, order[..t]);
      Epoch(g, labels, emb, dim, order[..t + 1])
        == if labels[order[t]] == UNLABELLED then Update(g, prev, order[t], dim) else prev
  {
    assert order[..t + 1][..t] == order[..t];
  }

  /** One more epoch extends the epochs so far. */
  lemma EpochsSnoc(g: Graph, labels: seq<int>, emb: seq<Vec>, dim: nat, orders: seq<seq<int>>, order: seq<int>)
    requires Valid(g) && |labels| == g.size && |emb| == g.size && AllDim(emb, dim)
    requires Sampling.OrdersBelow(orders, g.size)
    requires |order| == g.size && forall k :: 0 <= k < |order| ==> 0 <= order[k] < g.size
    ensures Sampling.OrdersBelow(orders + [order], g.size)
    ensures Epochs(g, labels, emb, dim, orders + [order])
      == Epoch(g, labels, Epochs(g, labels, emb, dim, orders), dim, order)
  {
    Sampling.OrdersBelowSnoc(orders, order, g.size);
    var all := orders + [order];
    assert all[..|orders|] == orders && all[|orders|] == order;
  }

  /** One epoch: update the unlabelled nodes of order, in order. */
  method RunEpoch(g: Graph, labels: seq<int>, emb: seq<Vec>, dim: nat, order: seq<int>)
    returns (r: seq<Vec>)
    requires Valid(g) && |labels| == g.size && |emb| == g.size && AllDim(emb, dim)
    requires forall k :: 0 <= k < |order| ==> 0 <= order[k] < g.size
    ensures r == Epoch(g, labels, emb, dim, order)
    ensures r == Sweep(g, emb, dim, Unlabelled(order, labels))
    ensures UnitScores(emb) ==> UnitScores(r)
  {
    r := emb;
    for t := 0 to |order|
      invariant r == Epoch(g, labels, emb, dim, order[..t])
    {
      EpochStep(g, labels, emb, dim, order, t);
      var x := order[t];
      if labels[x] == UNLABELLED {
        r := Update(g, r, x, dim);
      }
    }
    assert order[..|order|] == order;
    EpochIsSweep(g, labels, emb, dim, order);
    if UnitScores(emb) {
      SweepKeepsUnit(g, emb, dim, Unlabelled(order, labels));
    }
  }

  /** The constructor `LabelPropagation(base, label)` with the class count
      card: one-hot start, then EPOCHS epochs over fresh permutations.
      Returns the scores, the epoch orders and the log of updated nodes;
      the scores are the sweep of the start over that log. */
  method Train(g: Graph, labels: seq<int>, card: nat, orderDraws: seq<seq<int>>)
    returns (emb: seq<Vec>, orders: seq<seq<int>>, updates: seq<int>)
    requires Valid(g) && |labels| == g.size && LabelsWithin(labels, card)
    requires Sampling.OrderDraws(orderDraws, EPOCHS, g.size)
    ensures orders == Sampling.Orders(g.size, orderDraws)
    ensures emb == Epochs(g, labels, Initial(labels, card), card, orders)
    ensures updates == UpdatesOf(orders, labels) && emb == Sweep(g, Initial(labels, card), card, updates)
    ensures UpdatedEach(updates, labels, EPOCHS)
    ensures |emb| == g.size && AllDim(emb, card) && UnitScores(emb)
    ensures forall y :: 0 <= y < g.size && labels[y] != UNLABELLED ==> emb[y] == Initial(labels, card)[y]
  {
    var start := Initial(labels, card);
    emb, orders := RunEpochs(g, labels, start, card, orderDraws);
    updates := UpdatesOf(orders, labels);
    EpochsIsSweep(g, labels, start, card, orders);
    SweepKeepsUnit(g, start, card, updates);
    Sampling.OrdersAreOrders(g.size, orderDraws);
    UpdatesCount(orders, labels);
  }

  /** The EPOCHS epochs of the constructor, each over a fresh shuffle of
      the nodes. */
  method RunEpochs(g: Graph, labels: seq<int>, start: seq<Vec>, dim: nat, orderDraws: seq<seq<int>>)
    returns (emb: seq<Vec>, orders: seq<seq<int>>)
    requires Valid(g) && |labels| == g.size && |start| == g.size && AllDim(start, dim)
    requires Sampling.OrderDraws(orderDraws, EPOCHS, g.size)
    ensures orders == Sampling.Orders(g.size, orderDraws)
    ensures emb == Epochs(g, labels, start, dim, orders)
  {
    emb := start;
    orders := [];
    Sampling.OrdersStart(g.size, orderDraws);
    for e := 0 to EPOCHS
      invariant Sampling.OrdersSoFar(g.size, orderDraws, e, orders)
      invariant emb == Epochs(g, labels, start, dim, orders)
    {
      emb, orders := NextEpoch(g, labels, start, dim, orderDraws, e, emb, orders);
    }
    Sampling.OrdersDone(g.size, orderDraws, orders);
  }

  /** Epoch `e` of `RunEpochs`: shuffle the previous order and sweep it. */
  method NextEpoch(g: Graph, labels: seq<int>, start: seq<Vec>, dim: nat, orderDraws: seq<seq<int>>, e: nat,
                   emb: seq<Vec>, orders: seq<seq<int>>)
    returns (emb': seq<Vec>, orders': seq<seq<int>>)
    requires Valid(g) && |labels| == g.size && |start| == g.size && AllDim(start, dim)
    requires e < |orderDraws| && Sampling.OrdersSoFar(g.size, orderDraws, e, orders)
    requires emb == Epochs(g, labels, start, dim, orders)
    ensures Sampling.OrdersSoFar(g.size, orderDraws, e + 1, orders')
    ensures emb' == Epochs(g, labels, start, dim, orders')
  {
    var order := Sampling.NextOrder(g.size, orderDraws, e, orders);
    emb' := RunEpoch(g, labels, emb, dim, order);
    EpochsSnoc(g, labels, start, dim, orders, order);
    orders' := orders + [order];
  }
}

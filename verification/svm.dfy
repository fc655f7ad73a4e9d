/** The concrete solvers of svm.cpp. `LinearSVM` is dual coordinate descent
    for the hinge-loss SVM without bias: it keeps the dual coefficients
    alpha (one per example, boxed by the example's penalty) together with
    the primal vector w = sum of label[i] * alpha[i] * feature[i], and for
    two epochs visits the examples in a fresh random order, moving each
    alpha[i] to the minimiser of the dual objective along that coordinate.
    `KernelSVM` has an empty body. */
module LinearSolver {
  import opened Seqs
  import opened Vectors
  import Sampling

  /** Number of passes over the examples (LINEAR_EPOCHS). */
  const LINEAR_EPOCHS: nat := 2

  /** The arguments of `LinearSVM` besides the coefficient vector. */
  datatype Problem = Problem(feature: seq<Vec>, labels: seq<int>, posPenalty: real, negPenalty: real)

  /** What `LinearSVM` reads without going out of range: `feature[0]` exists
      (its length is the dimension), and there is one feature of that
      dimension and one label per coefficient. */
  predicate WellFormed(p: Problem, coeff: seq<real>)
  {
    && |p.feature| >= 1
    && |p.labels| == |p.feature| && |coeff| == |p.feature|
    && AllDim(p.feature, |p.feature[0]|)
  }

  function Dim(p: Problem): nat
    requires |p.feature| >= 1
  {
    |p.feature[0]|
  }

  /** Penalty U of example i: the positive penalty for label 1, the negative
      one for every other label. */
  function Bound(p: Problem, i: int): real
    requires 0 <= i < |p.labels|
  {
    if p.labels[i] == 1 then p.posPenalty else p.negPenalty
  }

  predicate InBox(p: Problem, coeff: seq<real>)
    requires |coeff| == |p.labels|
  {
    forall i :: 0 <= i < |coeff| ==> 0.0 <= coeff[i] <= Bound(p, i)
  }

  /** Labels of a binary problem are +1 or -1. */
  predicate UnitLabels(p: Problem)
  {
    forall i :: 0 <= i < |p.labels| ==> p.labels[i] == 1 || p.labels[i] == -1
  }

  /** An integer label times a real. */
  function Signed(l: int, x: real): real
  {
    (l as real) * x
  }

  lemma SignedDifference(l: int, c: real, c': real, f: real)
    ensures (Signed(l, c') - Signed(l, c)) * f == Signed(l, c' - c) * f
  {
  }

  /** label[i] * alpha[i]: the weight of feature i in the primal vector. */
  function SignedWeights(p: Problem, coeff: seq<real>): (r: seq<real>)
    requires |coeff| == |p.labels|
    ensures |r| == |coeff|
  {
    seq(|coeff|, i requires 0 <= i < |coeff| => Signed(p.labels[i], coeff[i]))
  }

  /** The primal vector w(alpha) = sum of label[i] * alpha[i] * feature[i]. */
  function Primal(p: Problem, coeff: seq<real>): (w: Vec)
    requires WellFormed(p, coeff)
    ensures |w| == Dim(p)
  {
    Combine(SignedWeights(p, coeff), p.feature, Dim(p))
  }

  /** The dual objective 1/2 |w(alpha)|^2 - sum of alpha. */
  function Dual(p: Problem, coeff: seq<real>): real
    requires WellFormed(p, coeff)
  {
    Dot(Primal(p, coeff), Primal(p, coeff)) / 2.0 - RealSum(coeff)
  }

  /** The warm start: w accumulated over the strictly positive coefficients
      only. For a non-negative start it is the primal vector. */
  function WarmStart(p: Problem, coeff: seq<real>): (w: Vec)
    requires WellFormed(p, coeff)
    ensures |w| == Dim(p)
    ensures Sampling.NonNegative(coeff) ==> w == Primal(p, coeff)
  {
    var masked := seq(|coeff|, i requires 0 <= i < |coeff| =>
      if coeff[i] > 0.0 then Signed(p.labels[i], coeff[i]) else 0.0);
    assert Sampling.NonNegative(coeff) ==> masked == SignedWeights(p, coeff);
    Combine(masked, p.feature, Dim(p))
  }

  /** The diagonal entry Q[i] = |feature[i]|^2. */
  function Curvature(p: Problem, i: int): (q: real)
    requires 0 <= i < |p.feature|
    ensures q >= 0.0
  {
    SqrNormNonNegative(p.feature[i]);
    Dot(p.feature[i], p.feature[i])
  }

  /** The solver's state: the coefficients and the maintained primal vector. */
  datatype State = State(coeff: seq<real>, w: Vec)

  predicate StateFits(p: Problem, s: State)
  {
    WellFormed(p, s.coeff) && |s.w| == Dim(p)
  }

  /** The partial derivative of the dual objective along alpha[i]:
      G = label[i] * <w, feature[i]> - 1. */
  function Gradient(p: Problem, s: State, i: int): real
    requires StateFits(p, s) && 0 <= i < |s.coeff|
  {
    Signed(p.labels[i], Dot(s.w, p.feature[i])) - 1.0
  }

  /** The projected gradient: G, cut to its non-positive part at the lower
      bound 0 and to its non-negative part at the upper bound u. It is zero
      exactly when no move inside [0, u] can lower the objective. */
  function ProjectedGradient(g: real, c: real, u: real): (pg: real)
    ensures c != 0.0 && c != u ==> pg == g
    ensures pg == 0.0 <==> (g == 0.0 || (c == 0.0 && g > 0.0 && c != u) || (c == u && g < 0.0 && c != 0.0)
                                     || (c == 0.0 && c == u))
  {
    var pg1 := if c == 0.0 then Min(g, 0.0) else g;
    if c == u then Max(pg1, 0.0) else pg1
  }

  /** The new coefficient min(max(c - g/q, 0), u). When q is zero (an
      all-zero feature vector), g/q is an infinity whose sign is that of g
      (g is non-zero whenever a step is taken), so the result is u for
      g < 0 and min(0, u) otherwise. */
  function NewCoefficient(c: real, g: real, q: real, u: real): real
  {
    if q == 0.0 then (if g < 0.0 then u else Min(0.0, u))
    else Min(Max(c - g / q, 0.0), u)
  }

  /** The change of the dual objective along one coordinate when it moves
      from c to a, with gradient g and curvature q at c. */
  function DualChange(q: real, g: real, c: real, a: real): real
  {
    q / 2.0 * ((a - c) * (a - c)) + g * (a - c)
  }

  /** One coordinate step on example i. */
  function Step(p: Problem, s: State, i: int): (r: State)
    requires StateFits(p, s) && 0 <= i < |s.coeff|
    ensures StateFits(p, r) && |r.coeff| == |s.coeff|
    ensures forall j :: 0 <= j < |s.coeff| && j != i ==> r.coeff[j] == s.coeff[j]
    ensures ProjectedGradient(Gradient(p, s, i), s.coeff[i], Bound(p, i)) == 0.0 ==> r == s
    ensures ProjectedGradient(Gradient(p, s, i), s.coeff[i], Bound(p, i)) != 0.0 ==>
      r.coeff[i] == NewCoefficient(s.coeff[i], Gradient(p, s, i), Curvature(p, i), Bound(p, i))
    ensures Bound(p, i) >= 0.0 && 0.0 <= s.coeff[i] <= Bound(p, i) ==> 0.0 <= r.coeff[i] <= Bound(p, i)
  {
    var g := Gradient(p, s, i);
    var u := Bound(p, i);
    var c := s.coeff[i];
    if ProjectedGradient(g, c, u) == 0.0 then s
    else
      var c' := NewCoefficient(c, g, Curvature(p, i), u);
      State(s.coeff[i := c'], AddScaled(s.w, Signed(p.labels[i], c' - c), p.feature[i]))
  }

  /** A step that moves changes one coefficient and adds the change, times
      the label, times the feature to w. */
  lemma StepShape(p: Problem, s: State, i: int)
    requires StateFits(p, s) && 0 <= i < |s.coeff|
    ensures Step(p, s, i) == s || Step(p, s, i) == State(s.coeff[i := Step(p, s, i).coeff[i]],
      AddScaled(s.w, Signed(p.labels[i], Step(p, s, i).coeff[i] - s.coeff[i]), p.feature[i]))
  {
  }

  /** Moving coefficient i from coeff[i] to v and adding
      label[i] * (v - coeff[i]) * feature[i] to w keeps w the primal vector. */
  lemma UpdateKeepsPrimal(p: Problem, coeff: seq<real>, w: Vec, i: int, v: real)
    requires WellFormed(p, coeff) && 0 <= i < |coeff|
    requires w == Primal(p, coeff)
    ensures AddScaled(w, Signed(p.labels[i], v - coeff[i]), p.feature[i]) == Primal(p, coeff[i := v])
  {
    var ws := SignedWeights(p, coeff);
    var sv := Signed(p.labels[i], v);
    var coeff' := coeff[i := v];
    var ws' := SignedWeights(p, coeff');
    var w' := AddScaled(w, Signed(p.labels[i], v - coeff[i]), p.feature[i]);
    forall j | 0 <= j < |ws|
      ensures ws'[j] == ws[i := sv][j]
    {
      if j == i {
        assert coeff'[j] == v;
      } else {
        assert coeff'[j] == coeff[j];
      }
    }
    assert ws' == ws[i := sv];
    forall k | 0 <= k < Dim(p)
      ensures w'[k] == Primal(p, coeff')[k]
    {
      ColumnSumUpdate(ws, p.feature, k, i, sv);
      SignedDifference(p.labels[i], coeff[i], v, p.feature[i][k]);
    }
  }

  /** A step keeps w equal to the primal vector of the coefficients. */
  lemma StepKeepsPrimal(p: Problem, s: State, i: int)
    requires StateFits(p, s) && 0 <= i < |s.coeff|
    requires s.w == Primal(p, s.coeff)
    ensures Step(p, s, i).w == Primal(p, Step(p, s, i).coeff)
  {
    StepShape(p, s, i);
    if Step(p, s, i) != s {
      UpdateKeepsPrimal(p, s.coeff, s.w, i, Step(p, s, i).coeff[i]);
    }
  }

  /** x >= y >= 0 gives x^2 >= y^2. */
  lemma SquareMonotone(x: real, y: real)
    requires x >= y >= 0.0
    ensures x * x >= y * y
  {
    assert x * x - y * y == (x - y) * (x + y);
  }

  /** Clamping m into [0, u] gives the point of [0, u] nearest to m. */
  lemma ClampIsNearest(m: real, u: real, a: real)
    requires 0.0 <= a <= u
    ensures (Min(Max(m, 0.0), u) - m) * (Min(Max(m, 0.0), u) - m) <= (a - m) * (a - m)
  {
    if m < 0.0 {
      SquareMonotone(a - m, 0.0 - m);
    } else if m > u {
      SquareMonotone(m - a, m - u);
      assert (a - m) * (a - m) == (m - a) * (m - a);
      assert (u - m) * (u - m) == (m - u) * (m - u);
    } else {
      SquareNonNegative(a - m);
    }
  }

  lemma SquareNonNegative(x: real)
    ensures x * x >= 0.0
  {
    if x >= 0.0 {
      SquareMonotone(x, 0.0);
    } else {
      SquareMonotone(-x, 0.0);
      assert (-x) * (-x) == x * x;
    }
  }

  /** The change along one coordinate, completed to a square around the
      unconstrained minimiser c - e (where g = q * e). */
  lemma DualChangeCentered(q: real, e: real, c: real, x: real)
    ensures DualChange(q, q * e, c, x) == q / 2.0 * ((x - (c - e)) * (x - (c - e))) - q / 2.0 * (e * e)
  {
  }

  lemma ScaleMonotone(h: real, x: real, y: real)
    requires h >= 0.0 && x <= y
    ensures h * x <= h * y
  {
    assert h * y - h * x == h * (y - x);
  }

  /** The new coefficient minimises the dual objective along the coordinate
      over the whole box [0, u], for every non-negative curvature. */
  lemma {:induction false} NewCoefficientMinimizes(c: real, g: real, q: real, u: real, a: real)
    requires q >= 0.0 && 0.0 <= a <= u
    ensures 0.0 <= NewCoefficient(c, g, q, u) <= u
    ensures DualChange(q, g, c, NewCoefficient(c, g, q, u)) <= DualChange(q, g, c, a)
  {
    var r := NewCoefficient(c, g, q, u);
    if q == 0.0 {
      if g < 0.0 {
        assert g * (r - c) - g * (a - c) == g * (u - a);
        ScaleMonotone(-g, 0.0, u - a);
      } else {
        assert g * (r - c) - g * (a - c) == g * (0.0 - a);
        ScaleMonotone(g, 0.0, a);
      }
    } else {
      var e := g / q;
      assert g == q * e;
      var m := c - e;
      DualChangeCentered(q, e, c, r);
      DualChangeCentered(q, e, c, a);
      ClampIsNearest(m, u, a);
      ScaleMonotone(q / 2.0, (r - m) * (r - m), (a - m) * (a - m));
    }
  }

  /** When the projected gradient is zero, the current coefficient is
      already a minimiser along the coordinate over [0, u]. */
  lemma ZeroProjectedGradientIsOptimal(c: real, g: real, q: real, u: real, a: real)
    requires q >= 0.0 && 0.0 <= c <= u && 0.0 <= a <= u
    requires ProjectedGradient(g, c, u) == 0.0
    ensures DualChange(q, g, c, c) <= DualChange(q, g, c, a)
  {
    SquareNonNegative(a - c);
    ScaleMonotone(q / 2.0, 0.0, (a - c) * (a - c));
    if c == 0.0 && c != u {
      ScaleMonotone(g, 0.0, a);
    } else if c == u && c != 0.0 {
      ScaleMonotone(-g, 0.0, u - a);
      assert g * (a - c) == -g * (u - a);
    }
  }

  /** The dual objective after moving coefficient i to v is the old one
      plus the change along that coordinate (labels +1 and -1, so
      label^2 = 1). */
  lemma UpdateDualChange(p: Problem, coeff: seq<real>, w: Vec, i: int, v: real)
    requires WellFormed(p, coeff) && 0 <= i < |coeff|
    requires w == Primal(p, coeff)
    requires p.labels[i] == 1 || p.labels[i] == -1
    ensures Dual(p, coeff[i := v])
         == Dual(p, coeff) + DualChange(Curvature(p, i), Signed(p.labels[i], Dot(w, p.feature[i])) - 1.0, coeff[i], v)
  {
    UpdateKeepsPrimal(p, coeff, w, i, v);
    RealSumUpdate(coeff, i, v);
    var w' := Primal(p, coeff[i := v]);
    assert w' == AddScaled(w, Signed(p.labels[i], v - coeff[i]), p.feature[i]);
    var ww, wf, ff, nn := Dot(w, w), Dot(w, p.feature[i]), Dot(p.feature[i], p.feature[i]), Dot(w', w');
    var t := Signed(p.labels[i], v - coeff[i]);
    var rs, rs' := RealSum(coeff), RealSum(coeff[i := v]);
    var c := coeff[i];
    NormOfUpdate(w, t, p.feature[i], w', nn, ww, wf, ff);
    assert rs' == rs - c + v;
    assert Dual(p, coeff[i := v]) == nn / 2.0 - rs';
    assert Dual(p, coeff) == ww / 2.0 - rs;
    assert Curvature(p, i) == ff;
    DualAlgebra(Dual(p, coeff[i := v]), Dual(p, coeff), ww, wf, ff, rs, c, v, p.labels[i], t, nn, rs');
  }

  /** DotAddScaled restated over names for its four inner products. */
  lemma NormOfUpdate(w: Vec, t: real, f: Vec, w': Vec, nn: real, ww: real, wf: real, ff: real)
    requires |w| == |f| && w' == AddScaled(w, t, f)
    requires nn == Dot(w', w') && ww == Dot(w, w) && wf == Dot(w, f) && ff == Dot(f, f)
    ensures nn == ww + 2.0 * Times(t, wf) + Times(Times(t, t), ff)
  {
    DotAddScaled(w, t, f);
  }

  /** The scalar identity behind UpdateDualChange. */
  lemma DualAlgebra(dualNew: real, dualOld: real, ww: real, wf: real, ff: real, rs: real,
                    c: real, c': real, l: int, t: real, nn: real, rsNew: real)
    requires l == 1 || l == -1
    requires t == Signed(l, c' - c)
    requires nn == ww + 2.0 * Times(t, wf) + Times(Times(t, t), ff)
    requires rsNew == rs - c + c'
    requires dualNew == nn / 2.0 - rsNew
    requires dualOld == ww / 2.0 - rs
    ensures dualNew == dualOld + DualChange(ff, Signed(l, wf) - 1.0, c, c')
  {
    if l == 1 {
      assert t == c' - c;
      assert Signed(l, wf) == wf;
    } else {
      assert t == c - c';
      assert Signed(l, wf) == -wf;
      assert (c - c') * (c - c') == (c' - c) * (c' - c);
    }
  }

  /** The dual objective after a step is the old one plus the change along
      the coordinate. */
  lemma StepDualChange(p: Problem, s: State, i: int)
    requires StateFits(p, s) && 0 <= i < |s.coeff|
    requires s.w == Primal(p, s.coeff)
    requires p.labels[i] == 1 || p.labels[i] == -1
    ensures Dual(p, Step(p, s, i).coeff)
         == Dual(p, s.coeff) + DualChange(Curvature(p, i), Gradient(p, s, i), s.coeff[i], Step(p, s, i).coeff[i])
  {
    StepShape(p, s, i);
    if Step(p, s, i) != s {
      UpdateDualChange(p, s.coeff, s.w, i, Step(p, s, i).coeff[i]);
    }
  }

  /** A step never increases the dual objective, from a state inside the box. */
  lemma StepDecreasesDual(p: Problem, s: State, i: int)
    requires StateFits(p, s) && 0 <= i < |s.coeff|
    requires s.w == Primal(p, s.coeff)
    requires p.labels[i] == 1 || p.labels[i] == -1
    requires 0.0 <= s.coeff[i] <= Bound(p, i)
    ensures Dual(p, Step(p, s, i).coeff) <= Dual(p, s.coeff)
  {
    var g, c, q, u := Gradient(p, s, i), s.coeff[i], Curvature(p, i), Bound(p, i);
    StepDualChange(p, s, i);
    if ProjectedGradient(g, c, u) != 0.0 {
      NewCoefficientMinimizes(c, g, q, u, c);
    }
  }

  /** Whether every entry of an order names an example. */
  predicate IndicesBelow(order: seq<int>, n: int)
  {
    forall k :: 0 <= k < |order| ==> 0 <= order[k] < n
  }

  /** Steps on order[0], order[1], ... in turn. */
  function Pass(p: Problem, s: State, order: seq<int>): (r: State)
    requires StateFits(p, s) && IndicesBelow(order, |s.coeff|)
    ensures StateFits(p, r) && |r.coeff| == |s.coeff|
    decreases |order|
  {
    if |order| == 0 then s
    else Step(p, Pass(p, s, order[..|order| - 1]), order[|order| - 1])
  }

  /** A pass keeps w the primal vector of the coefficients. */
  lemma {:induction false} PassKeepsPrimal(p: Problem, s: State, order: seq<int>)
    requires StateFits(p, s) && IndicesBelow(order, |s.coeff|)
    requires s.w == Primal(p, s.coeff)
    ensures Pass(p, s, order).w == Primal(p, Pass(p, s, order).coeff)
    decreases |order|
  {
    if |order| > 0 {
      PassKeepsPrimal(p, s, order[..|order| - 1]);
      StepKeepsPrimal(p, Pass(p, s, order[..|order| - 1]), order[|order| - 1]);
    }
  }

  /** With non-negative penalties a pass keeps every coefficient in its box. */
  lemma {:induction false} PassKeepsBox(p: Problem, s: State, order: seq<int>)
    requires StateFits(p, s) && IndicesBelow(order, |s.coeff|)
    requires InBox(p, s.coeff)
    ensures InBox(p, Pass(p, s, order).coeff)
    decreases |order|
  {
    if |order| > 0 {
      PassKeepsBox(p, s, order[..|order| - 1]);
    }
  }

  /** A pass from a state inside the box never increases the dual objective. */
  lemma {:induction false} PassDecreasesDual(p: Problem, s: State, order: seq<int>)
    requires StateFits(p, s) && IndicesBelow(order, |s.coeff|)
    requires s.w == Primal(p, s.coeff) && InBox(p, s.coeff) && UnitLabels(p)
    ensures Dual(p, Pass(p, s, order).coeff) <= Dual(p, s.coeff)
    decreases |order|
  {
    if |order| > 0 {
      var prefix := order[..|order| - 1];
      PassDecreasesDual(p, s, prefix);
      PassKeepsPrimal(p, s, prefix);
      PassKeepsBox(p, s, prefix);
      StepDecreasesDual(p, Pass(p, s, prefix), order[|order| - 1]);
    }
  }

  /** One permutation draw sequence per epoch. */
  predicate EpochDraws(draws: seq<seq<int>>, n: nat)
  {
    |draws| == LINEAR_EPOCHS && forall e :: 0 <= e < |draws| ==> Sampling.PermutationDraws(draws[e], n)
  }

  /** Passes over orders[0], orders[1], ... in turn. */
  function Passes(p: Problem, s: State, orders: seq<seq<int>>): (r: State)
    requires StateFits(p, s)
    requires forall e :: 0 <= e < |orders| ==> IndicesBelow(orders[e], |s.coeff|)
    ensures StateFits(p, r) && |r.coeff| == |s.coeff|
    decreases |orders|
  {
    if |orders| == 0 then s
    else Pass(p, Passes(p, s, orders[..|orders| - 1]), orders[|orders| - 1])
  }

  /** The three invariants of a pass carry over to any number of passes. */
  lemma {:induction false} PassesKeepInvariants(p: Problem, s: State, orders: seq<seq<int>>)
    requires StateFits(p, s)
    requires forall e :: 0 <= e < |orders| ==> IndicesBelow(orders[e], |s.coeff|)
    ensures s.w == Primal(p, s.coeff) ==> Passes(p, s, orders).w == Primal(p, Passes(p, s, orders).coeff)
    ensures InBox(p, s.coeff) ==> InBox(p, Passes(p, s, orders).coeff)
    ensures s.w == Primal(p, s.coeff) && InBox(p, s.coeff) && UnitLabels(p) ==>
      Dual(p, Passes(p, s, orders).coeff) <= Dual(p, s.coeff)
    decreases |orders|
  {
    if |orders| > 0 {
      var prefix := orders[..|orders| - 1];
      var order := orders[|orders| - 1];
      PassesKeepInvariants(p, s, prefix);
      var mid := Passes(p, s, prefix);
      if s.w == Primal(p, s.coeff) {
        PassKeepsPrimal(p, mid, order);
      }
      if InBox(p, s.coeff) {
        PassKeepsBox(p, mid, order);
        if s.w == Primal(p, s.coeff) && UnitLabels(p) {
          PassDecreasesDual(p, mid, order);
        }
      }
    }
  }

  /** The inner loop of an epoch: one step per entry of the order. */
  method RunPass(p: Problem, s: State, order: seq<int>) returns (r: State)
    requires StateFits(p, s) && IndicesBelow(order, |s.coeff|)
    ensures r == Pass(p, s, order)
  {
    r := s;
    for t := 0 to |order|
      invariant r == Pass(p, s, order[..t])
    {
      assert order[..t + 1][..t] == order[..t];
      r := Step(p, r, order[t]);
    }
    assert order[..|order|] == order;
  }

  lemma InBoxNonNegative(p: Problem, coeff: seq<real>)
    requires |coeff| == |p.labels| && InBox(p, coeff)
    ensures Sampling.NonNegative(coeff)
  {
  }

  /** One more pass extends the passes so far. */
  lemma PassesSnoc(p: Problem, s: State, orders: seq<seq<int>>, order: seq<int>)
    requires StateFits(p, s)
    requires forall e :: 0 <= e < |orders| ==> IndicesBelow(orders[e], |s.coeff|)
    requires IndicesBelow(order, |s.coeff|)
    ensures Passes(p, s, orders + [order]) == Pass(p, Passes(p, s, orders), order)
  {
    assert (orders + [order])[..|orders|] == orders;
  }

  /** Pass `epoch` of `RunPasses`: permute the previous order and pass over
      it. */
  method NextPass(p: Problem, start: State, draws: seq<seq<int>>, epoch: nat, s: State, orders: seq<seq<int>>)
    returns (s': State, orders': seq<seq<int>>)
    requires StateFits(p, start)
    requires epoch < |draws| && Sampling.OrdersSoFar(|start.coeff|, draws, epoch, orders)
    requires s == Passes(p, start, orders)
    ensures Sampling.OrdersSoFar(|start.coeff|, draws, epoch + 1, orders')
    ensures s' == Passes(p, start, orders')
  {
    var order := Sampling.NextOrder(|start.coeff|, draws, epoch, orders);
    s' := RunPass(p, s, order);
    PassesSnoc(p, start, orders, order);
    orders' := orders + [order];
  }

  /** The epoch loop of `LinearSVM`: each epoch permutes the previous order
      and passes over it. */
  method RunPasses(p: Problem, start: State, draws: seq<seq<int>>) returns (s: State, orders: seq<seq<int>>)
    requires StateFits(p, start) && EpochDraws(draws, |start.coeff|)
    ensures orders == Sampling.Orders(|start.coeff|, draws)
    ensures s == Passes(p, start, orders)
  {
    s := start;
    orders := [];
    Sampling.OrdersStart(|start.coeff|, draws);
    for epoch := 0 to LINEAR_EPOCHS
      invariant Sampling.OrdersSoFar(|start.coeff|, draws, epoch, orders)
      invariant s == Passes(p, start, orders)
    {
      s, orders := NextPass(p, start, draws, epoch, s, orders);
    }
    Sampling.OrdersDone(|start.coeff|, draws, orders);
  }

  /** `LinearSVM(feature, label, pos_penalty, neg_penalty, coeff)`: warm
      start, then LINEAR_EPOCHS passes, each over a fresh permutation of the
      previous order. Returns the new coefficients, the final w and the
      orders of the passes. */
  method LinearSVM(p: Problem, coeff: seq<real>, draws: seq<seq<int>>)
    returns (result: seq<real>, w: Vec, orders: seq<seq<int>>)
    requires WellFormed(p, coeff)
    requires EpochDraws(draws, |coeff|)
    ensures |result| == |coeff| && |w| == Dim(p)
    ensures |orders| == LINEAR_EPOCHS
    ensures forall e :: 0 <= e < |orders| ==> IsOrderOf(orders[e], |coeff|)
    ensures forall e :: 0 <= e < |orders| ==> IndicesBelow(orders[e], |coeff|)
    ensures orders == Sampling.Orders(|coeff|, draws)
    ensures State(result, w) == Passes(p, State(coeff, WarmStart(p, coeff)), orders)
    ensures Sampling.NonNegative(coeff) ==> w == Primal(p, result)
    ensures InBox(p, coeff) ==> InBox(p, result)
    ensures InBox(p, coeff) && UnitLabels(p) ==> Dual(p, result) <= Dual(p, coeff)
  {
    var start := State(coeff, WarmStart(p, coeff));
    var s;
    s, orders := RunPasses(p, start, draws);
    result, w := s.coeff, s.w;
    Sampling.OrdersAreOrders(|coeff|, draws);
    assert s == Solve(p, coeff, Dim(p), draws);
    SolveKeepsInvariants(p, coeff, Dim(p), draws);
  }

  /** The problem a caller of `LinearSVM` may hand over: examples of one
      dimension, one coefficient each. */
  predicate Solvable(p: Problem, coeff: seq<real>, dim: nat, draws: seq<seq<int>>)
  {
    |p.labels| == |p.feature| && |coeff| == |p.feature| && AllDim(p.feature, dim)
    && EpochDraws(draws, |coeff|)
  }

  /** What `LinearSVM` computes from the coefficients and its permutation
      draws: the passes over the visiting orders the draws select, after the
      warm start; with no examples, the coefficients unchanged and w = 0. */
  function Solve(p: Problem, coeff: seq<real>, dim: nat, draws: seq<seq<int>>): (s: State)
    requires Solvable(p, coeff, dim, draws)
    ensures |s.coeff| == |coeff| && |s.w| == dim
    ensures |coeff| == 0 ==> s == State(coeff, Zeros(dim))
  {
    if |coeff| == 0 then State(coeff, Zeros(dim))
    else Passes(p, State(coeff, WarmStart(p, coeff)), Sampling.Orders(|coeff|, draws))
  }

  /** The solver keeps the box, lowers the dual and leaves w equal to the
      primal vector of the coefficients it returns. */
  lemma SolveKeepsInvariants(p: Problem, coeff: seq<real>, dim: nat, draws: seq<seq<int>>)
    requires Solvable(p, coeff, dim, draws)
    ensures |coeff| > 0 && Sampling.NonNegative(coeff) ==>
      Solve(p, coeff, dim, draws).w == Primal(p, Solve(p, coeff, dim, draws).coeff)
    ensures InBox(p, coeff) ==> InBox(p, Solve(p, coeff, dim, draws).coeff)
    ensures |coeff| > 0 && InBox(p, coeff) && UnitLabels(p) ==>
      Dual(p, Solve(p, coeff, dim, draws).coeff) <= Dual(p, coeff)
  {
    if |coeff| > 0 {
      var start := State(coeff, WarmStart(p, coeff));
      PassesKeepInvariants(p, start, Sampling.Orders(|coeff|, draws));
      if InBox(p, coeff) {
        InBoxNonNegative(p, coeff);
      }
    }
  }

  /** `LinearSVM` guarded against an empty example list: with no examples
      there is nothing to solve and the coefficients come back unchanged
      (the body above reads `feature[0]` unconditionally). The dimension is
      supplied by the caller, which knows it. */
  method GuardedLinearSVM(p: Problem, coeff: seq<real>, dim: nat, draws: seq<seq<int>>)
    returns (result: seq<real>, w: Vec)
    requires Solvable(p, coeff, dim, draws)
    ensures State(result, w) == Solve(p, coeff, dim, draws)
    ensures |result| == |coeff| && |w| == dim
    ensures |coeff| == 0 ==> result == coeff && w == Zeros(dim)
    ensures |coeff| > 0 && Sampling.NonNegative(coeff) ==> w == Primal(p, result)
    ensures |coeff| > 0 && InBox(p, coeff) ==> InBox(p, result)
    ensures |coeff| > 0 && InBox(p, coeff) && UnitLabels(p) ==> Dual(p, result) <= Dual(p, coeff)
  {
    if |coeff| == 0 {
      result, w := coeff, Zeros(dim);
    } else {
      var orders;
      result, w, orders := LinearSVM(p, coeff, draws);
    }
  }

  /** `KernelSVM(kernel, label, pos_penalty, neg_penalty, coeff)`: the body
      is empty, so the coefficients come back as they went in. */
  function KernelSVM(kernel: seq<seq<real>>, labels: seq<int>, posPenalty: real, negPenalty: real,
                     coeff: seq<real>): (r: seq<real>)
    ensures r == coeff
  {
    coeff
  }
}

/** The random helpers of utility.cpp with every draw of the generator made
    an explicit input: the swap-based `RandomPermutation`, the prefix-sum
    sampler `Prop_Sampler` and the linear-scan `prop_sample`. */
module Sampling {
  import opened Seqs

  /** One draw per position of a vector of length n, each in [0, n)
      (`uniform_int_distribution(0, size - 1)`). */
  predicate PermutationDraws(draws: seq<int>, n: nat)
  {
    |draws| == n && forall k :: 0 <= k < n ==> 0 <= draws[k] < n
  }

  /** One permutation draw sequence per epoch of a training loop over n
      nodes. */
  predicate OrderDraws(draws: seq<seq<int>>, epochs: nat, n: nat)
  {
    |draws| == epochs && forall e :: 0 <= e < epochs ==> PermutationDraws(draws[e], n)
  }

  /** An order of [0, n) holds each node once. */
  lemma OrderCounts(order: seq<int>, n: nat)
    requires IsOrderOf(order, n)
    ensures forall v :: multiset(order)[v] == (if 0 <= v < n then 1 else 0)
  {
    RangeCounts(n);
  }

  /** Node v has been visited `times` times by the log when v is a node, and
      never otherwise. */
  ghost predicate VisitedEach(log: seq<int>, n: nat, times: nat)
  {
    forall v :: multiset(log)[v] == (if 0 <= v < n then times else 0)
  }

  /** Appending one more visiting order adds one visit to every node. */
  lemma VisitOrder(log: seq<int>, order: seq<int>, n: nat, times: nat)
    requires VisitedEach(log, n, times) && IsOrderOf(order, n)
    ensures VisitedEach(log + order, n, times + 1)
  {
    OrderCounts(order, n);
  }

  /** The swaps of `RandomPermutation` for i = 0 .. k-1: position i is
      exchanged with position draws[i]. The result is a rearrangement of
      the input. */
  function Shuffle(vec: seq<int>, draws: seq<int>, k: nat): (r: seq<int>)
    requires PermutationDraws(draws, |vec|) && k <= |vec|
    ensures |r| == |vec|
    ensures multiset(r) == multiset(vec)
  {
    if k == 0 then vec
    else
      var r := Shuffle(vec, draws, k - 1);
      var i, t := k - 1, draws[k - 1];
      r[i := r[t]][t := r[i]]
  }

  /** `RandomPermutation`: for i = 0 .. n-1, swap vec[i] with vec[t] for the
      i-th draw t. The result is the full shuffle, a rearrangement of the
      input. */
  method RandomPermutation(vec: seq<int>, draws: seq<int>) returns (r: seq<int>)
    requires PermutationDraws(draws, |vec|)
    ensures r == Shuffle(vec, draws, |vec|)
    ensures |r| == |vec|
    ensures multiset(r) == multiset(vec)
  {
    r := vec;
    for i := 0 to |vec|
      invariant r == Shuffle(vec, draws, i)
    {
      var t := draws[i];
      r := r[i := r[t]][t := r[i]];
    }
  }

  /** Permuting a visiting order of [0, n) gives another visiting order. */
  method PermuteOrder(order: seq<int>, n: nat, draws: seq<int>) returns (r: seq<int>)
    requires IsOrderOf(order, n)
    requires PermutationDraws(draws, n)
    ensures |order| == n && r == Shuffle(order, draws, n)
    ensures IsOrderOf(r, n)
    ensures forall k :: 0 <= k < |r| ==> 0 <= r[k] < n
  {
    OrderElementsInRange(order, n);
    r := RandomPermutation(order, draws);
    OrderElementsInRange(r, n);
  }

  /** Entries of a sequence of orders all lie in [0, n) and each order
      has length n. */
  predicate OrdersBelow(orders: seq<seq<int>>, n: nat)
  {
    forall e :: 0 <= e < |orders| ==> |orders[e]| == n && forall k :: 0 <= k < n ==> 0 <= orders[e][k] < n
  }

  /** One more order of length n over [0, n) keeps the orders below n. */
  lemma OrdersBelowSnoc(orders: seq<seq<int>>, order: seq<int>, n: nat)
    requires OrdersBelow(orders, n)
    requires |order| == n && forall k :: 0 <= k < n ==> 0 <= order[k] < n
    ensures OrdersBelow(orders + [order], n)
  {
  }

  /** A rearrangement of a sequence over [0, n) is over [0, n) too. */
  lemma RearrangedBelow(a: seq<int>, b: seq<int>, n: nat)
    requires multiset(a) == multiset(b)
    requires forall k :: 0 <= k < |b| ==> 0 <= b[k] < n
    ensures forall k :: 0 <= k < |a| ==> 0 <= a[k] < n
  {
    forall k | 0 <= k < |a|
      ensures 0 <= a[k] < n
    {
      assert a[k] in multiset(b);
    }
  }

  /** The order the next epoch permutes: the last one, or [0, n) before the
      first epoch. */
  function Latest(n: nat, orders: seq<seq<int>>): (r: seq<int>)
    requires OrdersBelow(orders, n)
    ensures |r| == n && forall k :: 0 <= k < n ==> 0 <= r[k] < n
  {
    if |orders| == 0 then Range(n) else orders[|orders| - 1]
  }

  /** The visiting orders of a training loop over n nodes: epoch e shuffles
      the order of epoch e - 1 (the identity order before the first) with
      the e-th draw sequence. */
  function Orders(n: nat, draws: seq<seq<int>>): (r: seq<seq<int>>)
    requires forall e :: 0 <= e < |draws| ==> PermutationDraws(draws[e], n)
    ensures |r| == |draws|
    ensures OrdersBelow(r, n)
  {
    if |draws| == 0 then []
    else
      var prev := Orders(n, draws[..|draws| - 1]);
      var latest := Latest(n, prev);
      var next := Shuffle(latest, draws[|draws| - 1], n);
      RearrangedBelow(next, latest, n);
      OrdersBelowSnoc(prev, next, n);
      prev + [next]
  }

  /** Every order of the training loop is an order of [0, n): each node
      once per epoch. */
  lemma {:induction false} OrdersAreOrders(n: nat, draws: seq<seq<int>>)
    requires forall e :: 0 <= e < |draws| ==> PermutationDraws(draws[e], n)
    ensures forall e :: 0 <= e < |draws| ==> IsOrderOf(Orders(n, draws)[e], n)
    decreases |draws|
  {
    if |draws| > 0 {
      var prefix := draws[..|draws| - 1];
      OrdersAreOrders(n, prefix);
      var prev := Orders(n, prefix);
      assert IsOrderOf(Latest(n, prev), n);
    }
  }

  /** The orders of a run one after the other: the log of visited nodes. */
  function Concat(orders: seq<seq<int>>): (r: seq<int>)
    ensures |r| == TotalLength(orders)
  {
    if |orders| == 0 then [] else Concat(orders[..|orders| - 1]) + orders[|orders| - 1]
  }

  /** A run over the orders of `Orders` visits every node once per epoch and
      nothing else. */
  lemma {:induction false} OrdersVisitEach(n: nat, draws: seq<seq<int>>)
    requires forall e :: 0 <= e < |draws| ==> PermutationDraws(draws[e], n)
    ensures VisitedEach(Concat(Orders(n, draws)), n, |draws|)
    decreases |draws|
  {
    var orders := Orders(n, draws);
    if |draws| == 0 {
      assert Concat(orders) == [];
    } else {
      var k := |draws| - 1;
      OrdersVisitEach(n, draws[..k]);
      OrdersAreOrders(n, draws);
      assert orders[..k] == Orders(n, draws[..k]);
      VisitOrder(Concat(orders[..k]), orders[k], n, k);
    }
  }

  /** The state of an epoch loop after e epochs: `orders` are the orders of
      those epochs. */
  predicate OrdersSoFar(n: nat, draws: seq<seq<int>>, e: nat, orders: seq<seq<int>>)
  {
    && e <= |draws| && (forall k :: 0 <= k < |draws| ==> PermutationDraws(draws[k], n))
    && orders == Orders(n, draws[..e])
  }

  /** Before the first epoch there are no orders. */
  lemma OrdersStart(n: nat, draws: seq<seq<int>>)
    requires forall k :: 0 <= k < |draws| ==> PermutationDraws(draws[k], n)
    ensures OrdersSoFar(n, draws, 0, [])
  {
  }

  /** After the last epoch the orders are those of all the draws. */
  lemma OrdersDone(n: nat, draws: seq<seq<int>>, orders: seq<seq<int>>)
    requires OrdersSoFar(n, draws, |draws|, orders)
    ensures orders == Orders(n, draws)
  {
    assert draws[..|draws|] == draws;
  }

  /** One step of an epoch loop: the next order, which extends the orders
      so far to those of one more epoch. */
  method NextOrder(n: nat, draws: seq<seq<int>>, e: nat, orders: seq<seq<int>>) returns (order: seq<int>)
    requires e < |draws| && OrdersSoFar(n, draws, e, orders)
    ensures OrdersSoFar(n, draws, e + 1, orders + [order])
    ensures IsOrderOf(order, n) && |order| == n && forall k :: 0 <= k < |order| ==> 0 <= order[k] < n
  {
    order := RandomPermutation(Latest(n, orders), draws[e]);
    OrdersStep(n, draws, e);
    OrdersAreOrders(n, draws[..e + 1]);
    assert Orders(n, draws[..e + 1])[e] == order;
  }

  /** The orders of e + 1 epochs extend those of e epochs by one shuffle. */
  lemma OrdersStep(n: nat, draws: seq<seq<int>>, e: nat)
    requires e < |draws| && forall k :: 0 <= k < |draws| ==> PermutationDraws(draws[k], n)
    ensures Orders(n, draws[..e + 1])
      == Orders(n, draws[..e]) + [Shuffle(Latest(n, Orders(n, draws[..e])), draws[e], n)]
  {
    assert draws[..e + 1][..e] == draws[..e];
  }

  predicate NonNegative(x: seq<real>)
  {
    forall k :: 0 <= k < |x| ==> x[k] >= 0.0
  }

  /** `Prop_Sampler(x)`: ps[k] is the running sum x[0] + ... + x[k]. */
  method PropSampler(x: seq<real>) returns (ps: seq<real>)
    ensures |ps| == |x|
    ensures forall k :: 0 <= k < |x| ==> ps[k] == RealSum(x[..k + 1])
    ensures NonNegative(x) ==> forall k :: 0 < k < |ps| ==> ps[k - 1] <= ps[k]
    ensures NonNegative(x) ==> NonNegative(ps)
  {
    var sum := 0.0;
    ps := [];
    for k := 0 to |x|
      invariant |ps| == k
      invariant sum == RealSum(x[..k])
      invariant forall j :: 0 <= j < k ==> ps[j] == RealSum(x[..j + 1])
      invariant k > 0 ==> ps[k - 1] == sum && ps[0] == x[0]
      invariant forall j :: 0 < j < k ==> ps[j] == ps[j - 1] + x[j]
    {
      assert x[..k + 1] == x[..k] + [x[k]];
      RealSumAppend(x[..k], x[k]);
      sum := sum + x[k];
      ps := ps + [sum];
    }
    if NonNegative(x) {
      RunningSumsGrow(x, ps);
    }
  }

  /** Running sums of non-negative weights are non-negative and never
      decrease. */
  lemma {:induction false} RunningSumsGrow(x: seq<real>, ps: seq<real>)
    requires |ps| == |x| && NonNegative(x)
    requires |x| > 0 ==> ps[0] == x[0]
    requires forall j :: 0 < j < |x| ==> ps[j] == ps[j - 1] + x[j]
    ensures NonNegative(ps) && forall k :: 0 < k < |ps| ==> ps[k - 1] <= ps[k]
    decreases |x|
  {
    if |x| > 1 {
      var n := |x|;
      RunningSumsGrow(x[..n - 1], ps[..n - 1]);
      assert forall k :: 0 <= k < n - 1 ==> ps[..n - 1][k] == ps[k];
      assert ps[n - 1] == ps[n - 2] + x[n - 1];
    }
  }

  /** Index of the first entry of ps, at or after `from`, that is not below
      val, or |ps| if there is none (`std::lower_bound` on a sorted range). */
  function LowerBound(ps: seq<real>, val: real, from: nat): (r: nat)
    requires from <= |ps|
    ensures from <= r <= |ps|
    ensures forall j :: from <= j < r ==> ps[j] < val
    ensures r < |ps| ==> ps[r] >= val
    decreases |ps| - from
  {
    if from == |ps| then |ps|
    else if !(ps[from] < val) then from
    else LowerBound(ps, val, from + 1)
  }

  /** `Prop_Sampler::GetSample` with the uniform draw u: the first k with
      ps[k] >= ps.back() * u. With a non-negative total and u in [0, 1) the
      index is always a valid one. */
  function GetSample(ps: seq<real>, u: real): (r: nat)
    requires |ps| >= 1
    ensures r <= |ps|
    ensures forall j :: 0 <= j < r ==> ps[j] < ps[|ps| - 1] * u
    ensures r < |ps| ==> ps[r] >= ps[|ps| - 1] * u
    ensures ps[|ps| - 1] >= 0.0 && 0.0 <= u < 1.0 ==> r < |ps|
  {
    var total := ps[|ps| - 1];
    assert total >= 0.0 && 0.0 <= u < 1.0 ==> total * u <= total by {
      if total >= 0.0 && 0.0 <= u < 1.0 {
        assert total * (1.0 - u) >= 0.0;
      }
    }
    LowerBound(ps, total * u, 0)
  }

  /** The scan of `prop_sample`: return the first i with rem < x[i],
      subtracting x[i] from rem otherwise; fall back to 0. */
  function Scan(x: seq<real>, rem: real, i: nat): (r: int)
    requires i <= |x|
    ensures r == 0 || i <= r < |x|
    decreases |x| - i
  {
    if i == |x| then 0
    else if rem < x[i] then i
    else Scan(x, rem - x[i], i + 1)
  }

  /** `prop_sample(x)` with the uniform draw u: an index of x whenever x is
      non-empty (0 as the fallback). */
  function PropSample(x: seq<real>, u: real): (r: int)
    ensures |x| > 0 ==> 0 <= r < |x|
    ensures |x| == 0 ==> r == 0
  {
    Scan(x, RealSum(x) * u, 0)
  }

  lemma {:induction false} ScanBrackets(x: seq<real>, target: real, rem: real, i: nat) returns (r: int)
    requires i <= |x|
    requires NonNegative(x)
    requires rem == target - RealSum(x[..i]) && rem >= 0.0
    requires target < RealSum(x)
    ensures r == Scan(x, rem, i)
    ensures i <= r < |x|
    ensures RealSum(x[..r]) <= target < RealSum(x[..r + 1])
    decreases |x| - i
  {
    if i == |x| {
      WholePrefix(x);
      assert false;
    } else {
      assert x[..i + 1] == x[..i] + [x[i]];
      RealSumAppend(x[..i], x[i]);
      if rem < x[i] {
        r := i;
      } else {
        r := ScanBrackets(x, target, rem - x[i], i + 1);
      }
    }
  }

  lemma WholePrefix(x: seq<real>)
    ensures x[..|x|] == x
  {
  }

  lemma ScaledBelow(t: real, u: real, p: real)
    requires t > 0.0 && 0.0 <= u < 1.0 && p == t * u
    ensures 0.0 <= p < t
  {
    assert t * (1.0 - u) > 0.0;
  }

  /** With non-negative weights, a positive total and u in [0, 1),
      `prop_sample` never falls back: it returns the index i whose prefix-sum
      bracket [x[0]+..+x[i-1], x[0]+..+x[i]) holds u times the total, so a
      zero-weight index is never drawn. */
  lemma PropSampleBrackets(x: seq<real>, u: real) returns (r: int)
    requires NonNegative(x) && RealSum(x) > 0.0 && 0.0 <= u < 1.0
    ensures r == PropSample(x, u)
    ensures 0 <= r < |x| && x[r] > 0.0
    ensures RealSum(x[..r]) <= RealSum(x) * u < RealSum(x[..r + 1])
  {
    ScaledBelow(RealSum(x), u, RealSum(x) * u);
    assert x[..0] == [];
    r := ScanBrackets(x, RealSum(x) * u, RealSum(x) * u, 0);
    assert x[..r + 1] == x[..r] + [x[r]];
    RealSumAppend(x[..r], x[r]);
  }
}

/** evaluate.cpp: the measures every model is judged by. A model is seen
    through its score function and its embeddings. Average precision ranks
    the scores of a positive and a negative pair list; node classification
    trains one binary solver per class pair on the training labels and lets
    every node vote for one class of each pair; the report of `EvaluateAll`
    adds hinge losses over the pair lists. */
module Evaluate {
  import opened Seqs
  import opened Vectors
  import opened Graphs
  import Solvers
  import Ranking

  type Scorer = (int, int) -> real

  const UNLABELLED: int := -1

  /** The scores of the pairs (i, y) for y in lists[i], in node order. */
  function ListScores(score: Scorer, lists: seq<seq<int>>): (r: seq<real>)
    ensures |r| == TotalLength(lists)
  {
    if |lists| == 0 then []
    else
      var n := |lists| - 1;
      ListScores(score, lists[..n]) + seq(|lists[n]|, k requires 0 <= k < |lists[n]| => score(n, lists[n][k]))
  }

  /** The scores of the pairs (i, y) for y in edge[i], in node order. */
  function PairScores(score: Scorer, g: Graph): (r: seq<real>)
    ensures |r| == TotalLength(g.edge)
  {
    ListScores(score, g.edge)
  }

  /** Entry k of list i sits at the number of entries before list i plus
      k. */
  lemma {:induction false} ListScoresAt(score: Scorer, lists: seq<seq<int>>, i: int, k: int)
    requires 0 <= i < |lists| && 0 <= k < |lists[i]|
    ensures TotalLength(lists[..i]) + k < |ListScores(score, lists)|
    ensures ListScores(score, lists)[TotalLength(lists[..i]) + k] == score(i, lists[i][k])
  {
    var n := |lists| - 1;
    if i < n {
      assert lists[..n][..i] == lists[..i];
      ListScoresAt(score, lists[..n], i, k);
      ListScoresKeep(score, lists, TotalLength(lists[..i]) + k);
    } else {
      assert lists[..i] == lists[..n];
      ListScoresNew(score, lists, k);
    }
  }

  /** Entry j of the scores without the last list is entry j of all the
      scores. */
  lemma ListScoresKeep(score: Scorer, lists: seq<seq<int>>, j: int)
    requires |lists| > 0 && 0 <= j < TotalLength(lists[..|lists| - 1])
    ensures j < |ListScores(score, lists)|
    ensures ListScores(score, lists)[j] == ListScores(score, lists[..|lists| - 1])[j]
  {
  }

  /** The last list's pairs close the scores. */
  lemma ListScoresNew(score: Scorer, lists: seq<seq<int>>, k: int)
    requires |lists| > 0 && 0 <= k < |lists[|lists| - 1]|
    ensures TotalLength(lists[..|lists| - 1]) + k < |ListScores(score, lists)|
    ensures ListScores(score, lists)[TotalLength(lists[..|lists| - 1]) + k] == score(|lists| - 1, lists[|lists| - 1][k])
  {
  }

  /** The score of the pair (i, edge[i][k]) sits at the number of entries
      before node i plus k. */
  lemma PairScoresAt(score: Scorer, g: Graph, i: int, k: int)
    requires 0 <= i < |g.edge| && 0 <= k < |g.edge[i]|
    ensures TotalLength(g.edge[..i]) + k < |PairScores(score, g)|
    ensures PairScores(score, g)[TotalLength(g.edge[..i]) + k] == score(i, g.edge[i][k])
  {
    ListScoresAt(score, g.edge, i, k);
  }

  /** `EvaluateAveragePrecision(model, pos, neg)`: the positive pairs'
      scores against the negative pairs' scores. */
  function AveragePrecision(score: Scorer, pos: Graph, neg: Graph): (r: Option<real>)
    ensures r.None? <==> TotalLength(pos.edge) == 0
  {
    Ranking.EvaluateAveragePrecision(PairScores(score, pos), PairScores(score, neg))
  }

  /** The training nodes of classes a and b, in node order. */
  function PairMembers(labels: seq<int>, a: int, b: int, from: nat): (r: seq<int>)
    requires from <= |labels|
    ensures forall k :: 0 <= k < |r| ==> from <= r[k] < |labels| && (labels[r[k]] == a || labels[r[k]] == b)
    ensures forall i :: from <= i < |labels| && (labels[i] == a || labels[i] == b) ==> i in r
    ensures forall j, k :: 0 <= j < k < |r| ==> r[j] < r[k]
    decreases |labels| - from
  {
    if from == |labels| then []
    else
      var rest := PairMembers(labels, a, b, from + 1);
      if labels[from] == a || labels[from] == b then [from] + rest else rest
  }

  /** The binary problem of the pair (a, b): one example per member, its
      embedding labelled 1 for class a and -1 for class b, penalty
      1/regularizer and margin 1. */
  function PairTask(emb: seq<Vec>, labels: seq<int>, a: int, b: int, regularizer: real): (t: Solvers.Task)
    requires |labels| == |emb| && regularizer != 0.0
    ensures Solvers.TaskShape(t)
    ensures var ms := PairMembers(labels, a, b, 0);
      && |t.feature| == |ms|
      && forall k :: 0 <= k < |ms| ==>
           && t.feature[k] == emb[ms[k]]
           && t.labels[k] == (if labels[ms[k]] == a then 1 else -1)
           && t.penalty[k] == 1.0 / regularizer && t.margin[k] == 1.0
  {
    var ms := PairMembers(labels, a, b, 0);
    Solvers.Task(Pick(emb, ms),
      seq(|ms|, k requires 0 <= k < |ms| => if labels[ms[k]] == a then 1 else -1),
      Const(1.0 / regularizer, |ms|), Const(1.0, |ms|))
  }

  /** The squared norms handed to the solver along with its examples. */
  function Norms(fs: seq<Vec>): (r: seq<real>)
    ensures |r| == |fs| && forall k :: 0 <= k < |fs| ==> r[k] == Dot(fs[k], fs[k])
  {
    seq(|fs|, k requires 0 <= k < |fs| => Dot(fs[k], fs[k]))
  }

  /** The primal vector the solver returns for the pair (a, b), cold-started
      from zero coefficients and a zero vector. */
  function PairSolution(emb: seq<Vec>, labels: seq<int>, a: int, b: int, regularizer: real, dim: nat,
                        solve: Solvers.NormSolver): (w: Vec)
    requires |labels| == |emb| && regularizer != 0.0 && Solvers.KeepsShapeW(solve)
    ensures |w| == dim
  {
    var t := PairTask(emb, labels, a, b, regularizer);
    solve(t, Norms(t.feature), Zeros(|t.feature|), Zeros(dim)).w
  }

  /** The vote of the pair (a, b) for node i's row: a when the node's
      embedding scores above zero, b otherwise. */
  function Vote(row: seq<int>, a: int, b: int, v: real): (r: seq<int>)
    requires 0 <= a < |row| && 0 <= b < |row|
    ensures |r| == |row|
    ensures forall c :: 0 <= c < |row| ==> r[c] == row[c] + (if c == (if v > 0.0 then a else b) then 1 else 0)
  {
    if v > 0.0 then row[a := row[a] + 1] else row[b := row[b] + 1]
  }

  /** Number of class pairs (a', b') with a' < b' < card and a' < a. */
  function PairsBefore(a: nat, card: nat): nat
    requires a <= card
  {
    if a == 0 then 0 else PairsBefore(a - 1, card) + (card - a)
  }

  lemma {:induction false} AllPairs(a: nat, card: nat)
    requires a <= card
    ensures 2 * PairsBefore(a, card) == a * (2 * card - a - 1)
  {
    if a > 0 {
      AllPairs(a - 1, card);
    }
  }

  /** Votes class c can have received once every pair before (a, b) is
      counted (pairs ordered by a, then b). */
  function Seen(c: int, a: int, b: int): int
  {
    if c < a then -1 else if c == a then c + (b - a - 1) else a + (if c < b then 1 else 0)
  }

  /** The vote table after the pairs before (a, b): one row per training
      node, row sums equal to the pairs counted, class c's votes bounded by
      the pairs containing c. */
  predicate Tally(pred: seq<seq<int>>, n: nat, card: nat, a: int, b: int, done: nat)
  {
    && |pred| == n
    && forall i :: 0 <= i < n ==>
         && |pred[i]| == card && RowSum(pred[i]) == done
         && forall c :: 0 <= c < card ==> 0 <= pred[i][c] <= (if c < a then card - 1 else Seen(c, a, b))
  }

  function RowSum(row: seq<int>): int
  {
    if |row| == 0 then 0 else RowSum(row[..|row| - 1]) + row[|row| - 1]
  }

  lemma {:induction false} RowSumUpdate(row: seq<int>, c: int, v: int)
    requires 0 <= c < |row|
    ensures RowSum(row[c := v]) == RowSum(row) - row[c] + v
  {
    var n := |row|;
    if c == n - 1 {
      assert row[c := v][..n - 1] == row[..n - 1];
    } else {
      assert row[c := v][..n - 1] == row[..n - 1][c := v];
      RowSumUpdate(row[..n - 1], c, v);
    }
  }

  lemma RowSumZeros(n: nat)
    ensures RowSum(seq(n, _ => 0)) == 0
  {
    if n > 0 {
      assert seq(n, _ => 0)[..n - 1] == seq(n - 1, _ => 0);
      RowSumZeros(n - 1);
    }
  }

  /** One pair's votes keep the tally, moving on to the next pair. */
  lemma VoteStep(row: seq<int>, card: nat, a: int, b: int, v: real, done: nat)
    requires 0 <= a < b < card && |row| == card && RowSum(row) == done
    requires forall c :: 0 <= c < card ==> 0 <= row[c] <= (if c < a then card - 1 else Seen(c, a, b))
    ensures var r := Vote(row, a, b, v);
      && RowSum(r) == done + 1
      && forall c :: 0 <= c < card ==> 0 <= r[c] <= (if c < a then card - 1 else Seen(c, a, b + 1))
  {
    if v > 0.0 {
      RowSumUpdate(row, a, row[a] + 1);
    } else {
      RowSumUpdate(row, b, row[b] + 1);
    }
  }

  /** The bound after a whole row of pairs is the bound at the start of the
      next one. */
  lemma NextRow(c: int, a: int, card: nat)
    requires 0 <= a < card && 0 <= c < card
    ensures (if c < a then card - 1 else Seen(c, a, card)) == (if c < a + 1 then card - 1 else Seen(c, a + 1, a + 2))
  {
  }

  /** A vote table: one row of card counters per training node. */
  predicate TableShape(pred: seq<seq<int>>, n: nat, card: nat)
  {
    |pred| == n && forall i :: 0 <= i < n ==> |pred[i]| == card
  }

  /** The votes of the pair (a, b) added to the table: node i votes for a
      when its embedding scores above zero against the pair's vector, for b
      otherwise. */
  function CastPair(emb: seq<Vec>, labels: seq<int>, card: nat, regularizer: real, dim: nat,
                    solve: Solvers.NormSolver, pred: seq<seq<int>>, a: int, b: int): (r: seq<seq<int>>)
    requires |labels| == |emb| && AllDim(emb, dim) && regularizer != 0.0 && Solvers.KeepsShapeW(solve)
    requires TableShape(pred, |emb|, card) && 0 <= a < b < card
    ensures TableShape(r, |emb|, card)
    ensures var w := PairSolution(emb, labels, a, b, regularizer, dim, solve);
      forall i, c :: 0 <= i < |emb| && 0 <= c < card ==>
        r[i][c] == pred[i][c] + (if (c == a && Dot(emb[i], w) > 0.0) || (c == b && Dot(emb[i], w) <= 0.0) then 1 else 0)
  {
    var w := PairSolution(emb, labels, a, b, regularizer, dim, solve);
    seq(|emb|, i requires 0 <= i < |emb| => Vote(pred[i], a, b, Dot(emb[i], w)))
  }

  /** The table after the pairs (a, b') with a < b' < b, in order of b'. */
  function RowVotes(emb: seq<Vec>, labels: seq<int>, card: nat, regularizer: real, dim: nat,
                    solve: Solvers.NormSolver, pred: seq<seq<int>>, a: int, b: int): (r: seq<seq<int>>)
    requires |labels| == |emb| && AllDim(emb, dim) && regularizer != 0.0 && Solvers.KeepsShapeW(solve)
    requires TableShape(pred, |emb|, card) && 0 <= a < card && b <= card
    ensures TableShape(r, |emb|, card)
    decreases b
  {
    if b <= a + 1 then pred
    else CastPair(emb, labels, card, regularizer, dim, solve,
                  RowVotes(emb, labels, card, regularizer, dim, solve, pred, a, b - 1), a, b - 1)
  }

  /** The table after every pair (a', b') with a' < a, starting from zero:
      `label_prediction` as the two loops of `EvaluateF1` fill it. */
  function VoteTable(emb: seq<Vec>, labels: seq<int>, card: nat, regularizer: real, dim: nat,
                     solve: Solvers.NormSolver, a: nat): (r: seq<seq<int>>)
    requires |labels| == |emb| && AllDim(emb, dim) && regularizer != 0.0 && Solvers.KeepsShapeW(solve)
    requires a <= card
    ensures TableShape(r, |emb|, card)
  {
    if a == 0 then seq(|emb|, _ => seq(card, _ => 0))
    else RowVotes(emb, labels, card, regularizer, dim, solve,
                  VoteTable(emb, labels, card, regularizer, dim, solve, a - 1), a - 1, card)
  }

  /** The one-vs-one voting of `EvaluateF1(model, train, test, regularizer)`:
      for every class pair a < b, the solver's vector for that pair, and
      every training node's vote. The result is the vote table; every row
      sums to card(card-1)/2 and no class gets more than card-1 votes. */
  method Votes(emb: seq<Vec>, labels: seq<int>, card: nat, regularizer: real, dim: nat, solve: Solvers.NormSolver)
    returns (pred: seq<seq<int>>)
    requires |labels| == |emb| && AllDim(emb, dim) && regularizer != 0.0 && Solvers.KeepsShapeW(solve)
    ensures pred == VoteTable(emb, labels, card, regularizer, dim, solve, card)
    ensures |pred| == |emb|
    ensures forall i :: 0 <= i < |emb| ==> |pred[i]| == card && 2 * RowSum(pred[i]) == card * (card - 1)
    ensures forall i, c :: 0 <= i < |emb| && 0 <= c < card ==> 0 <= pred[i][c] <= card - 1
  {
    var n := |emb|;
    pred := seq(n, _ => seq(card, _ => 0));
    RowSumZeros(card);
    for a := 0 to card
      invariant pred == VoteTable(emb, labels, card, regularizer, dim, solve, a)
      invariant Tally(pred, n, card, a, a + 1, PairsBefore(a, card))
    {
      pred := CastRow(emb, labels, card, regularizer, dim, solve, pred, a);
      TallyNextRow(pred, n, card, a);
    }
    TallyDone(pred, n, card);
  }

  /** The pairs (a, b) for b = a + 1, ..., card - 1, in turn. */
  method CastRow(emb: seq<Vec>, labels: seq<int>, card: nat, regularizer: real, dim: nat,
                 solve: Solvers.NormSolver, pred: seq<seq<int>>, a: nat)
    returns (r: seq<seq<int>>)
    requires |labels| == |emb| && AllDim(emb, dim) && regularizer != 0.0 && Solvers.KeepsShapeW(solve)
    requires a < card && Tally(pred, |emb|, card, a, a + 1, PairsBefore(a, card))
    ensures r == RowVotes(emb, labels, card, regularizer, dim, solve, pred, a, card)
    ensures Tally(r, |emb|, card, a, card, PairsBefore(a, card) + (card - a - 1))
  {
    r := pred;
    for b := a + 1 to card
      invariant r == RowVotes(emb, labels, card, regularizer, dim, solve, pred, a, b)
    {
      r := CastPair(emb, labels, card, regularizer, dim, solve, r, a, b);
    }
    RowVotesTally(emb, labels, card, regularizer, dim, solve, pred, a, card, PairsBefore(a, card));
  }

  /** The votes of the pairs (a, a + 1) .. (a, b - 1) keep the tally, one
      more vote per node for each pair. */
  lemma {:induction false} RowVotesTally(emb: seq<Vec>, labels: seq<int>, card: nat, regularizer: real, dim: nat,
                                         solve: Solvers.NormSolver, pred: seq<seq<int>>, a: int, b: int, done: nat)
    requires |labels| == |emb| && AllDim(emb, dim) && regularizer != 0.0 && Solvers.KeepsShapeW(solve)
    requires 0 <= a < card && a + 1 <= b <= card && Tally(pred, |emb|, card, a, a + 1, done)
    ensures Tally(RowVotes(emb, labels, card, regularizer, dim, solve, pred, a, b), |emb|, card, a, b, done + (b - a - 1))
    decreases b
  {
    if b > a + 1 {
      RowVotesTally(emb, labels, card, regularizer, dim, solve, pred, a, b - 1, done);
      TallyCast(emb, labels, card, regularizer, dim, solve,
                RowVotes(emb, labels, card, regularizer, dim, solve, pred, a, b - 1), a, b - 1, done + (b - a - 2));
    }
  }

  /** The votes of one pair keep the tally and move it on to the next
      pair. */
  lemma TallyCast(emb: seq<Vec>, labels: seq<int>, card: nat, regularizer: real, dim: nat,
                  solve: Solvers.NormSolver, pred: seq<seq<int>>, a: int, b: int, done: nat)
    requires |labels| == |emb| && AllDim(emb, dim) && regularizer != 0.0 && Solvers.KeepsShapeW(solve)
    requires 0 <= a < b < card && Tally(pred, |emb|, card, a, b, done)
    ensures Tally(CastPair(emb, labels, card, regularizer, dim, solve, pred, a, b), |emb|, card, a, b + 1, done + 1)
  {
    var n := |emb|;
    var w := PairSolution(emb, labels, a, b, regularizer, dim, solve);
    var v := seq(n, i requires 0 <= i < n => Dot(emb[i], w));
    TallyVote(pred, n, card, a, b, done, v);
    assert CastPair(emb, labels, card, regularizer, dim, solve, pred, a, b)
      == seq(n, i requires 0 <= i < n => Vote(pred[i], a, b, v[i]));
  }

  /** The votes of the pair (a, b), node i's scoring v[i], keep the tally
      and move it on to the next pair. */
  lemma TallyVote(pred: seq<seq<int>>, n: nat, card: nat, a: int, b: int, done: nat, v: seq<real>)
    requires 0 <= a < b < card && |v| == n && Tally(pred, n, card, a, b, done)
    ensures Tally(seq(n, i requires 0 <= i < n => Vote(pred[i], a, b, v[i])), n, card, a, b + 1, done + 1)
  {
    forall i | 0 <= i < n {
      VoteStep(pred[i], card, a, b, v[i], done);
    }
  }

  /** The tally after a whole row of pairs is the tally at the start of the
      next row. */
  lemma TallyNextRow(pred: seq<seq<int>>, n: nat, card: nat, a: nat)
    requires a < card && Tally(pred, n, card, a, card, PairsBefore(a, card) + (card - a - 1))
    ensures Tally(pred, n, card, a + 1, a + 2, PairsBefore(a + 1, card))
  {
    forall c | 0 <= c < card {
      NextRow(c, a, card);
    }
  }

  /** Once every pair is counted, each row sums to card(card-1)/2 and no
      class has more than card - 1 votes. */
  lemma TallyDone(pred: seq<seq<int>>, n: nat, card: nat)
    requires Tally(pred, n, card, card, card + 1, PairsBefore(card, card))
    ensures forall i :: 0 <= i < n ==> |pred[i]| == card && 2 * RowSum(pred[i]) == card * (card - 1)
    ensures forall i, c :: 0 <= i < n && 0 <= c < card ==> 0 <= pred[i][c] <= card - 1
  {
    AllPairs(card, card);
  }

  /** Average F1 over the test classes: per class a, the class-a scores of
      the test nodes labelled a against those of the other labelled test
      nodes, summed and divided by `divisor` (the training class count in
      `EvaluateF1`, the test class count in `EvaluateF1LabelPropagation`).
      Dividing by zero classes is outside the model: None. */
  function AverageF1(scores: seq<Vec>, test: seq<int>, testCard: nat, divisor: nat): (r: Option<real>)
    requires |test| <= |scores| && forall i :: 0 <= i < |scores| ==> |scores[i]| >= testCard
    ensures r.None? <==> divisor == 0
    ensures r.Some? ==> 0.0 <= r.value <= testCard as real / divisor as real
  {
    if divisor == 0 then None
    else
      var s := F1Sum(scores, test, testCard);
      DivideBetween(s, testCard as real, divisor as real);
      Some(s / divisor as real)
  }

  /** Dividing 0 <= s <= c by a positive d keeps the order. */
  lemma DivideBetween(s: real, c: real, d: real)
    requires 0.0 <= s <= c && d > 0.0
    ensures 0.0 <= s / d <= c / d
  {
    assert s / d == s * (1.0 / d) && c / d == c * (1.0 / d);
  }

  /** The scores of class a for the test nodes labelled a (positives) and
      for the other labelled test nodes (negatives), in node order. */
  function ClassScores(scores: seq<Vec>, test: seq<int>, a: nat, n: nat): (r: (seq<real>, seq<real>))
    requires n <= |test| <= |scores| && forall i :: 0 <= i < |scores| ==> |scores[i]| > a
    ensures |r.0| == CountLabel(test[..n], a)
    ensures |r.0| + |r.1| == |test[..n]| - CountLabel(test[..n], UNLABELLED)
  {
    if n == 0 then ([], [])
    else
      var prev := ClassScores(scores, test, a, n - 1);
      assert test[..n][..n - 1] == test[..n - 1];
      var v := scores[n - 1][a];
      if test[n - 1] == a then (prev.0 + [v], prev.1)
      else if test[n - 1] != UNLABELLED then (prev.0, prev.1 + [v])
      else prev
  }

  /** Number of nodes with label a. */
  function CountLabel(labels: seq<int>, a: int): nat
  {
    if |labels| == 0 then 0 else CountLabel(labels[..|labels| - 1], a) + (if labels[|labels| - 1] == a then 1 else 0)
  }

  /** The sum of the per-class F1 scores of the first `classes` classes;
      each lies in [0, 1]. */
  function F1Sum(scores: seq<Vec>, test: seq<int>, classes: nat): (r: real)
    requires |test| <= |scores| && forall i :: 0 <= i < |scores| ==> |scores[i]| >= classes
    ensures 0.0 <= r <= classes as real
  {
    if classes == 0 then 0.0
    else
      var sc := ClassScores(scores, test, classes - 1, |test|);
      F1Sum(scores, test, classes - 1) + Ranking.EvaluateF1(sc.0, sc.1)
  }

  /** The vote table as real scores. */
  function AsScores(pred: seq<seq<int>>): (r: seq<Vec>)
    ensures |r| == |pred| && forall i :: 0 <= i < |pred| ==> |r[i]| == |pred[i]|
    ensures forall i, c :: 0 <= i < |pred| && 0 <= c < |pred[i]| ==> r[i][c] == pred[i][c] as real
  {
    seq(|pred|, i requires 0 <= i < |pred| => seq(|pred[i]|, c requires 0 <= c < |pred[i]| => pred[i][c] as real))
  }

  /** `EvaluateF1(model, train, test, regularizer)`: one-vs-one votes from
      the training labels, then the average F1 of the votes on the test
      labels over the training classes. */
  method EvaluateF1(emb: seq<Vec>, train: seq<int>, trainCard: nat, test: seq<int>, testCard: nat,
                    regularizer: real, dim: nat, solve: Solvers.NormSolver)
    returns (r: Option<real>)
    requires |train| == |emb| && |test| <= |emb| && AllDim(emb, dim) && testCard <= trainCard
    requires regularizer != 0.0 && Solvers.KeepsShapeW(solve)
    ensures r == AverageF1(AsScores(VoteTable(emb, train, trainCard, regularizer, dim, solve, trainCard)),
                           test, testCard, trainCard)
    ensures r.None? <==> trainCard == 0
    ensures r.Some? ==> 0.0 <= r.value <= 1.0
  {
    var pred := Votes(emb, train, trainCard, regularizer, dim, solve);
    r := AverageF1(AsScores(pred), test, testCard, trainCard);
    if r.Some? {
      RatioAtMostOne(testCard, trainCard);
    }
  }

  lemma RatioAtMostOne(a: nat, b: nat)
    requires a <= b && b > 0
    ensures a as real / b as real <= 1.0
  {
    assert a as real <= b as real;
    assert (a as real / b as real) * (b as real) == a as real;
  }

  /** `EvaluateF1LabelPropagation(model, test)`: the class scores of the
      embeddings themselves, averaged over the test classes. */
  function EvaluateF1LabelPropagation(emb: seq<Vec>, test: seq<int>, testCard: nat): (r: Option<real>)
    requires |test| <= |emb| && forall i :: 0 <= i < |emb| ==> |emb[i]| >= testCard
    ensures r.None? <==> testCard == 0
    ensures r.Some? ==> 0.0 <= r.value <= 1.0
  {
    if testCard > 0 then RatioAtMostOne(testCard, testCard); AverageF1(emb, test, testCard, testCard)
    else AverageF1(emb, test, testCard, testCard)
  }

  /** The sum of max(1 - s, 0) over the positive pairs' scores. */
  function PositiveHinge(s: seq<real>): (r: real)
    ensures r >= 0.0
  {
    if |s| == 0 then 0.0 else PositiveHinge(s[..|s| - 1]) + Max(1.0 - s[|s| - 1], 0.0)
  }

  /** The sum of max(s, 0) over the negative pairs' scores. */
  function NegativeHinge(s: seq<real>): (r: real)
    ensures r >= 0.0
  {
    if |s| == 0 then 0.0 else NegativeHinge(s[..|s| - 1]) + Max(s[|s| - 1], 0.0)
  }

  /** A positive pair scored at least 1 costs nothing; a negative pair
      scored at most 0 costs nothing. */
  lemma {:induction false} HingeZero(s: seq<real>)
    ensures (forall k :: 0 <= k < |s| ==> s[k] >= 1.0) ==> PositiveHinge(s) == 0.0
    ensures (forall k :: 0 <= k < |s| ==> s[k] <= 0.0) ==> NegativeHinge(s) == 0.0
  {
    if |s| > 0 {
      HingeZero(s[..|s| - 1]);
    }
  }

  /** A hinge sum and the number of pairs it is over. */
  datatype Loss = Loss(sum: real, count: nat)

  /** The numbers `EvaluateAll` reports. */
  datatype Report = Report(testAP: Option<real>, trainAP: Option<real>,
                           trainPositive: Loss, trainNegative: Loss,
                           testPositive: Loss, testNegative: Loss, totalNorm: real)

  /** The sum of score(i, i) over the first n nodes ("Total L2 Norm"). */
  function SelfScores(score: Scorer, n: nat): real
  {
    if n == 0 then 0.0 else SelfScores(score, n - 1) + score(n - 1, n - 1)
  }

  /** `EvaluateAll(model, train_pos, train_neg, test_pos, test_neg)`
      without the printing: hinge sums are never negative and each count is
      the number of pairs visited. */
  function EvaluateAll(score: Scorer, trainPos: Graph, trainNeg: Graph, testPos: Graph, testNeg: Graph): (r: Report)
    ensures r.testAP.None? <==> TotalLength(testPos.edge) == 0
    ensures r.trainAP.None? <==> TotalLength(trainPos.edge) == 0
    ensures r.trainPositive.count == TotalLength(trainPos.edge) && r.trainPositive.sum >= 0.0
    ensures r.trainNegative.count == TotalLength(trainNeg.edge) && r.trainNegative.sum >= 0.0
    ensures r.testPositive.count == TotalLength(testPos.edge) && r.testPositive.sum >= 0.0
    ensures r.testNegative.count == TotalLength(testNeg.edge) && r.testNegative.sum >= 0.0
  {
    var tp, tn := PairScores(score, trainPos), PairScores(score, trainNeg);
    var sp, sn := PairScores(score, testPos), PairScores(score, testNeg);
    Report(AveragePrecision(score, testPos, testNeg), AveragePrecision(score, trainPos, trainNeg),
      Loss(PositiveHinge(tp), |tp|), Loss(NegativeHinge(tn), |tn|),
      Loss(PositiveHinge(sp), |sp|), Loss(NegativeHinge(sn), |sn|),
      SelfScores(score, if trainPos.size < 0 then 0 else trainPos.size))
  }
}

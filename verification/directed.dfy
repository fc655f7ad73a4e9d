/** The state shared by directed_finite.cpp and
    directed_finite_contrast.cpp: every node has an in-embedding and an
    out-embedding, each with a cached squared norm and its own dual
    coefficients. An in-embedding is fitted to out-embeddings of other nodes
    and the other way round; the edge x -> y is scored by
    <out_embedding[x], in_embedding[y]>. */
module Directed {
  import opened Vectors
  import Solvers

  datatype DirectedModel = DirectedModel(
    dim: nat,
    inEmb: seq<Vec>, outEmb: seq<Vec>,
    inNorm: seq<real>, outNorm: seq<real>,
    inCoeff: seq<seq<real>>, outCoeff: seq<seq<real>>)

  /** One of everything per node, embeddings of length dim. */
  predicate Shaped(m: DirectedModel)
  {
    var n := |m.inEmb|;
    && |m.outEmb| == n && |m.inNorm| == n && |m.outNorm| == n
    && |m.inCoeff| == n && |m.outCoeff| == n
    && AllDim(m.inEmb, m.dim) && AllDim(m.outEmb, m.dim)
  }

  /** `in_sqr_norm` and `out_sqr_norm` hold the squared norms of the
      current embeddings. */
  predicate NormsCached(m: DirectedModel)
    requires Shaped(m)
  {
    forall i :: 0 <= i < |m.inEmb| ==>
      m.inNorm[i] == Dot(m.inEmb[i], m.inEmb[i]) && m.outNorm[i] == Dot(m.outEmb[i], m.outEmb[i])
  }

  /** The embeddings an update of the in-side (inSide) or out-side writes,
      and the ones it reads its features from. */
  function Own(m: DirectedModel, inSide: bool): seq<Vec> { if inSide then m.inEmb else m.outEmb }
  function Opposite(m: DirectedModel, inSide: bool): seq<Vec> { if inSide then m.outEmb else m.inEmb }
  function OppositeNorm(m: DirectedModel, inSide: bool): seq<real> { if inSide then m.outNorm else m.inNorm }
  function Coeff(m: DirectedModel, inSide: bool): seq<seq<real>> { if inSide then m.inCoeff else m.outCoeff }

  /** The features of a side update: the opposite embeddings of the listed
      nodes, together with their cached squared norms. */
  function Gather(m: DirectedModel, inSide: bool, ids: seq<int>): (r: (seq<Vec>, seq<real>))
    requires Shaped(m)
    requires forall k :: 0 <= k < |ids| ==> 0 <= ids[k] < |m.inEmb|
    ensures |r.0| == |ids| && |r.1| == |ids| && AllDim(r.0, m.dim)
    ensures forall k :: 0 <= k < |ids| ==>
      r.0[k] == Opposite(m, inSide)[ids[k]] && r.1[k] == OppositeNorm(m, inSide)[ids[k]]
  {
    assert AllDim(Opposite(m, inSide), m.dim);
    (seq(|ids|, k requires 0 <= k < |ids| => Opposite(m, inSide)[ids[k]]),
     seq(|ids|, k requires 0 <= k < |ids| => OppositeNorm(m, inSide)[ids[k]]))
  }

  /** With the caches up to date, the norms handed to the solver are the
      squared norms of the features handed with them. */
  lemma GatheredNormsExact(m: DirectedModel, inSide: bool, ids: seq<int>)
    requires Shaped(m) && NormsCached(m)
    requires forall k :: 0 <= k < |ids| ==> 0 <= ids[k] < |m.inEmb|
    ensures var (fs, ns) := Gather(m, inSide, ids);
      forall k :: 0 <= k < |ids| ==> ns[k] == Dot(fs[k], fs[k])
  {
  }

  /** After the solver call: the coefficients and embedding of x on the
      updated side are the solver's, and the side's squared norm of x is
      recomputed. */
  function WriteBack(m: DirectedModel, inSide: bool, x: int, sol: Solvers.Solution): (r: DirectedModel)
    requires Shaped(m) && 0 <= x < |m.inEmb| && |sol.w| == m.dim
    ensures Shaped(r) && r.dim == m.dim && |r.inEmb| == |m.inEmb|
    ensures NormsCached(m) ==> NormsCached(r)
    ensures Own(r, inSide) == Own(m, inSide)[x := sol.w]
    ensures Coeff(r, inSide) == Coeff(m, inSide)[x := sol.coeff]
    ensures Opposite(r, inSide) == Opposite(m, inSide) && OppositeNorm(r, inSide) == OppositeNorm(m, inSide)
    ensures Coeff(r, !inSide) == Coeff(m, !inSide)
  {
    var nn := Dot(sol.w, sol.w);
    if inSide then m.(inEmb := m.inEmb[x := sol.w], inNorm := m.inNorm[x := nn], inCoeff := m.inCoeff[x := sol.coeff])
    else m.(outEmb := m.outEmb[x := sol.w], outNorm := m.outNorm[x := nn], outCoeff := m.outCoeff[x := sol.coeff])
  }

  /** The starting model: the given embeddings, their squared norms, and
      the given coefficient rows. */
  function Initial(dim: nat, inInit: seq<Vec>, outInit: seq<Vec>, inCoeff: seq<seq<real>>, outCoeff: seq<seq<real>>)
    : (m: DirectedModel)
    requires |outInit| == |inInit| && |inCoeff| == |inInit| && |outCoeff| == |inInit|
    requires AllDim(inInit, dim) && AllDim(outInit, dim)
    ensures Shaped(m) && NormsCached(m)
    ensures m.inEmb == inInit && m.outEmb == outInit && m.inCoeff == inCoeff && m.outCoeff == outCoeff
  {
    var n := |inInit|;
    DirectedModel(dim, inInit, outInit,
      seq(n, i requires 0 <= i < n => Dot(inInit[i], inInit[i])),
      seq(n, i requires 0 <= i < n => Dot(outInit[i], outInit[i])),
      inCoeff, outCoeff)
  }

  /** Node y holds the same embeddings and coefficients in r as in m. */
  predicate Keeps(r: DirectedModel, m: DirectedModel, y: int)
    requires Shaped(r) && Shaped(m) && 0 <= y < |r.inEmb| && 0 <= y < |m.inEmb|
  {
    && r.inEmb[y] == m.inEmb[y] && r.outEmb[y] == m.outEmb[y]
    && r.inCoeff[y] == m.inCoeff[y] && r.outCoeff[y] == m.outCoeff[y]
  }

  /** `combined_embedding[x]`: the in-embedding followed by the
      out-embedding. */
  function Combined(m: DirectedModel, x: int): (r: Vec)
    requires Shaped(m) && 0 <= x < |m.inEmb|
    ensures |r| == 2 * m.dim
  {
    m.inEmb[x] + m.outEmb[x]
  }

  /** The combined embedding of every node. */
  function CombinedAll(m: DirectedModel): (r: seq<Vec>)
    requires Shaped(m)
    ensures |r| == |m.inEmb| && forall x :: 0 <= x < |m.inEmb| ==> r[x] == Combined(m, x)
  {
    seq(|m.inEmb|, x requires 0 <= x < |m.inEmb| => Combined(m, x))
  }

  /** `Evaluate(x, y)`: the score of the edge x -> y. */
  function Evaluate(m: DirectedModel, x: int, y: int): real
    requires Shaped(m) && 0 <= x < |m.inEmb| && 0 <= y < |m.inEmb|
  {
    Dot(m.outEmb[x], m.inEmb[y])
  }

  /** The score of x -> y pairs the second half of x's combined embedding
      with the first half of y's. */
  lemma EvaluateFromCombined(m: DirectedModel, x: int, y: int)
    requires Shaped(m) && 0 <= x < |m.inEmb| && 0 <= y < |m.inEmb|
    ensures Evaluate(m, x, y) == Dot(Combined(m, x)[m.dim..], Combined(m, y)[..m.dim])
  {
    assert Combined(m, x)[m.dim..] == m.outEmb[x];
    assert Combined(m, y)[..m.dim] == m.inEmb[y];
  }
}

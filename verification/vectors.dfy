/** Dense real vectors: the inner product the whole repository relies on
    (utility.h declares `InnerProduct`; its body is not part of this model and
    is taken to be the sum of x[k]*y[k]) and the weighted sums of feature
    vectors that every update rule writes back as an embedding. */
module Vectors {
  import opened Seqs

  type Vec = seq<real>

  /** std::min / std::max on doubles, with their tie behaviour. */
  function Min(a: real, b: real): real { if b < a then b else a }
  function Max(a: real, b: real): real { if a < b then b else a }

  function Zeros(n: nat): (r: Vec)
    ensures |r| == n
    ensures forall k :: 0 <= k < n ==> r[k] == 0.0
  {
    seq(n, _ => 0.0)
  }

  /** Every vector of fs has length dim. */
  predicate AllDim(fs: seq<Vec>, dim: nat)
  {
    forall i :: 0 <= i < |fs| ==> |fs[i]| == dim
  }

  /** InnerProduct(x, y) = x[0]*y[0] + ... + x[n-1]*y[n-1]. */
  function Dot(x: Vec, y: Vec): real
    requires |x| == |y|
  {
    if |x| == 0 then 0.0 else Dot(x[..|x| - 1], y[..|y| - 1]) + x[|x| - 1] * y[|y| - 1]
  }

  lemma {:induction false} DotSymmetric(x: Vec, y: Vec)
    requires |x| == |y|
    ensures Dot(x, y) == Dot(y, x)
  {
    if |x| > 0 {
      DotSymmetric(x[..|x| - 1], y[..|y| - 1]);
    }
  }

  /** The inner product with the zero vector is zero. */
  lemma {:induction false} DotZeros(x: Vec, y: Vec)
    requires |x| == |y| && forall k :: 0 <= k < |x| ==> x[k] == 0.0
    ensures Dot(x, y) == 0.0
  {
    if |x| > 0 {
      DotZeros(x[..|x| - 1], y[..|y| - 1]);
    }
  }

  /** A squared norm is never negative. */
  lemma {:induction false} SqrNormNonNegative(x: Vec)
    ensures Dot(x, x) >= 0.0
  {
    if |x| > 0 {
      SqrNormNonNegative(x[..|x| - 1]);
      var v := x[|x| - 1];
      assert v * v >= 0.0;
    }
  }

  /** The inner product of two concatenations splits into the two halves. */
  lemma {:induction false} DotConcat(a: Vec, b: Vec, c: Vec, d: Vec)
    requires |a| == |c| && |b| == |d|
    ensures Dot(a + b, c + d) == Dot(a, c) + Dot(b, d)
  {
    if |b| == 0 {
      assert a + b == a;
      assert c + d == c;
    } else {
      var n := |b|;
      assert (a + b)[..|a + b| - 1] == a + b[..n - 1];
      assert (c + d)[..|c + d| - 1] == c + d[..n - 1];
      DotConcat(a, b[..n - 1], c, d[..n - 1]);
    }
  }

  /** w + t * f, component by component (the incremental update of a
      primal vector). */
  function AddScaled(w: Vec, t: real, f: Vec): (r: Vec)
    requires |w| == |f|
    ensures |r| == |w|
  {
    seq(|w|, k requires 0 <= k < |w| => w[k] + t * f[k])
  }

  /** A product under a name of its own, so that equal factors give equal
      products without arithmetic reasoning. */
  function Times(a: real, b: real): real
  {
    a * b
  }

  /** The squared norm after an update: |w + t f|^2 = |w|^2 + 2t(w.f) + t^2|f|^2. */
  lemma {:induction false} DotAddScaled(w: Vec, t: real, f: Vec)
    requires |w| == |f|
    ensures Dot(AddScaled(w, t, f), AddScaled(w, t, f))
         == Dot(w, w) + 2.0 * Times(t, Dot(w, f)) + Times(Times(t, t), Dot(f, f))
  {
    if |w| > 0 {
      var n := |w|;
      var r := AddScaled(w, t, f);
      var w', f' := w[..n - 1], f[..n - 1];
      var r' := AddScaled(w', t, f');
      AddScaledPrefix(w, t, f);
      DotAddScaled(w', t, f');
      DotLast(r, r, r', r');
      DotLast(w, w, w', w');
      DotLast(w, f, w', f');
      DotLast(f, f, f', f');
      ExpansionStep(Dot(r, r), Dot(w, w), Dot(w, f), Dot(f, f),
                    Dot(r', r'), Dot(w', w'), Dot(w', f'), Dot(f', f'),
                    r[n - 1], w[n - 1], t, f[n - 1]);
    }
  }

  /** The inner product of two prefixes peels off its last term. */
  lemma DotPrefixLast(a: Vec, b: Vec, n: nat)
    requires 0 < n <= |a| && n <= |b|
    ensures Dot(a[..n], b[..n]) == Dot(a[..n - 1], b[..n - 1]) + Times(a[n - 1], b[n - 1])
  {
    assert a[..n][..n - 1] == a[..n - 1];
    assert b[..n][..n - 1] == b[..n - 1];
  }

  /** The inner product peels off its last term. */
  lemma DotLast(x: Vec, y: Vec, x': Vec, y': Vec)
    requires |x| == |y| > 0 && x' == x[..|x| - 1] && y' == y[..|y| - 1]
    ensures Dot(x, y) == Dot(x', y') + Times(x[|x| - 1], y[|y| - 1])
  {
  }

  lemma AddScaledPrefix(w: Vec, t: real, f: Vec)
    requires |w| == |f| && |w| > 0
    ensures AddScaled(w, t, f)[..|w| - 1] == AddScaled(w[..|w| - 1], t, f[..|f| - 1])
    ensures AddScaled(w, t, f)[|w| - 1] == w[|w| - 1] + t * f[|w| - 1]
  {
    var n := |w|;
    var r := AddScaled(w, t, f);
    var r' := AddScaled(w[..n - 1], t, f[..n - 1]);
    assert forall k :: 0 <= k < n - 1 ==> r[..n - 1][k] == r'[k];
  }

  /** The induction step of DotAddScaled on the scalars involved: the last
      components x = a + t b of the updated vector, a of w and b of f. */
  lemma ExpansionStep(nn: real, ww: real, wf: real, ff: real, nn': real, ww': real, wf': real, ff': real,
                      x: real, a: real, t: real, b: real)
    requires nn == nn' + Times(x, x) && ww == ww' + Times(a, a) && wf == wf' + Times(a, b) && ff == ff' + Times(b, b)
    requires nn' == ww' + 2.0 * Times(t, wf') + Times(Times(t, t), ff')
    requires x == a + t * b
    ensures nn == ww + 2.0 * Times(t, wf) + Times(Times(t, t), ff)
  {
    SquareExpand(x, a, t, b);
    RegroupExpansion(ww', wf', ff', a, t, b);
  }

  lemma SquareExpand(x: real, a: real, t: real, b: real)
    requires x == a + t * b
    ensures x * x == a * a + 2.0 * t * (a * b) + t * t * (b * b)
  {
  }

  lemma RegroupExpansion(ww: real, wf: real, ff: real, a: real, t: real, b: real)
    ensures (ww + 2.0 * Times(t, wf) + Times(Times(t, t), ff)) + (a * a + 2.0 * t * (a * b) + t * t * (b * b))
         == (ww + a * a) + 2.0 * Times(t, wf + a * b) + Times(Times(t, t), ff + b * b)
  {
  }

  /** Component k of the weighted sum ws[0]*fs[0] + ... + ws[n-1]*fs[n-1]. */
  function ColumnSum(ws: seq<real>, fs: seq<Vec>, k: nat): real
    requires |ws| == |fs|
    requires forall i :: 0 <= i < |fs| ==> k < |fs[i]|
  {
    if |ws| == 0 then 0.0
    else ColumnSum(ws[..|ws| - 1], fs[..|fs| - 1], k) + ws[|ws| - 1] * fs[|fs| - 1][k]
  }

  /** The weighted sum of the feature vectors fs, as a vector of length dim. */
  function Combine(ws: seq<real>, fs: seq<Vec>, dim: nat): (r: Vec)
    requires |ws| == |fs| && AllDim(fs, dim)
    ensures |r| == dim
  {
    seq(dim, k requires 0 <= k < dim => ColumnSum(ws, fs, k))
  }

  /** Changing one weight moves the sum by the change times that feature. */
  lemma {:induction false} ColumnSumUpdate(ws: seq<real>, fs: seq<Vec>, k: nat, i: int, v: real)
    requires |ws| == |fs|
    requires forall j :: 0 <= j < |fs| ==> k < |fs[j]|
    requires 0 <= i < |ws|
    ensures ColumnSum(ws[i := v], fs, k) == ColumnSum(ws, fs, k) + (v - ws[i]) * fs[i][k]
  {
    var n := |ws|;
    if i == n - 1 {
      assert ws[i := v][..n - 1] == ws[..n - 1];
    } else {
      assert ws[i := v][..n - 1] == ws[..n - 1][i := v];
      ColumnSumUpdate(ws[..n - 1], fs[..n - 1], k, i, v);
    }
  }

  /** All-zero weights give the zero vector. */
  lemma {:induction false} ColumnSumOfZeroWeights(ws: seq<real>, fs: seq<Vec>, k: nat)
    requires |ws| == |fs|
    requires forall j :: 0 <= j < |fs| ==> k < |fs[j]|
    requires forall j :: 0 <= j < |ws| ==> ws[j] == 0.0
    ensures ColumnSum(ws, fs, k) == 0.0
  {
    if |ws| > 0 {
      ColumnSumOfZeroWeights(ws[..|ws| - 1], fs[..|fs| - 1], k);
    }
  }

  /** With non-negative weights and components in [0, 1], a component of the
      weighted sum lies between 0 and the total weight. */
  lemma {:induction false} ColumnSumBetween(ws: seq<real>, fs: seq<Vec>, k: nat)
    requires |ws| == |fs|
    requires forall j :: 0 <= j < |fs| ==> k < |fs[j]|
    requires forall j :: 0 <= j < |ws| ==> ws[j] >= 0.0
    requires forall j :: 0 <= j < |fs| ==> 0.0 <= fs[j][k] <= 1.0
    ensures 0.0 <= ColumnSum(ws, fs, k) <= RealSum(ws)
  {
    if |ws| > 0 {
      var n := |ws|;
      ColumnSumBetween(ws[..n - 1], fs[..n - 1], k);
      var w, f := ws[n - 1], fs[n - 1][k];
      assert 0.0 <= w * f <= w by {
        assert w * (1.0 - f) >= 0.0;
      }
      assert RealSum(ws) == RealSum(ws[..n - 1]) + w;
    }
  }
}

/** Small sequence helpers shared by every module: index ranges, total lengths
    of sequences of lists, sums of reals, and an Option type. */
module Seqs {

  datatype Option<T> = None | Some(value: T)

  /** The identity order [0, 1, ..., n-1] that every epoch loop starts from. */
  function Range(n: nat): (r: seq<int>)
    ensures |r| == n
    ensures forall k :: 0 <= k < n ==> r[k] == k
  {
    seq(n, k => k)
  }

  /** Each of 0..n-1 occurs exactly once in Range(n), and nothing else occurs. */
  lemma {:induction false} RangeCounts(n: nat)
    ensures forall v :: multiset(Range(n))[v] == (if 0 <= v < n then 1 else 0)
  {
    if n > 0 {
      RangeCounts(n - 1);
      assert Range(n) == Range(n - 1) + [n - 1];
    }
  }

  /** A sequence with the same multiset as Range(n) lists every index of
      [0, n) exactly once. */
  predicate IsOrderOf(order: seq<int>, n: nat)
  {
    multiset(order) == multiset(Range(n))
  }

  lemma OrderElementsInRange(order: seq<int>, n: nat)
    requires IsOrderOf(order, n)
    ensures |order| == n
    ensures forall k :: 0 <= k < |order| ==> 0 <= order[k] < n
  {
    RangeCounts(n);
    assert |order| == |multiset(order)| == |multiset(Range(n))| == n;
    forall k | 0 <= k < |order|
      ensures 0 <= order[k] < n
    {
      assert order[k] in multiset(order);
    }
  }

  /** An entry that occurs at two positions is counted at least twice. */
  lemma TwiceCounted<T>(s: seq<T>, i: int, j: int)
    requires 0 <= i < j < |s|
    ensures s[i] == s[j] ==> multiset(s)[s[i]] >= 2
  {
    assert s == s[..j] + s[j..];
    assert s[..j][i] == s[i] && s[j..][0] == s[j];
    assert multiset(s)[s[i]] == multiset(s[..j])[s[i]] + multiset(s[j..])[s[i]];
  }

  /** An order lists no index twice. */
  lemma OrderDistinct(order: seq<int>, n: nat, i: int, j: int)
    requires IsOrderOf(order, n) && 0 <= i < j < |order|
    ensures order[i] != order[j]
  {
    RangeCounts(n);
    TwiceCounted(order, i, j);
  }

  /** Sum of the lengths of a sequence of lists (the number of adjacency
      entries of a graph, the number of table entries, ...). */
  function TotalLength<T>(ss: seq<seq<T>>): nat
  {
    if |ss| == 0 then 0 else TotalLength(ss[..|ss| - 1]) + |ss[|ss| - 1]|
  }

  /** Replacing one list changes the total length by the difference of lengths. */
  lemma {:induction false} TotalLengthUpdate<T>(ss: seq<seq<T>>, i: int, t: seq<T>)
    requires 0 <= i < |ss|
    ensures TotalLength(ss[i := t]) == TotalLength(ss) - |ss[i]| + |t|
  {
    var n := |ss|;
    if i == n - 1 {
      assert ss[i := t][..n - 1] == ss[..n - 1];
    } else {
      TotalLengthUpdate(ss[..n - 1], i, t);
      assert ss[i := t][..n - 1] == ss[..n - 1][i := t];
    }
  }

  /** The lists before i hold at most all entries, and taking one more list
      adds its length. */
  lemma {:induction false} TotalLengthPrefix<T>(ss: seq<seq<T>>, i: int)
    requires 0 <= i < |ss|
    ensures TotalLength(ss[..i + 1]) == TotalLength(ss[..i]) + |ss[i]|
    ensures TotalLength(ss[..i + 1]) <= TotalLength(ss)
    decreases |ss|
  {
    assert ss[..i + 1][..i] == ss[..i];
    if i + 1 < |ss| {
      TotalLengthPrefix(ss[..|ss| - 1], i);
      assert ss[..|ss| - 1][..i + 1] == ss[..i + 1];
      assert ss[..|ss| - 1][..i] == ss[..i];
    } else {
      assert ss[..i + 1] == ss;
    }
  }

  lemma {:induction false} TotalLengthAppend<T>(ss: seq<seq<T>>, t: seq<T>)
    ensures TotalLength(ss + [t]) == TotalLength(ss) + |t|
  {
    assert (ss + [t])[..|ss|] == ss;
  }

  /** Sum of a sequence of reals, left to right. */
  function RealSum(s: seq<real>): real
  {
    if |s| == 0 then 0.0 else RealSum(s[..|s| - 1]) + s[|s| - 1]
  }

  lemma {:induction false} RealSumAppend(s: seq<real>, v: real)
    ensures RealSum(s + [v]) == RealSum(s) + v
  {
    assert (s + [v])[..|s|] == s;
  }

  /** Replacing one entry changes the sum by the difference. */
  lemma {:induction false} RealSumUpdate(s: seq<real>, i: int, v: real)
    requires 0 <= i < |s|
    ensures RealSum(s[i := v]) == RealSum(s) - s[i] + v
  {
    var n := |s|;
    if i == n - 1 {
      assert s[i := v][..n - 1] == s[..n - 1];
    } else {
      assert s[i := v][..n - 1] == s[..n - 1][i := v];
      RealSumUpdate(s[..n - 1], i, v);
    }
  }

  /** The entries of s at the positions idx, in order (the feature lists the
      update rules gather from neighbour indices). */
  function Pick<T>(s: seq<T>, idx: seq<int>): (r: seq<T>)
    requires forall k :: 0 <= k < |idx| ==> 0 <= idx[k] < |s|
    ensures |r| == |idx|
    ensures forall k :: 0 <= k < |idx| ==> r[k] == s[idx[k]]
  {
    seq(|idx|, k requires 0 <= k < |idx| => s[idx[k]])
  }

  /** n copies of v. */
  function Const<T>(v: T, n: nat): (r: seq<T>)
    ensures |r| == n
    ensures forall k :: 0 <= k < n ==> r[k] == v
  {
    seq(n, _ => v)
  }

  /** Number of entries of s equal to v. */
  function Occurrences<T(==)>(s: seq<T>, v: T): nat
  {
    multiset(s)[v]
  }

  /** Standard resize: keep a prefix, pad with zeros. */
  function Resize(s: seq<real>, n: nat): (r: seq<real>)
    ensures |r| == n
    ensures forall k :: 0 <= k < n ==> r[k] == (if k < |s| then s[k] else 0.0)
  {
    if n <= |s| then s[..n] else s + seq(n - |s|, _ => 0.0)
  }
}

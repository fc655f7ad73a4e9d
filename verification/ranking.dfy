/** The two ranking metrics of utility.cpp. Both take the scores of the
    positive and of the negative instances, sort them together and read the
    ranking with a tolerance EPS: `EvaluateF1` picks a score cutoff and
    returns the F1 measure of "score >= cutoff - EPS", and
    `EvaluateAveragePrecision` walks the ranking from the highest score down
    in groups of tied scores. */
module Ranking {
  import opened Seqs

  /** The tolerance eps = 1e-4 of both metrics. */
  const EPS: real := 0.0001

  /** Precision or recall below 1e-5 makes EvaluateF1 return 0. */
  const MIN_RATIO: real := 0.00001

  /** The starting group key of EvaluateAveragePrecision, -1e6. */
  const FIRST_KEY: real := -1000000.0

  /** `le` is a total preorder. */
  ghost predicate TotalPreorder<T(!new)>(le: (T, T) -> bool)
  {
    && (forall a, b :: le(a, b) || le(b, a))
    && (forall a, b, c :: le(a, b) && le(b, c) ==> le(a, c))
  }

  predicate SortedBy<T>(s: seq<T>, le: (T, T) -> bool)
  {
    forall i, j :: 0 <= i < j < |s| ==> le(s[i], s[j])
  }

  /** Number of entries of s satisfying f. */
  function CountIf<T>(s: seq<T>, f: T -> bool): (r: nat)
    ensures r <= |s|
  {
    if |s| == 0 then 0 else (if f(s[0]) then 1 else 0) + CountIf(s[1..], f)
  }

  lemma {:induction false} CountIfAppend<T>(a: seq<T>, b: seq<T>, f: T -> bool)
    ensures CountIf(a + b, f) == CountIf(a, f) + CountIf(b, f)
  {
    if |a| == 0 {
      assert a + b == b;
    } else {
      assert (a + b)[0] == a[0];
      assert (a + b)[1..] == a[1..] + b;
      CountIfAppend(a[1..], b, f);
    }
  }

  /** Insert x into a sorted sequence after every entry that precedes it. */
  function Insert<T>(x: T, s: seq<T>, le: (T, T) -> bool): (r: seq<T>)
    ensures |r| == |s| + 1
    ensures forall y :: y in r ==> y == x || y in s
  {
    if |s| == 0 then [x]
    else if le(x, s[0]) then [x] + s
    else
      assert s == [s[0]] + s[1..];
      [s[0]] + Insert(x, s[1..], le)
  }

  lemma {:induction false} InsertPermutes<T>(x: T, s: seq<T>, le: (T, T) -> bool)
    ensures multiset(Insert(x, s, le)) == multiset(s) + multiset{x}
  {
    if |s| > 0 && !le(x, s[0]) {
      InsertPermutes(x, s[1..], le);
      assert s == [s[0]] + s[1..];
    }
  }

  lemma {:induction false} InsertSorted<T(!new)>(x: T, s: seq<T>, le: (T, T) -> bool)
    requires TotalPreorder(le) && SortedBy(s, le)
    ensures SortedBy(Insert(x, s, le), le)
  {
    if |s| > 0 && !le(x, s[0]) {
      InsertSorted(x, s[1..], le);
      var r := Insert(x, s, le);
      forall j | 0 < j < |r|
        ensures le(s[0], r[j])
      {
        assert r[j] in Insert(x, s[1..], le);
      }
    }
  }

  lemma {:induction false} InsertCount<T>(x: T, s: seq<T>, le: (T, T) -> bool, f: T -> bool)
    ensures CountIf(Insert(x, s, le), f) == CountIf(s, f) + (if f(x) then 1 else 0)
  {
    if |s| > 0 && !le(x, s[0]) {
      InsertCount(x, s[1..], le, f);
      assert Insert(x, s, le)[1..] == Insert(x, s[1..], le);
    } else if |s| > 0 {
      assert Insert(x, s, le)[1..] == s;
    }
  }

  /** Insertion sort: a sorted rearrangement of s (std::sort). */
  function SortBy<T>(s: seq<T>, le: (T, T) -> bool): (r: seq<T>)
    ensures |r| == |s|
  {
    if |s| == 0 then []
    else
      assert s == s[..|s| - 1] + [s[|s| - 1]];
      Insert(s[|s| - 1], SortBy(s[..|s| - 1], le), le)
  }

  lemma {:induction false} SortBySorted<T(!new)>(s: seq<T>, le: (T, T) -> bool)
    requires TotalPreorder(le)
    ensures SortedBy(SortBy(s, le), le)
  {
    if |s| > 0 {
      SortBySorted(s[..|s| - 1], le);
      InsertSorted(s[|s| - 1], SortBy(s[..|s| - 1], le), le);
    }
  }

  /** Sorting rearranges: the same entries, as often as before. */
  lemma {:induction false} SortByPermutes<T>(s: seq<T>, le: (T, T) -> bool)
    ensures multiset(SortBy(s, le)) == multiset(s)
  {
    if |s| > 0 {
      var n := |s|;
      SortByPermutes(s[..n - 1], le);
      InsertPermutes(s[n - 1], SortBy(s[..n - 1], le), le);
      assert s == s[..n - 1] + [s[n - 1]];
    }
  }

  /** Sorting keeps the number of entries with any property. */
  lemma {:induction false} SortByCount<T>(s: seq<T>, le: (T, T) -> bool, f: T -> bool)
    ensures CountIf(SortBy(s, le), f) == CountIf(s, f)
  {
    if |s| > 0 {
      var n := |s|;
      SortByCount(s[..n - 1], le, f);
      InsertCount(s[n - 1], SortBy(s[..n - 1], le), le, f);
      assert s == s[..n - 1] + [s[n - 1]];
      CountIfAppend(s[..n - 1], [s[n - 1]], f);
      assert [s[n - 1]][1..] == [];
    }
  }

  /** One step of insertion sort, for evaluating it on concrete inputs. */
  lemma SortStep<T>(t: seq<T>, p: seq<T>, x: T, le: (T, T) -> bool, sorted: seq<T>, r: seq<T>)
    requires t == p + [x] && SortBy(p, le) == sorted && Insert(x, sorted, le) == r
    ensures SortBy(t, le) == r
  {
    assert t[..|p|] == p;
  }

  lemma InsertBefore<T>(x: T, y: T, s: seq<T>, le: (T, T) -> bool)
    requires le(x, y)
    ensures Insert(x, [y] + s, le) == [x, y] + s
  {
  }

  lemma InsertAfter<T>(x: T, y: T, s: seq<T>, le: (T, T) -> bool)
    requires !le(x, y)
    ensures Insert(x, [y] + s, le) == [y] + Insert(x, s, le)
  {
    assert ([y] + s)[1..] == s;
  }

  /** The order of doubles used by std::sort. */
  function RealLe(): (real, real) -> bool
  {
    (a: real, b: real) => a <= b
  }

  lemma RealLeTotal()
    ensures TotalPreorder(RealLe())
  {
  }

  /** The first index in [lo, hi) whose entry is at least thr, or hi. */
  function FirstAtLeast(c: seq<real>, lo: int, hi: int, thr: real): (j: int)
    requires 0 <= lo && hi <= |c|
    ensures lo <= hi ==> lo <= j <= hi
    ensures lo > hi ==> j == hi
    ensures lo <= j < hi ==> c[j] >= thr
    ensures forall k :: lo <= k < j && k < hi ==> c[k] < thr
    decreases hi - lo
  {
    if lo >= hi then hi
    else if c[lo] >= thr then lo
    else FirstAtLeast(c, lo + 1, hi, thr)
  }

  /** The downward scan of EvaluateF1: for i = hi-1 down to lo, the cutoff
      becomes c[i] whenever c[i] >= c[0] + EPS. */
  function CutoffScan(c: seq<real>, i: int, lo: int, cur: real): real
    requires |c| > 0 && 0 <= lo && -1 <= i < |c|
    decreases i + 1
  {
    if i < lo then cur
    else CutoffScan(c, i - 1, lo, if c[i] >= c[0] + EPS then c[i] else cur)
  }

  lemma {:induction false} FirstAtLeastExtend(c: seq<real>, lo: int, hi: int, thr: real)
    requires 0 <= lo <= hi < |c|
    ensures FirstAtLeast(c, lo, hi + 1, thr)
         == if FirstAtLeast(c, lo, hi, thr) < hi then FirstAtLeast(c, lo, hi, thr)
            else if c[hi] >= thr then hi else hi + 1
    decreases hi - lo
  {
    if lo < hi && c[lo] < thr {
      FirstAtLeastExtend(c, lo + 1, hi, thr);
    }
  }

  /** The scan ends on the value at the first qualifying index of [lo, i],
      whatever the order of c: the downward loop overwrites the cutoff
      last with the lowest qualifying index. */
  lemma {:induction false} CutoffScanIsFirst(c: seq<real>, i: int, lo: int, cur: real)
    requires |c| > 0 && 0 <= lo && -1 <= i < |c|
    ensures lo <= i + 1 ==>
      CutoffScan(c, i, lo, cur)
        == if FirstAtLeast(c, lo, i + 1, c[0] + EPS) <= i then c[FirstAtLeast(c, lo, i + 1, c[0] + EPS)] else cur
    decreases i + 1
  {
    if lo <= i {
      var cur' := if c[i] >= c[0] + EPS then c[i] else cur;
      CutoffScanIsFirst(c, i - 1, lo, cur');
      FirstAtLeastExtend(c, lo, i, c[0] + EPS);
    }
  }

  /** Precision tp / (tp + fp) and recall tp / total of a cutoff,
      combined as in EvaluateF1: 0 when either is below 1e-5, their
      harmonic mean otherwise. */
  function F1FromCounts(tp: nat, fp: nat, total: nat): (r: real)
    requires tp + fp > 0 && 0 < total && tp <= total
    ensures 0.0 <= r <= 1.0
    ensures r > 0.0 ==> tp > 0
    ensures fp == 0 && tp == total ==> r == 1.0
  {
    var precision := Ratio(tp, tp + fp);
    var recall := Ratio(tp, total);
    if precision < MIN_RATIO || recall < MIN_RATIO then 0.0
    else Harmonic(precision, recall)
  }

  /** a / b for naturals a <= b, b > 0: a ratio in [0, 1] that is 1 exactly
      when a == b and positive exactly when a is. */
  function Ratio(a: nat, b: nat): (q: real)
    requires 0 < b && a <= b
    ensures 0.0 <= q <= 1.0
    ensures q == 1.0 <==> a == b
    ensures q > 0.0 <==> a > 0
  {
    RatioBetween(a, b);
    a as real / b as real
  }

  /** The harmonic mean 2pr / (p + r) of two ratios in (0, 1]: again in
      [0, 1], and 1 when both are. */
  function Harmonic(p: real, r: real): (h: real)
    requires 0.0 < p <= 1.0 && 0.0 < r <= 1.0
    ensures 0.0 <= h <= 1.0
    ensures p == 1.0 && r == 1.0 ==> h == 1.0
  {
    HarmonicBetween(p, r);
    p * r / (p + r) * 2.0
  }

  /** The cutoff of EvaluateF1 on the sorted scores c, of which the top
      |c| - lo are tried. */
  function Cutoff(c: seq<real>, lo: nat): real
    requires |c| > 0
  {
    CutoffScan(c, |c| - 1, lo, c[0])
  }

  /** The cutoff is one of the scores. */
  lemma CutoffIsAScore(c: seq<real>, lo: nat)
    requires 0 < |c| && lo <= |c|
    ensures Cutoff(c, lo) in c
  {
    CutoffScanIsFirst(c, |c| - 1, lo, c[0]);
  }

  /** The ratio of two naturals a <= b, b > 0, lies in [0, 1]. */
  lemma RatioBetween(a: nat, b: nat)
    requires 0 < b && a <= b
    ensures 0.0 <= a as real / b as real <= 1.0
    ensures a as real / b as real == 1.0 <==> a == b
    ensures a as real / b as real > 0.0 <==> a > 0
  {
  }

  /** For p, r in (0, 1]: 2pr / (p + r) lies in [0, 1]. */
  lemma HarmonicBetween(p: real, r: real)
    requires 0.0 < p <= 1.0 && 0.0 < r <= 1.0
    ensures 0.0 <= p * r / (p + r) * 2.0 <= 1.0
  {
    assert p * r <= p by { assert p * (1.0 - r) >= 0.0; }
    assert p * r <= r by { assert r * (1.0 - p) >= 0.0; }
    assert p * r >= 0.0;
    assert 2.0 * (p * r) <= p + r;
  }

  /** Entries of s that are at least t. */
  function AtLeast(t: real): real -> bool
  {
    (x: real) => x >= t
  }

  /** `EvaluateF1(positive, negative)`. */
  function EvaluateF1(pos: seq<real>, neg: seq<real>): (r: real)
    ensures |pos| == 0 ==> r == 0.0
    ensures 0.0 <= r <= 1.0
  {
    if |pos| == 0 then 0.0
    else
      var c := SortBy(pos + neg, RealLe());
      var cutoff := Cutoff(c, |neg|);
      InRangeNotEmpty(pos, neg, c, cutoff);
      F1FromCounts(CountIf(pos, AtLeast(cutoff - EPS)), CountIf(neg, AtLeast(cutoff - EPS)), |pos|)
  }

  /** At least one score reaches the cutoff minus EPS, so the precision of
      EvaluateF1 never divides by zero. */
  lemma InRangeNotEmpty(pos: seq<real>, neg: seq<real>, c: seq<real>, cutoff: real)
    requires |pos| > 0 && c == SortBy(pos + neg, RealLe()) && cutoff == Cutoff(c, |neg|)
    ensures CountIf(pos, AtLeast(cutoff - EPS)) + CountIf(neg, AtLeast(cutoff - EPS)) > 0
  {
    CutoffIsAScore(c, |neg|);
    SortByPermutes(pos + neg, RealLe());
    assert cutoff in multiset(pos + neg);
    CountIfAppend(pos, neg, AtLeast(cutoff - EPS));
    CountIfMember(pos + neg, cutoff, AtLeast(cutoff - EPS));
  }

  lemma {:induction false} CountIfMember<T>(s: seq<T>, x: T, f: T -> bool)
    requires x in s && f(x)
    ensures CountIf(s, f) > 0
  {
    if s[0] != x {
      CountIfMember(s[1..], x, f);
    }
  }

  /** The cutoff read off sorted scores: the least of the scores at
      positions lo and above that exceeds the lowest score by EPS, or the
      lowest score if there is none. */
  function CutoffSpec(c: seq<real>, lo: nat): real
    requires 0 < |c| && lo <= |c|
  {
    var j := FirstAtLeast(c, lo, |c|, c[0] + EPS);
    if j < |c| then c[j] else c[0]
  }

  /** The downward scan of EvaluateF1 finds exactly that cutoff. */
  lemma CutoffMatchesSpec(c: seq<real>, lo: nat)
    requires 0 < |c| && lo <= |c|
    ensures Cutoff(c, lo) == CutoffSpec(c, lo)
  {
    CutoffScanIsFirst(c, |c| - 1, lo, c[0]);
  }

  /** EvaluateF1 is the F1 measure of that cutoff, over the scores sorted
      in ascending order. */
  lemma EvaluateF1IsF1OfCutoff(pos: seq<real>, neg: seq<real>) returns (c: seq<real>, cutoff: real)
    requires |pos| > 0
    ensures c == SortBy(pos + neg, RealLe()) && SortedBy(c, RealLe())
    ensures cutoff == CutoffSpec(c, |neg|)
    ensures CountIf(pos, AtLeast(cutoff - EPS)) + CountIf(neg, AtLeast(cutoff - EPS)) > 0
    ensures EvaluateF1(pos, neg)
         == F1FromCounts(CountIf(pos, AtLeast(cutoff - EPS)), CountIf(neg, AtLeast(cutoff - EPS)), |pos|)
  {
    c := SortBy(pos + neg, RealLe());
    RealLeTotal();
    SortBySorted(pos + neg, RealLe());
    CutoffMatchesSpec(c, |neg|);
    cutoff := Cutoff(c, |neg|);
    InRangeNotEmpty(pos, neg, c, cutoff);
  }

  /** The scores of the test below, sorted. */
  lemma F1SortExample()
    ensures SortBy([2.0, 3.0, 0.0, 1.0, 2.0], RealLe()) == [0.0, 1.0, 2.0, 2.0, 3.0]
  {
    F1SortPrefix();
    InsertAfter(2.0, 0.0, [1.0, 2.0, 3.0], RealLe());
    InsertAfter(2.0, 1.0, [2.0, 3.0], RealLe());
    InsertBefore(2.0, 2.0, [3.0], RealLe());
    SortStep([2.0, 3.0, 0.0, 1.0, 2.0], [2.0, 3.0, 0.0, 1.0], 2.0, RealLe(), [0.0, 1.0, 2.0, 3.0], [0.0, 1.0, 2.0, 2.0, 3.0]);
  }

  lemma F1SortPrefix()
    ensures SortBy([2.0, 3.0, 0.0, 1.0], RealLe()) == [0.0, 1.0, 2.0, 3.0]
  {
    F1SortShortPrefix();
    InsertAfter(1.0, 0.0, [2.0, 3.0], RealLe());
    InsertBefore(1.0, 2.0, [3.0], RealLe());
    SortStep([2.0, 3.0, 0.0, 1.0], [2.0, 3.0, 0.0], 1.0, RealLe(), [0.0, 2.0, 3.0], [0.0, 1.0, 2.0, 3.0]);
  }

  lemma F1SortShortPrefix()
    ensures SortBy([2.0, 3.0, 0.0], RealLe()) == [0.0, 2.0, 3.0]
  {
    SortStep([2.0], [], 2.0, RealLe(), [], [2.0]);
    InsertAfter(3.0, 2.0, [], RealLe());
    SortStep([2.0, 3.0], [2.0], 3.0, RealLe(), [2.0], [2.0, 3.0]);
    InsertBefore(0.0, 2.0, [3.0], RealLe());
    SortStep([2.0, 3.0, 0.0], [2.0, 3.0], 0.0, RealLe(), [2.0, 3.0], [0.0, 2.0, 3.0]);
  }

  /** The example of utility_test.cpp: positives {2, 3}, negatives {0, 1, 2}
      give F1 = 0.8 (cutoff 2: precision 2/3, recall 1). */
  lemma F1Example()
    ensures EvaluateF1([2.0, 3.0], [0.0, 1.0, 2.0]) == 0.8
  {
    var pos, neg := [2.0, 3.0], [0.0, 1.0, 2.0];
    assert pos + neg == [2.0, 3.0, 0.0, 1.0, 2.0];
    F1SortExample();
    var c := [0.0, 1.0, 2.0, 2.0, 3.0];
    CutoffMatchesSpec(c, 3);
    assert FirstAtLeast(c, 3, 5, c[0] + EPS) == 3;
    F1ExampleCounts();
    F1CountsExample();
  }

  /** At the cutoff 2, both positives and one negative are counted. */
  lemma F1ExampleCounts()
    ensures CountIf([2.0, 3.0], AtLeast(2.0 - EPS)) == 2
    ensures CountIf([0.0, 1.0, 2.0], AtLeast(2.0 - EPS)) == 1
  {
    var pos, neg := [2.0, 3.0], [0.0, 1.0, 2.0];
    assert pos[1..] == [3.0];
    assert neg[1..] == [1.0, 2.0];
    assert neg[1..][1..] == [2.0];
  }

  /** Two true positives, one false positive, two positives in all:
      precision 2/3 and recall 1 give F1 = 0.8. */
  lemma F1CountsExample()
    ensures F1FromCounts(2, 1, 2) == 0.8
  {
    assert Ratio(2, 3) == 2.0 / 3.0 && Ratio(2, 2) == 1.0;
  }

  /** A score tagged 1 (positive) or -1 (negative); the key is the negated
      score, so ascending order is descending score. */
  datatype Ranked = Ranked(key: real, tag: int)

  /** The lexicographic order of std::pair<double, int>. */
  function PairLe(): (Ranked, Ranked) -> bool
  {
    (a: Ranked, b: Ranked) => a.key < b.key || (a.key == b.key && a.tag <= b.tag)
  }

  lemma PairLeTotal()
    ensures TotalPreorder(PairLe())
  {
  }

  function IsPositive(): Ranked -> bool
  {
    (x: Ranked) => x.tag == 1
  }

  /** The tagged, negated scores in the order the source pushes them. */
  function Tagged(pos: seq<real>, neg: seq<real>): (r: seq<Ranked>)
    ensures |r| == |pos| + |neg|
    ensures CountIf(r, IsPositive()) == |pos|
  {
    var a := seq(|pos|, i requires 0 <= i < |pos| => Ranked(-pos[i], 1));
    var b := seq(|neg|, i requires 0 <= i < |neg| => Ranked(-neg[i], -1));
    CountIfAppend(a, b, IsPositive());
    AllCounted(a, IsPositive());
    NoneCounted(b, IsPositive());
    a + b
  }

  lemma {:induction false} AllCounted<T>(s: seq<T>, f: T -> bool)
    requires forall i :: 0 <= i < |s| ==> f(s[i])
    ensures CountIf(s, f) == |s|
  {
    if |s| > 0 {
      AllCounted(s[1..], f);
    }
  }

  lemma {:induction false} NoneCounted<T>(s: seq<T>, f: T -> bool)
    requires forall i :: 0 <= i < |s| ==> !f(s[i])
    ensures CountIf(s, f) == 0
  {
    if |s| > 0 {
      NoneCounted(s[1..], f);
    }
  }

  /** The loop variables of EvaluateAveragePrecision. */
  datatype ApState = ApState(spanPos: nat, spanNeg: nat, totPos: nat, totNeg: nat, current: real, ave: real)

  /** The share a closed group adds: its positives over all positives, times
      the precision tp / (tp + tn) at the group's end, written as one
      quotient. */
  function GroupShare(spanPos: nat, total: nat, tp: nat, tn: nat): real
    requires total > 0 && tp + tn > 0
  {
    (spanPos * tp) as real / (total * (tp + tn)) as real
  }

  /** One iteration: a key more than EPS above the current group's key
      closes that group (adding its share when it holds a positive) and
      opens a new one; then the entry joins the open group. */
  function ApStep(st: ApState, x: Ranked, total: nat): ApState
    requires total > 0
  {
    var st1 :=
      if x.key > st.current + EPS then
        var tp := st.totPos + st.spanPos;
        var tn := st.totNeg + st.spanNeg;
        ApState(0, 0, tp, tn, x.key, if st.spanPos > 0 then st.ave + GroupShare(st.spanPos, total, tp, tn) else st.ave)
      else st;
    if x.tag == 1 then st1.(spanPos := st1.spanPos + 1) else st1.(spanNeg := st1.spanNeg + 1)
  }

  /** The loop over the sorted pairs, from the initial state. */
  function ApScan(c: seq<Ranked>, total: nat): ApState
    requires total > 0
  {
    if |c| == 0 then ApState(0, 0, 0, 0, FIRST_KEY, 0.0)
    else ApStep(ApScan(c[..|c| - 1], total), c[|c| - 1], total)
  }

  /** `EvaluateAveragePrecision(positive, negative)`. With no positive
      instance the final share divides zero by zero (NaN); the model
      returns None there. */
  function EvaluateAveragePrecision(pos: seq<real>, neg: seq<real>): (r: Option<real>)
    ensures r.None? <==> |pos| == 0
  {
    if |pos| == 0 then None
    else
      var st := ApScan(SortBy(Tagged(pos, neg), PairLe()), |pos|);
      Some(st.ave + GroupShare(st.spanPos, |pos|, |pos|, |neg|))
  }

  /** A group's share is at most its positives over all positives, and adds
      up with the earlier groups' bound. */
  lemma ShareBound(ave: real, sp: nat, tp0: nat, total: nat, tp: nat, tn: nat)
    requires total > 0 && tp + tn > 0 && tp == tp0 + sp
    requires 0.0 <= ave <= tp0 as real / total as real
    ensures 0.0 <= ave + GroupShare(sp, total, tp, tn) <= tp as real / total as real
  {
    GroupShareBound(sp, total, tp, tn);
    AddQuotients(tp0, sp, total);
  }

  /** A group's share is at most its positives over all positives. */
  lemma GroupShareBound(sp: nat, total: nat, tp: nat, tn: nat)
    requires total > 0 && tp + tn > 0
    ensures 0.0 <= GroupShare(sp, total, tp, tn) <= sp as real / total as real
  {
    MulMonotone(sp, tp, tp + tn);
    QuotientMonotone(sp * tp, sp * (tp + tn), total * (tp + tn));
    CancelFactor(sp, total, tp + tn);
  }

  lemma MulMonotone(a: nat, b: nat, c: nat)
    requires b <= c
    ensures a * b <= a * c
  {
  }

  /** a / d <= b / d for 0 <= a <= b and d > 0. */
  lemma QuotientMonotone(a: nat, b: nat, d: nat)
    requires a <= b && d > 0
    ensures 0.0 <= a as real / d as real <= b as real / d as real
  {
    assert a as real / d as real == a as real * (1.0 / d as real);
    assert b as real / d as real == b as real * (1.0 / d as real);
  }

  /** a / d + b / d = (a + b) / d. */
  lemma AddQuotients(a: nat, b: nat, d: nat)
    requires d > 0
    ensures a as real / d as real + b as real / d as real == (a + b) as real / d as real
  {
    assert a as real / d as real == a as real * (1.0 / d as real);
    assert b as real / d as real == b as real * (1.0 / d as real);
    assert (a + b) as real / d as real == (a + b) as real * (1.0 / d as real);
  }

  /** (a k) / (b k) = a / b. */
  lemma CancelFactor(a: nat, b: nat, k: nat)
    requires b > 0 && k > 0
    ensures (a * k) as real / (b * k) as real == a as real / b as real
  {
    var x := a as real / b as real;
    assert x * b as real == a as real;
    assert (b * k) as real == b as real * k as real;
    assert (a * k) as real == a as real * k as real;
    assert x * (b * k) as real == (a * k) as real;
  }

  /** One iteration keeps the invariant of ApScanInvariant. */
  lemma ApStepInvariant(st: ApState, x: Ranked, total: nat)
    requires total > 0
    requires 0.0 <= st.ave <= st.totPos as real / total as real
    ensures ApStep(st, x, total).totPos + ApStep(st, x, total).spanPos
         == st.totPos + st.spanPos + (if x.tag == 1 then 1 else 0)
    ensures 0.0 <= ApStep(st, x, total).ave <= ApStep(st, x, total).totPos as real / total as real
  {
    if x.key > st.current + EPS {
      var tp := st.totPos + st.spanPos;
      var tn := st.totNeg + st.spanNeg;
      if st.spanPos > 0 {
        ShareBound(st.ave, st.spanPos, st.totPos, total, tp, tn);
      } else {
        assert st.totPos as real / total as real <= tp as real / total as real;
      }
    }
  }

  /** Invariant of the scan: the closed groups and the open group hold all
      positives seen so far, and the sum lies between 0 and the share of
      positives in closed groups. */
  lemma {:induction false} ApScanInvariant(c: seq<Ranked>, total: nat)
    requires total > 0
    ensures ApScan(c, total).totPos + ApScan(c, total).spanPos == CountIf(c, IsPositive())
    ensures 0.0 <= ApScan(c, total).ave <= ApScan(c, total).totPos as real / total as real
  {
    if |c| > 0 {
      var n := |c|;
      ApScanInvariant(c[..n - 1], total);
      assert c == c[..n - 1] + [c[n - 1]];
      CountIfAppend(c[..n - 1], [c[n - 1]], IsPositive());
      assert [c[n - 1]][1..] == [];
      ApStepInvariant(ApScan(c[..n - 1], total), c[n - 1], total);
    }
  }

  /** Average precision lies in [0, 1]. */
  lemma AveragePrecisionBetween(pos: seq<real>, neg: seq<real>)
    requires |pos| > 0
    ensures 0.0 <= EvaluateAveragePrecision(pos, neg).value <= 1.0
  {
    var c := SortBy(Tagged(pos, neg), PairLe());
    var total := |pos|;
    SortByCount(Tagged(pos, neg), PairLe(), IsPositive());
    ApScanInvariant(c, total);
    var st := ApScan(c, total);
    ShareBound(st.ave, st.spanPos, st.totPos, total, total, |neg|);
    WholeRatio(total);
  }

  lemma WholeRatio(n: nat)
    requires n > 0
    ensures n as real / n as real == 1.0
  {
  }

  /** The tagged pairs of the test below, sorted: the positive score 3,
      the tied score 2 with the negative first, then 1 and 0. */
  lemma ApSortExample()
    ensures SortBy(Tagged([2.0, 3.0], [0.0, 1.0, 2.0]), PairLe())
         == [Ranked(-3.0, 1), Ranked(-2.0, -1), Ranked(-2.0, 1), Ranked(-1.0, -1), Ranked(0.0, -1)]
  {
    TaggedExample();
    ApSortPrefix();
    ApInsertLast();
    SortStep([Ranked(-2.0, 1), Ranked(-3.0, 1), Ranked(0.0, -1), Ranked(-1.0, -1), Ranked(-2.0, -1)],
             [Ranked(-2.0, 1), Ranked(-3.0, 1), Ranked(0.0, -1), Ranked(-1.0, -1)], Ranked(-2.0, -1), PairLe(),
             [Ranked(-3.0, 1), Ranked(-2.0, 1), Ranked(-1.0, -1), Ranked(0.0, -1)],
             [Ranked(-3.0, 1), Ranked(-2.0, -1), Ranked(-2.0, 1), Ranked(-1.0, -1), Ranked(0.0, -1)]);
  }

  lemma TaggedExample()
    ensures Tagged([2.0, 3.0], [0.0, 1.0, 2.0])
         == [Ranked(-2.0, 1), Ranked(-3.0, 1), Ranked(0.0, -1), Ranked(-1.0, -1), Ranked(-2.0, -1)]
  {
  }

  lemma ApInsertLast()
    ensures Insert(Ranked(-2.0, -1), [Ranked(-3.0, 1), Ranked(-2.0, 1), Ranked(-1.0, -1), Ranked(0.0, -1)], PairLe())
         == [Ranked(-3.0, 1), Ranked(-2.0, -1), Ranked(-2.0, 1), Ranked(-1.0, -1), Ranked(0.0, -1)]
  {
    InsertBefore(Ranked(-2.0, -1), Ranked(-2.0, 1), [Ranked(-1.0, -1), Ranked(0.0, -1)], PairLe());
    InsertAfter(Ranked(-2.0, -1), Ranked(-3.0, 1), [Ranked(-2.0, 1), Ranked(-1.0, -1), Ranked(0.0, -1)], PairLe());
  }

  lemma ApSortPrefix()
    ensures SortBy([Ranked(-2.0, 1), Ranked(-3.0, 1), Ranked(0.0, -1), Ranked(-1.0, -1)], PairLe())
         == [Ranked(-3.0, 1), Ranked(-2.0, 1), Ranked(-1.0, -1), Ranked(0.0, -1)]
  {
    ApSortShortPrefix();
    InsertBefore(Ranked(-1.0, -1), Ranked(0.0, -1), [], PairLe());
    InsertAfter(Ranked(-1.0, -1), Ranked(-2.0, 1), [Ranked(0.0, -1)], PairLe());
    InsertAfter(Ranked(-1.0, -1), Ranked(-3.0, 1), [Ranked(-2.0, 1), Ranked(0.0, -1)], PairLe());
    SortStep([Ranked(-2.0, 1), Ranked(-3.0, 1), Ranked(0.0, -1), Ranked(-1.0, -1)],
             [Ranked(-2.0, 1), Ranked(-3.0, 1), Ranked(0.0, -1)], Ranked(-1.0, -1), PairLe(),
             [Ranked(-3.0, 1), Ranked(-2.0, 1), Ranked(0.0, -1)],
             [Ranked(-3.0, 1), Ranked(-2.0, 1), Ranked(-1.0, -1), Ranked(0.0, -1)]);
  }

  lemma ApSortShortPrefix()
    ensures SortBy([Ranked(-2.0, 1), Ranked(-3.0, 1), Ranked(0.0, -1)], PairLe())
         == [Ranked(-3.0, 1), Ranked(-2.0, 1), Ranked(0.0, -1)]
  {
    SortStep([Ranked(-2.0, 1)], [], Ranked(-2.0, 1), PairLe(), [], [Ranked(-2.0, 1)]);
    InsertBefore(Ranked(-3.0, 1), Ranked(-2.0, 1), [], PairLe());
    SortStep([Ranked(-2.0, 1), Ranked(-3.0, 1)], [Ranked(-2.0, 1)], Ranked(-3.0, 1), PairLe(),
             [Ranked(-2.0, 1)], [Ranked(-3.0, 1), Ranked(-2.0, 1)]);
    InsertAfter(Ranked(0.0, -1), Ranked(-2.0, 1), [], PairLe());
    InsertAfter(Ranked(0.0, -1), Ranked(-3.0, 1), [Ranked(-2.0, 1)], PairLe());
    SortStep([Ranked(-2.0, 1), Ranked(-3.0, 1), Ranked(0.0, -1)], [Ranked(-2.0, 1), Ranked(-3.0, 1)], Ranked(0.0, -1), PairLe(),
             [Ranked(-3.0, 1), Ranked(-2.0, 1)], [Ranked(-3.0, 1), Ranked(-2.0, 1), Ranked(0.0, -1)]);
  }

  /** One iteration of the scan, for evaluating it on concrete inputs. */
  lemma ScanStep(c: seq<Ranked>, p: seq<Ranked>, x: Ranked, total: nat, st: ApState, r: ApState)
    requires total > 0 && c == p + [x] && ApScan(p, total) == st && ApStep(st, x, total) == r
    ensures ApScan(c, total) == r
  {
    assert c[..|p|] == p;
  }

  /** The scan over those pairs: the first group {3} closes with share
      1/2 * 1, the group {2, 2} with share 1/2 * 2/3. */
  lemma ApScanExample()
    ensures ApScan([Ranked(-3.0, 1), Ranked(-2.0, -1), Ranked(-2.0, 1), Ranked(-1.0, -1), Ranked(0.0, -1)], 2)
         == ApState(0, 1, 2, 2, 0.0, 5.0 / 6.0)
  {
    ApScanPrefix();
    ApStepLast();
    ScanStep([Ranked(-3.0, 1), Ranked(-2.0, -1), Ranked(-2.0, 1), Ranked(-1.0, -1), Ranked(0.0, -1)],
             [Ranked(-3.0, 1), Ranked(-2.0, -1), Ranked(-2.0, 1), Ranked(-1.0, -1)], Ranked(0.0, -1), 2,
             ApState(0, 1, 2, 1, -1.0, 5.0 / 6.0), ApState(0, 1, 2, 2, 0.0, 5.0 / 6.0));
  }

  lemma ApStepLast()
    ensures ApStep(ApState(0, 1, 2, 1, -1.0, 5.0 / 6.0), Ranked(0.0, -1), 2) == ApState(0, 1, 2, 2, 0.0, 5.0 / 6.0)
  {
  }

  lemma ApScanPrefix()
    ensures ApScan([Ranked(-3.0, 1), Ranked(-2.0, -1), Ranked(-2.0, 1), Ranked(-1.0, -1)], 2)
         == ApState(0, 1, 2, 1, -1.0, 5.0 / 6.0)
  {
    ApScanShortPrefix();
    ApStepCloseSecond();
    ScanStep([Ranked(-3.0, 1), Ranked(-2.0, -1), Ranked(-2.0, 1), Ranked(-1.0, -1)],
             [Ranked(-3.0, 1), Ranked(-2.0, -1), Ranked(-2.0, 1)], Ranked(-1.0, -1), 2,
             ApState(1, 1, 1, 0, -2.0, 0.5), ApState(0, 1, 2, 1, -1.0, 5.0 / 6.0));
  }

  lemma ApStepCloseSecond()
    ensures ApStep(ApState(1, 1, 1, 0, -2.0, 0.5), Ranked(-1.0, -1), 2) == ApState(0, 1, 2, 1, -1.0, 5.0 / 6.0)
  {
    assert GroupShare(1, 2, 2, 1) == 1.0 / 3.0;
  }

  lemma ApScanShortPrefix()
    ensures ApScan([Ranked(-3.0, 1), Ranked(-2.0, -1), Ranked(-2.0, 1)], 2) == ApState(1, 1, 1, 0, -2.0, 0.5)
  {
    ScanStep([Ranked(-3.0, 1)], [], Ranked(-3.0, 1), 2, ApState(0, 0, 0, 0, FIRST_KEY, 0.0), ApState(1, 0, 0, 0, -3.0, 0.0));
    ApStepCloseFirst();
    ScanStep([Ranked(-3.0, 1), Ranked(-2.0, -1)], [Ranked(-3.0, 1)], Ranked(-2.0, -1), 2,
             ApState(1, 0, 0, 0, -3.0, 0.0), ApState(0, 1, 1, 0, -2.0, 0.5));
    ScanStep([Ranked(-3.0, 1), Ranked(-2.0, -1), Ranked(-2.0, 1)], [Ranked(-3.0, 1), Ranked(-2.0, -1)], Ranked(-2.0, 1), 2,
             ApState(0, 1, 1, 0, -2.0, 0.5), ApState(1, 1, 1, 0, -2.0, 0.5));
  }

  lemma ApStepCloseFirst()
    ensures ApStep(ApState(1, 0, 0, 0, -3.0, 0.0), Ranked(-2.0, -1), 2) == ApState(0, 1, 1, 0, -2.0, 0.5)
  {
    assert GroupShare(1, 2, 1, 0) == 0.5;
  }

  /** The example of utility_test.cpp: positives {2, 3}, negatives {0, 1, 2}
      give average precision 5/6 (precision 1 after the score 3, 2/3 after
      the tied scores 2). */
  lemma AveragePrecisionExample()
    ensures EvaluateAveragePrecision([2.0, 3.0], [0.0, 1.0, 2.0]) == Some(5.0 / 6.0)
  {
    ApSortExample();
    ApScanExample();
    assert GroupShare(0, 2, 2, 3) == 0.0;
  }
}
